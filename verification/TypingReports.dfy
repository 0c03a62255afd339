/** Which reports the typing gate passes, said of the diagnostics as they are reported and reviewed. */
module TypingReports {
  import opened Decimal
  import opened Wrappers
  import opened Text
  import opened TypingGate

  // ---- Follow-ups ----

  lemma OneDigitMore(n: nat, c: char)
    requires n > 0 && IsDigit(c)
    ensures Digits(10 * n + (c as int - '0' as int)) == Digits(n) + [c]
  {
    var d := c as int - '0' as int;
    assert (10 * n + d) / 10 == n && (10 * n + d) % 10 == d;
    assert ('0' as int + d) as char == c;
  }

  lemma OneDigit(c: char)
    requires IsDigit(c)
    ensures Digits(c as int - '0' as int) == [c]
  {
    var d := c as int - '0' as int;
    assert d % 10 == d;
    assert ('0' as int + d) as char == c;
  }

  lemma {:induction false} DigitsOf(s: string)
    requires s != "" && AllDigits(s) && s[0] != '0'
    ensures ParseDigits(s) > 0 && Digits(ParseDigits(s)) == s
    decreases s
  {
    hide Digits;
    var last := |s| - 1;
    assert IsDigit(s[0]) && IsDigit(s[last]) && s == s[..last] + [s[last]];
    if last > 0 {
      DigitsOf(s[..last]);
      OneDigitMore(ParseDigits(s[..last]), s[last]);
    } else {
      assert ParseDigits(s[..0]) == 0 && s == [s[0]];
      OneDigit(s[0]);
    }
  }

  lemma {:induction false} NoLeadingZero(n: nat)
    requires n > 0
    ensures Digits(n)[0] != '0'
  {
    if n >= 10 { NoLeadingZero(n / 10); }
  }

  lemma PrefixAndRest(prefix: string, s: string)
    requires prefix < s
    ensures s == prefix + s[|prefix|..]
  {
  }

  lemma Appended(prefix: string, number: string)
    ensures prefix <= prefix + number
    ensures forall i :: |prefix| <= i < |prefix + number| ==> (prefix + number)[i] == number[i - |prefix|]
  {
  }

  lemma IssueParts(s: string) returns (number: string)
    requires IsIssue(s)
    ensures s == ISSUES + number && number != "" && AllDigits(number) && number[0] != '0'
  {
    number := s[|ISSUES|..];
    PrefixAndRest(ISSUES, s);
    assert forall i :: 0 <= i < |number| ==> number[i] == s[|ISSUES| + i];
  }

  /** A precision loss is excused by the address of a filed issue: the tracker's, and a number. */
  lemma IssueNumber(s: string) returns (n: nat)
    requires IsIssue(s)
    ensures n > 0 && s == ISSUES + Str(n)
  {
    hide IsIssue, Digits, ParseDigits, AllDigits;
    var number := IssueParts(s);
    DigitsOf(number);
    n := ParseDigits(number);
  }

  lemma NumberedIssue(n: nat)
    requires n > 0
    ensures IsIssue(ISSUES + Str(n))
  {
    NoLeadingZero(n);
    hide Digits;
    var number := Digits(n);
    Appended(ISSUES, number);
    assert forall i :: 0 <= i < |number| ==> IsDigit(number[i]);
  }

  // ---- Baselines ----

  /** Record `i` is the last one with the id. */
  predicate LastWith(digest: Key -> string, ds: seq<Reviewed>, n: nat, id: string, i: nat)
    requires n <= |ds|
  {
    i < n && digest(ds[i].key) == id && forall k :: i < k < n ==> digest(ds[k].key) != id
  }

  lemma {:induction false} TargetIsLast(digest: Key -> string, ds: seq<Reviewed>, n: nat, id: string) returns (i: nat)
    requires n <= |ds| && Known(digest, ds, n, id)
    ensures LastWith(digest, ds, n, id, i) && Target(digest, ds, n, id) == ds[i].key
    decreases n
  {
    if digest(ds[n - 1].key) == id {
      i := n - 1;
    } else {
      i := TargetIsLast(digest, ds, n - 1, id);
    }
  }

  /** A precision loss is excused by a filed issue, an improvement by itself. */
  ghost predicate Excused(r: Removal) {
    || r.classification == "accuracy-improvement"
    || (r.classification == "accepted-precision-loss" &&
        exists n: nat :: n > 0 && r.followUp == "https://github.com/benbenbang/libitofin/issues/" + Str(n))
  }

  /** The removal takes at least one and at most all occurrences of the last record with its id. */
  ghost predicate Takes(digest: Key -> string, ds: seq<Reviewed>, r: Removal) {
    exists i :: 0 <= i < |ds| && LastWith(digest, ds, |ds|, r.id, i)
      && r.count.Whole? && ds[i].count.Whole? && 1 <= r.count.value <= ds[i].count.value
  }

  ghost predicate Sound(digest: Key -> string, ds: seq<Reviewed>, r: Removal) {
    && Excused(r) && Takes(digest, ds, r)
    && (exists i :: 0 <= i < |r.reason| && !IsSpace(r.reason[i]))
    && (exists i :: 0 <= i < |r.evidence| && !IsSpace(r.evidence[i]))
  }

  lemma ExcusedExactly(r: Removal)
    ensures Explained(r) <==>
            && Excused(r)
            && (exists i :: 0 <= i < |r.reason| && !IsSpace(r.reason[i]))
            && (exists i :: 0 <= i < |r.evidence| && !IsSpace(r.evidence[i]))
  {
    hide IsIssue, IsSpace, Str;
    if IsIssue(r.followUp) {
      var n := IssueNumber(r.followUp);
    }
    forall n: nat | n > 0 && r.followUp == ISSUES + Str(n) ensures IsIssue(r.followUp) {
      NumberedIssue(n);
    }
  }

  lemma SoundExactly(digest: Key -> string, ds: seq<Reviewed>, r: Removal)
    requires DiagnosticsOk(ds, |ds|)
    ensures RemovalOk(digest, ds, r) <==> Sound(digest, ds, r)
  {
    hide Explained, Excused, IsSpace;
    ExcusedExactly(r);
    if Known(digest, ds, |ds|, r.id) {
      var i := TargetIsLast(digest, ds, |ds|, r.id);
      CountOfRecord(ds, |ds|, i);
      forall j | 0 <= j < |ds| && LastWith(digest, ds, |ds|, r.id, j) ensures j == i {
      }
    }
  }

  /** The baselines that the gate accepts: positive whole counts, no record twice, no removal twice,
      and every removal excused, with a reason and evidence, and within what was reviewed. */
  lemma WellFormedExactly(digest: Key -> string, b: Baseline)
    ensures WellFormed(digest, b) <==>
            && (forall i :: 0 <= i < |b.diagnostics| ==>
                  b.diagnostics[i].count.Whole? && b.diagnostics[i].count.value >= 1)
            && (forall i, j :: 0 <= i < j < |b.diagnostics| ==> b.diagnostics[i].key != b.diagnostics[j].key)
            && (forall i, j :: 0 <= i < j < |b.removals| ==> b.removals[i].id != b.removals[j].id)
            && (forall i :: 0 <= i < |b.removals| ==> Sound(digest, b.diagnostics, b.removals[i]))
  {
    hide Sound, RemovalOk;
    if DiagnosticsOk(b.diagnostics, |b.diagnostics|) {
      forall i | 0 <= i < |b.removals|
        ensures RemovalOk(digest, b.diagnostics, b.removals[i]) <==> Sound(digest, b.diagnostics, b.removals[i])
      {
        SoundExactly(digest, b.diagnostics, b.removals[i]);
      }
    }
  }

  // ---- Messages ----

  /** White space is single blanks between words. */
  predicate Tidied(message: string) {
    forall i :: 0 <= i < |message| && IsSpace(message[i]) ==>
      message[i] == ' ' && 0 < i < |message| - 1 && !IsSpace(message[i + 1])
  }

  lemma {:induction false} JoinedIsTidied(words: seq<string>)
    requires forall i :: 0 <= i < |words| ==> IsWord(words[i])
    ensures Tidied(Join(words))
    ensures words != [] ==> var m := Join(words); m != "" && !IsSpace(m[0]) && !IsSpace(m[|m| - 1])
    decreases |words|
  {
    if |words| > 1 {
      JoinedIsTidied(words[..|words| - 1]);
      OneWordMore(Join(words[..|words| - 1]), words[|words| - 1]);
    }
  }

  lemma OneWordMore(m: string, word: string)
    requires Tidied(m) && m != "" && !IsSpace(m[0]) && !IsSpace(m[|m| - 1]) && IsWord(word)
    ensures var longer := m + " " + word;
      Tidied(longer) && longer != "" && !IsSpace(longer[0]) && !IsSpace(longer[|longer| - 1])
  {
    assert IsSpace(' ');
    hide IsSpace;
  }

  lemma {:induction false} JoinFront(word: string, words: seq<string>)
    requires words != []
    ensures Join([word] + words) == word + " " + Join(words)
    decreases |words|
  {
    var all := [word] + words;
    if |words| == 1 {
      assert all[..1] == [word];
    } else {
      JoinFront(word, words[..|words| - 1]);
      assert all[..|all| - 1] == [word] + words[..|words| - 1];
    }
  }

  lemma {:induction false} TidiedReadsBack(word: string, s: string)
    requires Tidied(word + s) && forall i :: 0 <= i < |word| ==> !IsSpace(word[i])
    ensures Join(WordsFrom(word, s)) == word + s
    ensures word + s != "" ==> WordsFrom(word, s) != []
    decreases s
  {
    hide IsSpace, Tidied;
    if s == "" {
      assert word + s == word;
    } else if IsSpace(s[0]) {
      TailIsTidied(word, s);
      assert "" + s[1..] == s[1..];
      TidiedReadsBack("", s[1..]);
      FirstWord(word, s);
    } else {
      assert word + s == (word + [s[0]]) + s[1..];
      TidiedReadsBack(word + [s[0]], s[1..]);
    }
  }

  lemma FirstWord(word: string, s: string)
    requires s != "" && IsSpace(s[0]) && s[0] == ' ' && word != ""
    requires WordsFrom("", s[1..]) != [] && Join(WordsFrom("", s[1..])) == s[1..]
    ensures Join(WordsFrom(word, s)) == word + s && WordsFrom(word, s) != []
  {
    hide Join;
    assert WordsFrom(word, s) == [word] + WordsFrom("", s[1..]);
    JoinFront(word, WordsFrom("", s[1..]));
    BlankBetween(word, s);
  }

  lemma BlankBetween(word: string, s: string)
    requires s != "" && s[0] == ' '
    ensures word + " " + s[1..] == word + s
  {
  }

  lemma TailIsTidied(word: string, s: string)
    requires Tidied(word + s) && s != "" && IsSpace(s[0])
    ensures s[0] == ' ' && word != "" && s[1..] != "" && Tidied(s[1..])
  {
    hide IsSpace;
    var m := word + s;
    assert m[|word|] == s[0];
    assert |s| > 1 && m[|word| + 1] == s[1] == s[1..][0];
    forall i | 0 <= i < |s[1..]| && IsSpace(s[1..][i])
      ensures s[1..][i] == ' ' && 0 < i < |s[1..]| - 1 && !IsSpace(s[1..][i + 1])
    {
      assert s[1..][i] == m[|word| + 1 + i];
      assert |word| + 1 + i < |m| - 1;
      assert s[1..][i + 1] == m[|word| + 1 + i + 1];
    }
  }

  /** Tidied messages are those that normalizing leaves alone. */
  lemma TidiedExactly(message: string)
    ensures Tidied(message) <==> Join(Words(message)) == message
  {
    if Tidied(message) {
      assert "" + message == message;
      TidiedReadsBack("", message);
    }
    WordsAreWords("", message);
    JoinedIsTidied(Words(message));
  }

  // ---- Diagnostics ----

  /** The diagnostic is one of those a record describes: in its file, of its severity and rule (none
      for an empty one), with its words. */
  predicate Shows(relative: string -> Option<string>, d: Diagnostic, key: Key) {
    && relative(d.file) == Some(key.file) && d.severity == key.severity
    && (d.rule == Some(key.rule) || (d.rule.None? && key.rule == ""))
    && Words(d.message) == Words(key.message)
  }

  lemma ShowsExactly(relative: string -> Option<string>, d: Diagnostic, key: Key)
    requires relative(d.file).Some?
    ensures Normal(d, relative(d.file).value) == key <==> Tidied(key.message) && Shows(relative, d, key)
  {
    hide Words, Join, Tidied;
    MessageWordsKept(d.message);
    TidiedExactly(key.message);
  }

  /** How many of the first `n` diagnostics a record describes. */
  function CountShown(relative: string -> Option<string>, ds: seq<Diagnostic>, n: nat, key: Key): nat
    requires n <= |ds|
  {
    if n == 0 then 0
    else CountShown(relative, ds, n - 1, key) + if Shows(relative, ds[n - 1], key) then 1 else 0
  }

  lemma {:induction false} OccurrencesShown(
    relative: string -> Option<string>, ds: seq<Diagnostic>, n: nat, key: Key)
    requires n <= |ds| && InRoot(relative, ds)
    ensures Occurrences(relative, ds, n)[key] == if Tidied(key.message) then CountShown(relative, ds, n, key) else 0
    decreases n
  {
    if n > 0 {
      hide Normal, Shows, Tidied;
      OccurrencesShown(relative, ds, n - 1, key);
      ShowsExactly(relative, ds[n - 1], key);
    }
  }

  lemma {:induction false} CountIsPositive(
    relative: string -> Option<string>, ds: seq<Diagnostic>, n: nat, key: Key)
    requires n <= |ds|
    ensures CountShown(relative, ds, n, key) > 0 <==> exists j :: 0 <= j < n && Shows(relative, ds[j], key)
    decreases n
  {
    if n > 0 {
      hide Shows;
      CountIsPositive(relative, ds, n - 1, key);
    }
  }

  // ---- What passes ----

  /** The diagnostic is shown as often as it was reviewed and not removed; a message that is not tidied
      is never shown. */
  ghost predicate Met(
    digest: Key -> string, relative: string -> Option<string>, ds: seq<Diagnostic>, b: Baseline, key: Key)
    requires WellFormed(digest, b)
  {
    ReviewedCount(b.diagnostics, |b.diagnostics|, key) ==
    Removed(digest, b, |b.removals|, key) + if Tidied(key.message) then CountShown(relative, ds, |ds|, key) else 0
  }

  /** A report passes exactly if it shows each diagnostic that often. */
  lemma PassesExactly(digest: Key -> string, relative: string -> Option<string>, report: Report, b: Baseline)
    requires WellFormed(digest, b) && InRoot(relative, report.diagnostics)
    ensures Passes(digest, relative, report, b) <==>
            forall key: Key :: Met(digest, relative, report.diagnostics, b, key)
  {
    hide Tidied, InRoot, Shows;
    var ds := report.diagnostics;
    var found := Occurrences(relative, ds, |ds|);
    forall key: Key
      ensures Met(digest, relative, ds, b, key) <==>
              found[key] + Removed(digest, b, |b.removals|, key) == ReviewedCount(b.diagnostics, |b.diagnostics|, key)
    {
      OccurrencesShown(relative, ds, |ds|, key);
    }
  }

  /** The diagnostic is one of a record. */
  ghost predicate Described(relative: string -> Option<string>, d: Diagnostic, reviewed: seq<Reviewed>) {
    exists i :: 0 <= i < |reviewed| && Shows(relative, d, reviewed[i].key)
  }

  /** Each record is shown as often as it says, and every diagnostic is one of a record. */
  ghost predicate Lists(relative: string -> Option<string>, ds: seq<Diagnostic>, reviewed: seq<Reviewed>) {
    && (forall i :: 0 <= i < |reviewed| ==>
          reviewed[i].count == Whole(CountShown(relative, ds, |ds|, reviewed[i].key)))
    && (forall j :: 0 <= j < |ds| ==> Described(relative, ds[j], reviewed))
  }

  /** Without removals, and with tidied messages: the gate passes exactly the reports that list the
      reviewed diagnostics, each as often as recorded. */
  lemma ListedExactly(digest: Key -> string, relative: string -> Option<string>, report: Report, b: Baseline)
    requires WellFormed(digest, b) && InRoot(relative, report.diagnostics) && b.removals == []
    requires forall i :: 0 <= i < |b.diagnostics| ==> Tidied(b.diagnostics[i].key.message)
    ensures Passes(digest, relative, report, b) <==> Lists(relative, report.diagnostics, b.diagnostics)
  {
    hide Tidied, Shows, Normal, Passes, CountShown, WellFormed, Met, InRoot;
    var ds, rs := report.diagnostics, b.diagnostics;
    PassesExactly(digest, relative, report, b);
    if Passes(digest, relative, report, b) {
      forall i | 0 <= i < |rs| ensures rs[i].count == Whole(CountShown(relative, ds, |ds|, rs[i].key)) {
        assert Met(digest, relative, ds, b, rs[i].key);
        ShownAsRecorded(digest, relative, ds, b, i);
      }
      forall j | 0 <= j < |ds| ensures Described(relative, ds[j], rs) {
        var i := ListedBy(digest, relative, report, b, j);
        assert Shows(relative, ds[j], rs[i].key);
      }
      assert Lists(relative, ds, rs);
    }
    if Lists(relative, ds, rs) {
      forall key: Key ensures Met(digest, relative, ds, b, key) {
        ListedIsMet(digest, relative, ds, b, key);
      }
      assert Passes(digest, relative, report, b);
    }
  }

  lemma ShownAsRecorded(
    digest: Key -> string, relative: string -> Option<string>, ds: seq<Diagnostic>, b: Baseline, i: nat)
    requires WellFormed(digest, b) && b.removals == [] && i < |b.diagnostics| && Tidied(b.diagnostics[i].key.message)
    requires Met(digest, relative, ds, b, b.diagnostics[i].key)
    ensures b.diagnostics[i].count == Whole(CountShown(relative, ds, |ds|, b.diagnostics[i].key))
  {
    hide Tidied, CountShown;
    CountOfRecord(b.diagnostics, |b.diagnostics|, i);
    assert CountOk(b.diagnostics[i].count);
  }

  lemma ListedIsMet(
    digest: Key -> string, relative: string -> Option<string>, ds: seq<Diagnostic>, b: Baseline, key: Key)
    requires WellFormed(digest, b) && b.removals == [] && InRoot(relative, ds)
    requires forall i :: 0 <= i < |b.diagnostics| ==> Tidied(b.diagnostics[i].key.message)
    requires Lists(relative, ds, b.diagnostics)
    ensures Met(digest, relative, ds, b, key)
  {
    hide Tidied, CountShown, Shows, InRoot;
    var rs := b.diagnostics;
    CountedIfRecorded(rs, |rs|, key);
    if i :| 0 <= i < |rs| && rs[i].key == key {
      CountOfRecord(rs, |rs|, i);
    } else if Tidied(key.message) {
      NotListed(relative, ds, rs, key);
    }
  }

  lemma ListedBy(digest: Key -> string, relative: string -> Option<string>, report: Report, b: Baseline, j: nat)
    returns (i: nat)
    requires WellFormed(digest, b) && InRoot(relative, report.diagnostics) && b.removals == []
    requires Passes(digest, relative, report, b) && j < |report.diagnostics|
    ensures i < |b.diagnostics| && Shows(relative, report.diagnostics[j], b.diagnostics[i].key)
  {
    var ds, rs := report.diagnostics, b.diagnostics;
    var key := Normal(ds[j], relative(ds[j].file).value);
    PassesExactly(digest, relative, report, b);
    hide Tidied, Shows, Normal, Passes, CountShown;
    ShowsExactly(relative, ds[j], key);
    CountIsPositive(relative, ds, |ds|, key);
    assert Met(digest, relative, ds, b, key);
    CountedIfRecorded(rs, |rs|, key);
    var k :| 0 <= k < |rs| && rs[k].key == key;
    i := k;
  }

  lemma NotListed(relative: string -> Option<string>, ds: seq<Diagnostic>, rs: seq<Reviewed>, key: Key)
    requires InRoot(relative, ds) && Tidied(key.message)
    requires forall i :: 0 <= i < |rs| ==> Tidied(rs[i].key.message) && rs[i].key != key
    requires forall j :: 0 <= j < |ds| ==> Described(relative, ds[j], rs)
    ensures CountShown(relative, ds, |ds|, key) == 0
  {
    hide Tidied, Shows, Normal;
    CountIsPositive(relative, ds, |ds|, key);
    forall j | 0 <= j < |ds| ensures !Shows(relative, ds[j], key) {
      var i :| 0 <= i < |rs| && Shows(relative, ds[j], rs[i].key);
      ShowsExactly(relative, ds[j], key);
      ShowsExactly(relative, ds[j], rs[i].key);
    }
  }

  // ---- What makes a difference ----

  /** The diagnostics have the same relative path, severity, rule and words. */
  predicate Alike(relative: string -> Option<string>, d: Diagnostic, e: Diagnostic) {
    && relative(d.file) == relative(e.file) && d.severity == e.severity
    && (d.rule == e.rule || {d.rule, e.rule} == {None, Some("")})
    && Words(d.message) == Words(e.message)
  }

  lemma AlikeExactly(relative: string -> Option<string>, d: Diagnostic, e: Diagnostic)
    requires relative(d.file).Some? && relative(e.file).Some?
    ensures Normal(d, relative(d.file).value) == Normal(e, relative(e.file).value) <==> Alike(relative, d, e)
  {
    hide Words, Join;
    MessageWordsKept(d.message);
    MessageWordsKept(e.message);
    assert d.rule != e.rule ==>
      ({d.rule, e.rule} == {None, Some("")} <==>
         (d.rule.None? && e.rule == Some("")) || (e.rule.None? && d.rule == Some("")));
  }

  /** Changing one diagnostic of a passing report makes the gate fail, unless only white space in its
      message changes, or a missing rule becomes an empty one. */
  lemma OneChange(
    digest: Key -> string, relative: string -> Option<string>, report: Report, b: Baseline, j: nat, e: Diagnostic)
    requires WellFormed(digest, b) && InRoot(relative, report.diagnostics) && Passes(digest, relative, report, b)
    requires j < |report.diagnostics| && relative(e.file).Some?
    ensures var changed := Report(report.version, report.diagnostics[j := e]);
      && InRoot(relative, changed.diagnostics)
      && (Passes(digest, relative, changed, b) <==> Alike(relative, report.diagnostics[j], e))
  {
    var ds := report.diagnostics;
    var es := ds[j := e];
    hide Normal, Alike, WellFormed, Expects;
    assert InRoot(relative, es);
    AlikeExactly(relative, ds[j], e);
    TakeOut(relative, ds, j);
    TakeOut(relative, es, j);
    assert Without(es, j) == Without(ds, j);
    ExpectedIsUnique(digest, b, Occurrences(relative, ds, |ds|));
    ReplacedOne(Occurrences(relative, Without(ds, j), |Without(ds, j)|),
                Normal(ds[j], relative(ds[j].file).value), Normal(e, relative(e.file).value));
  }

  lemma ReplacedOne(m: multiset<Key>, a: Key, b: Key)
    ensures m + multiset{a} == m + multiset{b} <==> a == b
  {
    if a != b {
      assert (m + multiset{a})[a] == m[a] + 1 && (m + multiset{b})[a] == m[a];
    }
  }
}
