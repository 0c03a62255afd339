/** The typing gate (crates/itofin-py/scripts/check_typing.py): a Pyright report passes when its
    diagnostics are, as a multiset, the reviewed baseline minus the accepted removals.

    A digest is any function of a diagnostic; collisions are not excluded. `relative` gives a
    file's path below the repository root, if it lies there. */
module TypingGate {
  import opened Wrappers
  import opened Text

  // ---- Reports and baselines ----

  datatype Key = Key(file: string, severity: string, rule: string, message: string)

  datatype Diagnostic = Diagnostic(file: string, severity: string, rule: Option<string>, message: string)

  /** A JSON value where the code asks for `int`; booleans and floats are not. */
  datatype Count = Whole(value: int) | NotWhole

  datatype Reviewed = Reviewed(key: Key, count: Count)

  datatype Removal = Removal(
    id: string, classification: string, reason: string, evidence: string, followUp: string, count: Count)

  datatype Report = Report(version: string, diagnostics: seq<Diagnostic>)

  datatype Baseline = Baseline(version: string, diagnostics: seq<Reviewed>, removals: seq<Removal>)

  datatype Comparison = Failed | Compared(added: multiset<Key>, missing: multiset<Key>)

  // ---- Normal form of a report ----

  function Join(words: seq<string>): string {
    if words == [] then ""
    else if |words| == 1 then words[0]
    else Join(words[..|words| - 1]) + " " + words[|words| - 1]
  }

  function Normal(d: Diagnostic, path: string): Key {
    Key(path, d.severity, if d.rule.Some? then d.rule.value else "", Join(Words(d.message)))
  }

  predicate InRoot(relative: string -> Option<string>, ds: seq<Diagnostic>) {
    forall i :: 0 <= i < |ds| ==> relative(ds[i].file).Some?
  }

  /** The normal forms of the first `n` diagnostics, with their numbers of occurrences. */
  function Occurrences(relative: string -> Option<string>, ds: seq<Diagnostic>, n: nat): multiset<Key>
    requires n <= |ds| && InRoot(relative, ds)
  {
    if n == 0 then multiset{}
    else Occurrences(relative, ds, n - 1) + multiset{Normal(ds[n - 1], relative(ds[n - 1].file).value)}
  }

  method Normalize(relative: string -> Option<string>, ds: seq<Diagnostic>) returns (r: Option<multiset<Key>>)
    ensures r.Some? <==> InRoot(relative, ds)
    ensures r.Some? ==> r.value == Occurrences(relative, ds, |ds|)
  {
    var counter := multiset{};
    for i := 0 to |ds|
      invariant forall j :: 0 <= j < i ==> relative(ds[j].file).Some?
      invariant InRoot(relative, ds) ==> counter == Occurrences(relative, ds, i)
    {
      var path := relative(ds[i].file);
      if path.None? {
        return None;
      }
      var key := Normal(ds[i], path.value);
      counter := counter[key := counter[key] + 1];
    }
    r := Some(counter);
  }

  // ---- The reviewed multiset ----

  predicate CountOk(c: Count) { c.Whole? && c.value >= 1 }

  /** The reviewed count of `key` among the first `n` records. */
  function ReviewedCount(ds: seq<Reviewed>, n: nat, key: Key): nat
    requires n <= |ds|
  {
    if n == 0 then 0
    else
      ReviewedCount(ds, n - 1, key) +
      if ds[n - 1].key == key && CountOk(ds[n - 1].count) then ds[n - 1].count.value else 0
  }

  predicate Known(digest: Key -> string, ds: seq<Reviewed>, n: nat, id: string)
    requires n <= |ds|
  {
    exists i :: 0 <= i < n && digest(ds[i].key) == id
  }

  /** The diagnostic an id stands for: the last one with that digest. */
  function Target(digest: Key -> string, ds: seq<Reviewed>, n: nat, id: string): Key
    requires n <= |ds| && Known(digest, ds, n, id)
  {
    if digest(ds[n - 1].key) == id then ds[n - 1].key else Target(digest, ds, n - 1, id)
  }

  predicate DiagnosticsOk(ds: seq<Reviewed>, n: nat)
    requires n <= |ds|
  {
    && (forall i :: 0 <= i < n ==> CountOk(ds[i].count))
    && (forall i, j :: 0 <= i < j < n ==> ds[i].key != ds[j].key)
  }

  /** `s.strip()` is not empty. */
  predicate Says(s: string) {
    exists i :: 0 <= i < |s| && !IsSpace(s[i])
  }

  const ISSUES := "https://github.com/benbenbang/libitofin/issues/"

  /** A number without leading zero below ISSUES. */
  predicate IsIssue(s: string) {
    && ISSUES < s
    && '1' <= s[|ISSUES|] <= '9'
    && forall i :: |ISSUES| < i < |s| ==> '0' <= s[i] <= '9'
  }

  predicate Explained(r: Removal) {
    && r.classification in ["accuracy-improvement", "accepted-precision-loss"]
    && Says(r.reason) && Says(r.evidence)
    && (r.classification == "accepted-precision-loss" ==> IsIssue(r.followUp))
  }

  /** A removal takes between one and all reviewed occurrences of the diagnostic it names. */
  predicate RemovalOk(digest: Key -> string, ds: seq<Reviewed>, r: Removal) {
    && Known(digest, ds, |ds|, r.id)
    && Explained(r)
    && CountOk(r.count)
    && r.count.value <= ReviewedCount(ds, |ds|, Target(digest, ds, |ds|, r.id))
  }

  predicate RemovalsOk(digest: Key -> string, b: Baseline, n: nat)
    requires n <= |b.removals|
  {
    && (forall i :: 0 <= i < n ==> RemovalOk(digest, b.diagnostics, b.removals[i]))
    && (forall i, j :: 0 <= i < j < n ==> b.removals[i].id != b.removals[j].id)
  }

  predicate WellFormed(digest: Key -> string, b: Baseline) {
    DiagnosticsOk(b.diagnostics, |b.diagnostics|) && RemovalsOk(digest, b, |b.removals|)
  }

  /** What the first `n` removals take from `key`. */
  function Removed(digest: Key -> string, b: Baseline, n: nat, key: Key): nat
    requires n <= |b.removals| && RemovalsOk(digest, b, n)
  {
    if n == 0 then 0
    else
      var r := b.removals[n - 1];
      assert RemovalOk(digest, b.diagnostics, r);
      Removed(digest, b, n - 1, key) +
      if Target(digest, b.diagnostics, |b.diagnostics|, r.id) == key then r.count.value else 0
  }

  /** `e` is the multiset a well-formed baseline asks for. */
  ghost predicate Expects(digest: Key -> string, b: Baseline, e: multiset<Key>)
    requires WellFormed(digest, b)
  {
    forall key :: e[key] + Removed(digest, b, |b.removals|, key) == ReviewedCount(b.diagnostics, |b.diagnostics|, key)
  }

  lemma {:induction false} TargetHasId(digest: Key -> string, ds: seq<Reviewed>, n: nat, id: string)
    requires n <= |ds| && Known(digest, ds, n, id)
    ensures digest(Target(digest, ds, n, id)) == id
    decreases n
  {
    if digest(ds[n - 1].key) != id {
      TargetHasId(digest, ds, n - 1, id);
    }
  }

  /** A diagnostic that none of the first `n` removals names has lost nothing to them. */
  lemma {:induction false} UnnamedKeepsAll(digest: Key -> string, b: Baseline, n: nat, id: string, key: Key)
    requires n <= |b.removals| && RemovalsOk(digest, b, n) && digest(key) == id
    requires forall i :: 0 <= i < n ==> b.removals[i].id != id
    ensures Removed(digest, b, n, key) == 0
    decreases n
  {
    if n > 0 {
      assert RemovalOk(digest, b.diagnostics, b.removals[n - 1]);
      TargetHasId(digest, b.diagnostics, |b.diagnostics|, b.removals[n - 1].id);
      UnnamedKeepsAll(digest, b, n - 1, id, key);
    }
  }

  ghost predicate Counts(ds: seq<Reviewed>, n: nat, expected: multiset<Key>)
    requires n <= |ds|
  {
    forall key :: expected[key] == ReviewedCount(ds, n, key)
  }

  ghost predicate Identifies(digest: Key -> string, ds: seq<Reviewed>, n: nat, identifiers: map<string, Key>)
    requires n <= |ds|
  {
    && (forall id :: id in identifiers <==> Known(digest, ds, n, id))
    && (forall id :: id in identifiers ==> identifiers[id] == Target(digest, ds, n, id))
  }

  /** Among well-formed records a diagnostic has a count exactly if it is recorded. */
  lemma {:induction false} CountedIfRecorded(ds: seq<Reviewed>, n: nat, key: Key)
    requires n <= |ds| && DiagnosticsOk(ds, n)
    ensures ReviewedCount(ds, n, key) > 0 <==> exists i :: 0 <= i < n && ds[i].key == key
    decreases n
  {
    if n > 0 {
      CountedIfRecorded(ds, n - 1, key);
      if i :| 0 <= i < n && ds[i].key == key {
        assert i == n - 1 || i < n - 1;
      }
    }
  }

  lemma CountsNext(ds: seq<Reviewed>, n: nat, expected: multiset<Key>)
    requires n < |ds| && Counts(ds, n, expected)
    requires ds[n].key !in expected && CountOk(ds[n].count)
    ensures Counts(ds, n + 1, expected[ds[n].key := ds[n].count.value])
  {
  }

  lemma IdentifiesNext(digest: Key -> string, ds: seq<Reviewed>, n: nat, identifiers: map<string, Key>)
    requires n < |ds| && Identifies(digest, ds, n, identifiers)
    ensures Identifies(digest, ds, n + 1, identifiers[digest(ds[n].key) := ds[n].key])
  {
    forall id ensures Known(digest, ds, n + 1, id) <==> Known(digest, ds, n, id) || digest(ds[n].key) == id {
      if digest(ds[n].key) == id {
        assert 0 <= n < n + 1;
      }
    }
  }

  /** The first loop of expected_diagnostics. */
  method ReadDiagnostics(digest: Key -> string, ds: seq<Reviewed>)
    returns (ok: bool, expected: multiset<Key>, identifiers: map<string, Key>)
    ensures ok == DiagnosticsOk(ds, |ds|)
    ensures ok ==> Counts(ds, |ds|, expected) && Identifies(digest, ds, |ds|, identifiers)
  {
    expected, identifiers := multiset{}, map[];
    for n := 0 to |ds|
      invariant DiagnosticsOk(ds, n)
      invariant Counts(ds, n, expected) && Identifies(digest, ds, n, identifiers)
    {
      var key := ds[n].key;
      CountedIfRecorded(ds, n, key);
      if key in expected || !CountOk(ds[n].count) {
        assert !DiagnosticsOk(ds, |ds|);
        return false, expected, identifiers;
      }
      CountsNext(ds, n, expected);
      IdentifiesNext(digest, ds, n, identifiers);
      expected := expected[key := ds[n].count.value];
      identifiers := identifiers[digest(key) := key];
    }
    ok := true;
  }

  method Stripped(s: string) returns (says: bool)
    ensures says == Says(s)
  {
    for i := 0 to |s|
      invariant forall j :: 0 <= j < i ==> IsSpace(s[j])
    {
      if !IsSpace(s[i]) {
        return true;
      }
    }
    says := false;
  }

  /** The checks of one removal that look at the removal alone. */
  method CheckExplained(r: Removal) returns (ok: bool)
    ensures ok == Explained(r)
  {
    if r.classification !in ["accuracy-improvement", "accepted-precision-loss"] {
      return false;
    }
    var reason := Stripped(r.reason);
    var evidence := Stripped(r.evidence);
    if !reason || !evidence {
      return false;
    }
    ok := !(r.classification == "accepted-precision-loss" && !IsIssue(r.followUp));
  }

  /** `expected` is what the first `n` removals leave. */
  ghost predicate Left(digest: Key -> string, b: Baseline, n: nat, expected: multiset<Key>)
    requires n <= |b.removals| && RemovalsOk(digest, b, n)
  {
    forall key ::
      expected[key] + Removed(digest, b, n, key) == ReviewedCount(b.diagnostics, |b.diagnostics|, key)
  }

  /** expected[key] is still the whole reviewed count when the one removal that names it comes. */
  lemma WholeCountLeft(digest: Key -> string, b: Baseline, n: nat, expected: multiset<Key>, id: string)
    requires n <= |b.removals| && RemovalsOk(digest, b, n) && Left(digest, b, n, expected)
    requires Known(digest, b.diagnostics, |b.diagnostics|, id)
    requires forall i :: 0 <= i < n ==> b.removals[i].id != id
    ensures var key := Target(digest, b.diagnostics, |b.diagnostics|, id);
            expected[key] == ReviewedCount(b.diagnostics, |b.diagnostics|, key)
  {
    var key := Target(digest, b.diagnostics, |b.diagnostics|, id);
    TargetHasId(digest, b.diagnostics, |b.diagnostics|, id);
    UnnamedKeepsAll(digest, b, n, id, key);
  }

  /** One pass of the second loop; `false` where the code raises. */
  method AcceptRemoval(
      digest: Key -> string, ghost b: Baseline, ghost n: nat, r: Removal, expected: multiset<Key>,
      identifiers: map<string, Key>)
    returns (ok: bool, left: multiset<Key>)
    requires n < |b.removals| && RemovalsOk(digest, b, n) && Left(digest, b, n, expected)
    requires Identifies(digest, b.diagnostics, |b.diagnostics|, identifiers)
    requires r == b.removals[n] && forall i :: 0 <= i < n ==> b.removals[i].id != r.id
    ensures ok == RemovalOk(digest, b.diagnostics, r)
    ensures ok ==> RemovalsOk(digest, b, n + 1) && Left(digest, b, n + 1, left)
  {
    left := expected;
    if r.id !in identifiers {
      return false, left;
    }
    WholeCountLeft(digest, b, n, expected, r.id);
    var explained := CheckExplained(r);
    var key := identifiers[r.id];
    if !explained || !CountOk(r.count) || r.count.value > expected[key] {
      return false, left;
    }
    ok, left := true, expected[key := expected[key] - r.count.value];
  }

  /** expected_diagnostics; None where the code raises. */
  method ExpectedDiagnostics(digest: Key -> string, b: Baseline) returns (e: Option<multiset<Key>>)
    ensures e.Some? <==> WellFormed(digest, b)
    ensures e.Some? ==> Expects(digest, b, e.value)
  {
    var ok, expected, identifiers := ReadDiagnostics(digest, b.diagnostics);
    if !ok {
      return None;
    }
    var seen: set<string> := {};
    for n := 0 to |b.removals|
      invariant RemovalsOk(digest, b, n) && Left(digest, b, n, expected)
      invariant forall id :: id in seen <==> exists i :: 0 <= i < n && b.removals[i].id == id
    {
      var r := b.removals[n];
      if r.id in seen {
        return None;
      }
      ok, expected := AcceptRemoval(digest, b, n, r, expected, identifiers);
      if !ok {
        return None;
      }
      seen := seen + {r.id};
    }
    e := Some(expected);
  }

  // ---- The gate ----

  /** compare; Failed where the code raises. */
  method Compare(digest: Key -> string, relative: string -> Option<string>, report: Report, b: Baseline)
    returns (c: Comparison)
    ensures c.Compared? <==>
            report.version == b.version && WellFormed(digest, b) && InRoot(relative, report.diagnostics)
    ensures c.Compared? ==>
              exists e :: Expects(digest, b, e)
                && Balance(Occurrences(relative, report.diagnostics, |report.diagnostics|), e, c.added, c.missing)
  {
    if report.version != b.version {
      return Failed;
    }
    var e := ExpectedDiagnostics(digest, b);
    if e.None? {
      return Failed;
    }
    var actual := Normalize(relative, report.diagnostics);
    if actual.None? {
      return Failed;
    }
    var added, missing := actual.value - e.value, e.value - actual.value;
    Differences(actual.value, e.value);
    assert Expects(digest, b, e.value);
    c := Compared(added, missing);
  }

  /** `added` and `missing` are what separates the two multisets, with nothing in both. */
  ghost predicate Balance(
    actual: multiset<Key>, expected: multiset<Key>, added: multiset<Key>, missing: multiset<Key>)
  {
    actual + missing == expected + added && added !! missing
  }

  lemma Differences(actual: multiset<Key>, expected: multiset<Key>)
    ensures Balance(actual, expected, actual - expected, expected - actual)
  {
    assert (actual - expected) * (expected - actual) == multiset{};
    forall k ensures (actual + (expected - actual))[k] == (expected + (actual - expected))[k] {
    }
    assert actual + (expected - actual) == expected + (actual - expected);
  }

  /** main's exit code. */
  method Gate(digest: Key -> string, relative: string -> Option<string>, report: Report, b: Baseline)
    returns (exit: int)
    ensures exit == 2 <==>
            !(report.version == b.version && WellFormed(digest, b) && InRoot(relative, report.diagnostics))
    ensures exit == 0 <==> exit != 2 && Passes(digest, relative, report, b)
    ensures exit in {0, 1, 2}
  {
    var c := Compare(digest, relative, report, b);
    if c.Failed? {
      return 2;
    }
    ghost var actual := Occurrences(relative, report.diagnostics, |report.diagnostics|);
    ghost var e :| Expects(digest, b, e) && Balance(actual, e, c.added, c.missing);
    ExpectedIsUnique(digest, b, e);
    BalanceDetects(actual, e, c.added, c.missing);
    exit := if c.added != multiset{} || c.missing != multiset{} then 1 else 0;
  }

  /** Every diagnostic occurs as often as it was reviewed and not removed. */
  ghost predicate Passes(digest: Key -> string, relative: string -> Option<string>, report: Report, b: Baseline)
    requires WellFormed(digest, b) && InRoot(relative, report.diagnostics)
  {
    Expects(digest, b, Occurrences(relative, report.diagnostics, |report.diagnostics|))
  }

  lemma ExpectedIsUnique(digest: Key -> string, b: Baseline, e: multiset<Key>)
    requires WellFormed(digest, b) && Expects(digest, b, e)
    ensures forall f :: Expects(digest, b, f) ==> f == e
  {
    forall f | Expects(digest, b, f) ensures f == e {
      forall key ensures f[key] == e[key] {
        assert e[key] + Removed(digest, b, |b.removals|, key) == f[key] + Removed(digest, b, |b.removals|, key);
      }
    }
  }

  lemma BalanceDetects(actual: multiset<Key>, expected: multiset<Key>, added: multiset<Key>, missing: multiset<Key>)
    requires Balance(actual, expected, added, missing)
    ensures actual == expected <==> added == multiset{} && missing == multiset{}
  {
    forall k ensures actual[k] + missing[k] == expected[k] + added[k] && (added[k] == 0 || missing[k] == 0) {
      assert (actual + missing)[k] == (expected + added)[k];
      assert (added * missing)[k] == 0;
    }
    if actual == expected {
      forall k ensures added[k] == 0 && missing[k] == 0 {
        assert actual[k] + missing[k] == expected[k] + added[k];
      }
      assert added == multiset{} && missing == multiset{};
    }
    if added == multiset{} && missing == multiset{} {
      forall k ensures actual[k] == expected[k] {
        assert actual[k] + missing[k] == expected[k] + added[k];
      }
    }
  }

  // ---- What is expected, and of whom ----

  predicate DistinctIds(digest: Key -> string, ds: seq<Reviewed>) {
    forall i, j :: 0 <= i < j < |ds| ==> digest(ds[i].key) != digest(ds[j].key)
  }

  lemma {:induction false} TargetIsRecorded(digest: Key -> string, ds: seq<Reviewed>, n: nat, id: string)
    requires n <= |ds| && Known(digest, ds, n, id)
    ensures exists i :: 0 <= i < n && ds[i].key == Target(digest, ds, n, id)
    decreases n
  {
    if digest(ds[n - 1].key) != id {
      TargetIsRecorded(digest, ds, n - 1, id);
    }
  }

  /** The one removal that names a diagnostic takes exactly its own count. */
  lemma {:induction false} TakenByOne(digest: Key -> string, b: Baseline, n: nat, j: nat, key: Key)
    requires j < n <= |b.removals| && RemovalsOk(digest, b, n)
    requires digest(key) == b.removals[j].id && RemovalOk(digest, b.diagnostics, b.removals[j])
    requires key == Target(digest, b.diagnostics, |b.diagnostics|, b.removals[j].id)
    ensures Removed(digest, b, n, key) == b.removals[j].count.value
    decreases n
  {
    var r := b.removals[n - 1];
    assert RemovalOk(digest, b.diagnostics, r);
    if j == n - 1 {
      UnnamedKeepsAll(digest, b, n - 1, r.id, key);
    } else {
      TargetHasId(digest, b.diagnostics, |b.diagnostics|, r.id);
      TakenByOne(digest, b, n - 1, j, key);
    }
  }

  lemma {:induction false} CountOfRecord(ds: seq<Reviewed>, n: nat, i: nat)
    requires i < n <= |ds| && DiagnosticsOk(ds, n)
    ensures ReviewedCount(ds, n, ds[i].key) == ds[i].count.value
    decreases n
  {
    if i == n - 1 {
      CountedIfRecorded(ds, n - 1, ds[i].key);
    } else {
      CountOfRecord(ds, n - 1, i);
    }
  }

  /** Removal `j` names record `i`. */
  predicate Names(digest: Key -> string, b: Baseline, j: nat, i: nat)
    requires i < |b.diagnostics| && j < |b.removals|
  {
    b.removals[j].id == digest(b.diagnostics[i].key)
  }

  lemma ExpectedWhenNamed(digest: Key -> string, b: Baseline, e: multiset<Key>, i: nat, j: nat)
    requires WellFormed(digest, b) && DistinctIds(digest, b.diagnostics) && Expects(digest, b, e)
    requires i < |b.diagnostics| && j < |b.removals| && Names(digest, b, j, i)
    ensures e[b.diagnostics[i].key] == b.diagnostics[i].count.value - b.removals[j].count.value
  {
    var ds, id := b.diagnostics, b.removals[j].id;
    assert RemovalOk(digest, ds, b.removals[j]);
    TargetHasId(digest, ds, |ds|, id);
    TargetIsRecorded(digest, ds, |ds|, id);
    TakenByOne(digest, b, |b.removals|, j, ds[i].key);
    CountOfRecord(ds, |ds|, i);
  }

  /** With distinct ids: a reviewed diagnostic is expected as often as recorded, less what the
      removal with its id takes if there is one; nothing else is expected. */
  lemma ExpectedOccurrences(digest: Key -> string, b: Baseline, e: multiset<Key>)
    requires WellFormed(digest, b) && DistinctIds(digest, b.diagnostics) && Expects(digest, b, e)
    ensures forall i, j :: 0 <= i < |b.diagnostics| && 0 <= j < |b.removals| && Names(digest, b, j, i) ==>
              e[b.diagnostics[i].key] == b.diagnostics[i].count.value - b.removals[j].count.value
    ensures forall i :: 0 <= i < |b.diagnostics| && (forall j :: 0 <= j < |b.removals| ==> !Names(digest, b, j, i)) ==>
              e[b.diagnostics[i].key] == b.diagnostics[i].count.value
    ensures forall key :: key in e ==> exists i :: 0 <= i < |b.diagnostics| && b.diagnostics[i].key == key
  {
    var ds, n := b.diagnostics, |b.removals|;
    forall i, j | 0 <= i < |ds| && 0 <= j < n && Names(digest, b, j, i)
      ensures e[ds[i].key] == ds[i].count.value - b.removals[j].count.value
    {
      ExpectedWhenNamed(digest, b, e, i, j);
    }
    forall i | 0 <= i < |ds| && forall j :: 0 <= j < n ==> !Names(digest, b, j, i)
      ensures e[ds[i].key] == ds[i].count.value
    {
      forall j | 0 <= j < n ensures b.removals[j].id != digest(ds[i].key) {
        assert !Names(digest, b, j, i);
      }
      UnnamedKeepsAll(digest, b, n, digest(ds[i].key), ds[i].key);
      CountOfRecord(ds, |ds|, i);
    }
    forall key | key in e ensures exists i :: 0 <= i < |ds| && ds[i].key == key {
      CountedIfRecorded(ds, |ds|, key);
    }
  }

  // ---- The order of a report ----

  lemma {:induction false} OccurrencesPrefix(
      relative: string -> Option<string>, ds: seq<Diagnostic>, es: seq<Diagnostic>, n: nat)
    requires n <= |ds| && n <= |es| && ds[..n] == es[..n] && InRoot(relative, ds) && InRoot(relative, es)
    ensures Occurrences(relative, ds, n) == Occurrences(relative, es, n)
    decreases n
  {
    if n > 0 {
      assert ds[..n][n - 1] == es[..n][n - 1];
      assert ds[..n - 1] == ds[..n][..n - 1] == es[..n - 1];
      OccurrencesPrefix(relative, ds, es, n - 1);
    }
  }

  function Without(ds: seq<Diagnostic>, i: nat): seq<Diagnostic>
    requires i < |ds|
  {
    ds[..i] + ds[i + 1..]
  }

  lemma OneMore(relative: string -> Option<string>, ds: seq<Diagnostic>, n: nat)
    requires n < |ds| && InRoot(relative, ds)
    ensures Occurrences(relative, ds, n + 1) ==
            Occurrences(relative, ds, n) + multiset{Normal(ds[n], relative(ds[n].file).value)}
  {
  }

  lemma {:induction false} TakeOut(relative: string -> Option<string>, ds: seq<Diagnostic>, i: nat)
    requires i < |ds| && InRoot(relative, ds)
    ensures InRoot(relative, Without(ds, i))
    ensures Occurrences(relative, ds, |ds|) ==
            Occurrences(relative, Without(ds, i), |Without(ds, i)|) +
            multiset{Normal(ds[i], relative(ds[i].file).value)}
    decreases |ds|
  {
    hide Occurrences, Normal;
    var last, rest := |ds| - 1, Without(ds, i);
    OneMore(relative, ds, last);
    OccurrencesPrefix(relative, ds, ds[..last], last);
    if i == last {
      assert rest == ds[..last];
    } else {
      var shorter := Without(ds[..last], i);
      TakeOut(relative, ds[..last], i);
      assert rest == shorter + [ds[last]];
      OneMore(relative, rest, last - 1);
      OccurrencesPrefix(relative, rest, shorter, last - 1);
    }
  }

  lemma MultisetWithout(ds: seq<Diagnostic>, i: nat)
    requires i < |ds|
    ensures multiset(Without(ds, i)) == multiset(ds) - multiset{ds[i]}
  {
    assert ds == ds[..i] + [ds[i]] + ds[i + 1..];
  }

  lemma SameRoot(relative: string -> Option<string>, ds: seq<Diagnostic>, es: seq<Diagnostic>)
    requires multiset(ds) == multiset(es) && InRoot(relative, ds)
    ensures InRoot(relative, es)
  {
    forall i | 0 <= i < |es| ensures relative(es[i].file).Some? {
      assert es[i] in multiset(ds);
    }
  }

  lemma {:induction false} SameOccurrences(
      relative: string -> Option<string>, ds: seq<Diagnostic>, es: seq<Diagnostic>)
    requires multiset(ds) == multiset(es) && InRoot(relative, ds) && InRoot(relative, es)
    ensures Occurrences(relative, ds, |ds|) == Occurrences(relative, es, |es|)
    decreases |ds|
  {
    if ds == [] {
      assert |es| == |multiset(es)| == 0;
    } else {
      var last := |ds| - 1;
      assert ds[last] in multiset(es);
      var i :| 0 <= i < |es| && es[i] == ds[last];
      MultisetWithout(ds, last);
      MultisetWithout(es, i);
      TakeOut(relative, ds, last);
      TakeOut(relative, es, i);
      SameOccurrences(relative, Without(ds, last), Without(es, i));
    }
  }

  /** Two reports with the same diagnostics in another order normalize alike: both fail, or both
      give the same multiset. */
  lemma OrderDoesNotMatter(relative: string -> Option<string>, ds: seq<Diagnostic>, es: seq<Diagnostic>)
    requires multiset(ds) == multiset(es)
    ensures InRoot(relative, ds) <==> InRoot(relative, es)
    ensures InRoot(relative, ds) ==> Occurrences(relative, ds, |ds|) == Occurrences(relative, es, |es|)
  {
    if InRoot(relative, ds) {
      SameRoot(relative, ds, es);
      SameOccurrences(relative, ds, es);
    } else if InRoot(relative, es) {
      SameRoot(relative, es, ds);
    }
  }

  // ---- White space in messages ----

  /** Words are kept: a message and its normal form split into the same words. Hence messages
      that differ only in white space have one normal form, which normalizing leaves alone. */
  lemma {:induction false} MessageWordsKept(message: string)
    ensures Words(Join(Words(message))) == Words(message)
  {
    WordsAreWords("", message);
    JoinReadsBack(Words(message));
  }

  lemma {:induction false} WordsAreWords(word: string, s: string)
    requires forall i :: 0 <= i < |word| ==> !IsSpace(word[i])
    ensures forall i :: 0 <= i < |WordsFrom(word, s)| ==> IsWord(WordsFrom(word, s)[i])
    decreases s
  {
    if s != "" {
      if IsSpace(s[0]) {
        WordsAreWords("", s[1..]);
      } else {
        WordsAreWords(word + [s[0]], s[1..]);
      }
    }
  }

  lemma {:induction false} WordsApart(word: string, s: string, last: string)
    requires IsWord(last)
    ensures WordsFrom(word, s + " " + last) == WordsFrom(word, s) + [last]
    decreases s
  {
    if s == "" {
      assert s + " " + last == " " + last && (" " + last)[1..] == last;
      assert last + "" == last && "" + last == last;
      ReadWord("", last, "");
    } else {
      assert (s + " " + last)[1..] == s[1..] + " " + last;
      WordsApart(if IsSpace(s[0]) then "" else word + [s[0]], s[1..], last);
    }
  }

  lemma {:induction false} JoinReadsBack(words: seq<string>)
    requires forall i :: 0 <= i < |words| ==> IsWord(words[i])
    ensures Words(Join(words)) == words
    decreases |words|
  {
    if |words| == 1 {
      ReadWord("", words[0], "");
      assert words[0] + "" == words[0] && "" + words[0] == words[0];
    } else if |words| > 1 {
      var last := |words| - 1;
      JoinReadsBack(words[..last]);
      WordsApart("", Join(words[..last]), words[last]);
      assert words == words[..last] + [words[last]];
    }
  }
}
