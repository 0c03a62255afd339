/** Exactly which texts post_process still changes when it is applied to its own result. */
module StubTextTwice {
  import opened Wrappers
  import opened Text
  import opened StubText
  import opened StubTextTheorems
  import opened StubTextPlaces

  // ---- The condition, on the expanded lines of a text ----

  /** Line `i` begins, and hides a constructor behind trailing blanks: its own, or those that gluing
      the next line to it leaves. */
  predicate Hides(glue: bool, lines: seq<string>, i: int) {
    Begins(glue, lines, i) && Late(Whole(glue, lines, i))
  }

  /** Line `i` begins, and still mentions "enum." once constructors are rewritten. */
  predicate Mentions(glue: bool, lines: seq<string>, i: int) {
    Begins(glue, lines, i) && Contains(Tidy(Whole(glue, lines, i)), QUALIFIER)
  }

  /** Line `i` begins and ends in an import of enum. */
  predicate Imports(glue: bool, lines: seq<string>, i: int) {
    Begins(glue, lines, i) && EndsWith(Tidy(Whole(glue, lines, i)), IMPORT)
  }

  predicate NotBlank(glue: bool, lines: seq<string>, i: int) {
    Begins(glue, lines, i) && Tidy(Whole(glue, lines, i)) != ""
  }

  /** No line hides a constructor; and something mentions enum, or no import of it stands before the
      last line that is not blank. */
  ghost predicate SettledIf(glue: bool, lines: seq<string>) {
    && (forall i :: !Hides(glue, lines, i))
    && (Mentioned(glue, lines) || forall i, j :: i < j && Imports(glue, lines, i) ==> !NotBlank(glue, lines, j))
  }

  ghost predicate Mentioned(glue: bool, lines: seq<string>) {
    exists i :: Mentions(glue, lines, i)
  }

  /** Imports are dropped exactly if the lines as they are do not mention enum. */
  ghost predicate Settled(lines: seq<string>) {
    SettledIf(!UsesEnum(lines), lines)
  }

  // ---- It is the one that matters ----

  lemma BlankMentionsNothing()
    ensures !Contains("", QUALIFIER)
  {
    assert |QUALIFIER| > 0;
  }

  /** Conditions on all remaining lines are conditions on all lines that begin. */
  lemma FinishUses(lines: seq<string>)
    ensures UsesEnum(Finish(lines)) <==> exists p :: 0 <= p < |lines| && Contains(Tidy(lines[p]), QUALIFIER)
  {
    hide Tidy, Contains;
    var out, tidied := Finish(lines), TidyAll(lines);
    if UsesEnum(out) {
      var p :| 0 <= p < |out| && Contains(out[p], QUALIFIER);
      assert out[p] == tidied[p];
    }
    if p :| 0 <= p < |lines| && Contains(Tidy(lines[p]), QUALIFIER) {
      BlankMentionsNothing();
      NotBlankStays(lines, p);
      assert Contains(out[p], QUALIFIER);
    }
  }

  predicate ImportBefore(lines: seq<string>, p: int, q: int) {
    0 <= p < q < |lines| && EndsWith(Tidy(lines[p]), IMPORT) && Tidy(lines[q]) != ""
  }

  lemma FinishImports(lines: seq<string>)
    ensures (exists p :: 0 <= p < |Finish(lines)| && ImportEnds(Finish(lines), p)) <==>
            exists p, q :: ImportBefore(lines, p, q)
  {
    hide Tidy;
    var out, tidied := Finish(lines), TidyAll(lines);
    if p :| 0 <= p < |out| && ImportEnds(out, p) {
      assert out[p] == tidied[p] && out[|out| - 1] == tidied[|out| - 1];
      FinishEnds(lines);
      assert ImportBefore(lines, p, |out| - 1);
    }
    if p, q :| ImportBefore(lines, p, q) {
      NotBlankStays(lines, q);
      assert out[p] == tidied[p];
      assert ImportEnds(out, p);
    }
  }

  lemma SettledMeans(lines: seq<string>)
    ensures Settled(lines) <==> NoLate(DropImport(lines)) && !UnusedImportLeft(Finish(DropImport(lines)))
  {
    hide Late, Tidy, UsesEnum, Merge, Finish, Place, Whole;
    var glue, left := !UsesEnum(lines), DropImport(lines);
    assert left == Dropped(glue, lines);
    FinishUses(left);
    FinishImports(left);
    HidesAlike(glue, lines);
    MentionsAlike(glue, lines);
    ImportsAlike(glue, lines);
  }

  lemma HidesAlike(glue: bool, lines: seq<string>)
    ensures (forall i :: !Hides(glue, lines, i)) <==> NoLate(Dropped(glue, lines))
  {
    hide Late, Merge, Place, Whole;
    var left := Dropped(glue, lines);
    if p :| 0 <= p < |left| && Late(left[p]) {
      var i := DroppedFrom(glue, lines, p);
      assert Hides(glue, lines, i);
    }
    if i :| Hides(glue, lines, i) {
      DroppedAt(glue, lines, i);
      assert Late(left[Place(glue, lines, i)]);
    }
  }

  lemma MentionsAlike(glue: bool, lines: seq<string>)
    ensures var left := Dropped(glue, lines);
      (exists i :: Mentions(glue, lines, i)) <==>
      exists p :: 0 <= p < |left| && Contains(Tidy(left[p]), QUALIFIER)
  {
    hide Tidy, Merge, Place, Whole, Contains;
    var left := Dropped(glue, lines);
    if p :| 0 <= p < |left| && Contains(Tidy(left[p]), QUALIFIER) {
      var i := DroppedFrom(glue, lines, p);
      assert Mentions(glue, lines, i);
    }
    if i :| Mentions(glue, lines, i) {
      DroppedAt(glue, lines, i);
      assert Contains(Tidy(left[Place(glue, lines, i)]), QUALIFIER);
    }
  }

  lemma ImportsAlike(glue: bool, lines: seq<string>)
    ensures (forall i, j :: i < j && Imports(glue, lines, i) ==> !NotBlank(glue, lines, j)) <==>
            !exists p, q :: ImportBefore(Dropped(glue, lines), p, q)
  {
    hide Tidy, Merge, Place, Whole;
    var left := Dropped(glue, lines);
    if p, q :| ImportBefore(left, p, q) {
      var i := DroppedFrom(glue, lines, p);
      var j := DroppedFrom(glue, lines, q);
      if j <= i { PlaceGrows(glue, lines, j, i); }
      assert Imports(glue, lines, i) && NotBlank(glue, lines, j);
    }
    forall i, j | i < j && Imports(glue, lines, i) && NotBlank(glue, lines, j)
      ensures exists p, q :: ImportBefore(left, p, q)
    {
      DroppedAt(glue, lines, i);
      DroppedAt(glue, lines, j);
      PlaceGrows(glue, lines, i, j);
      assert ImportBefore(left, Place(glue, lines, i), Place(glue, lines, j));
    }
  }

  /** post_process applied to its own result changes nothing exactly if the text's lines, with its
      enum classes replaced, are settled. It is assumed that the result, whose enum headers are
      gone, parses to no enum class. */
  lemma PostProcessTwice(parse: string -> Option<seq<EnumClass>>, t: string)
    requires PostProcess(parse, t).Some? && Identifiers(parse(t).value)
    requires parse(PostProcess(parse, t).value) == Some([])
    ensures PostProcess(parse, PostProcess(parse, t).value) == PostProcess(parse, t)
            <==> Settled(Expanded(parse, t).value)
  {
    hide DropImport, Finish, Settled, JoinLines;
    TwiceByLines(parse, t);
    SettledMeans(Expanded(parse, t).value);
  }

  // ---- Clean texts ----

  /** No line has trailing blanks, and every line that ends in an import of enum is just that. */
  predicate Clean(lines: seq<string>) {
    forall i :: 0 <= i < |lines| ==> CleanLine(lines[i])
  }

  predicate CleanLine(line: string) {
    (line == "" || !IsSpace(line[|line| - 1])) && (EndsWith(line, IMPORT) ==> line == IMPORT)
  }

  lemma {:induction false} ExpandClean(lines: seq<string>, r: Replacement)
    requires Clean(lines) && AllInert(r)
    ensures Clean(Expand(lines, r))
    decreases |lines|
  {
    if lines != [] {
      hide Inert, CleanLine;
      var last := |lines| - 1;
      ExpandClean(lines[..last], r);
      if last in r {
        forall k | 0 <= k < |r[last]| ensures CleanLine(r[last][k]) {
          InertIsClean(r[last][k]);
        }
      }
    }
  }

  lemma InertIsClean(line: string)
    requires Inert(line)
    ensures CleanLine(line)
  {
  }

  /** Gluing bare imports leaves the line they come before, as it is. */
  lemma {:induction false} CleanWhole(glue: bool, lines: seq<string>, i: nat) returns (m: nat)
    requires Clean(lines) && i < |lines|
    ensures i <= m < |lines| && Whole(glue, lines, i) == lines[m] && !Joins(glue, lines, m)
    ensures forall x :: i <= x < m ==> Joins(glue, lines, x)
    decreases |lines| - i
  {
    m := i;
    if Joins(glue, lines, i) {
      assert CleanLine(lines[i]);
      m := CleanWhole(glue, lines, i + 1);
      assert lines[i][..0] + lines[m] == lines[m];
    }
  }

  /** An input guard for the first condition: in a clean text no constructor is hidden. */
  lemma CleanTextHidesNothing(parse: string -> Option<seq<EnumClass>>, t: string)
    requires Expanded(parse, t).Some? && Identifiers(parse(t).value) && Clean(SplitLines(t))
    ensures Clean(Expanded(parse, t).value)
    ensures forall glue, i :: !Hides(glue, Expanded(parse, t).value, i)
    ensures NoLate(Rewritten(parse, t).value)
  {
    hide Expand, SplitLines, Merge, Whole, Late, UsesEnum;
    var enums := parse(t).value;
    ReplacementsInert(enums, |enums|);
    ExpandClean(SplitLines(t), Replacements(enums, |enums|).value);
    var lines := Expanded(parse, t).value;
    forall glue, i | Begins(glue, lines, i) ensures !Late(Whole(glue, lines, i)) {
      var m := CleanWhole(glue, lines, i);
      assert CleanLine(lines[m]);
      StrippedStays(lines[m]);
    }
    HidesAlike(!UsesEnum(lines), lines);
  }

  /** The text mentions enum outside its enum classes, but only in what the constructor rewrite
      discards; and it imports enum on a line that is not the last one but for blanks. */
  ghost predicate LastUseDiscarded(lines: seq<string>, r: Replacement) {
    && (exists i :: MentionAt(lines, r, i))
    && (forall i :: MentionAt(lines, r, i) ==> !Contains(Tidy(lines[i]), QUALIFIER))
    && (exists i, j :: i < j && ImportAt(lines, r, i) && SomethingAt(lines, r, j))
  }

  predicate MentionAt(lines: seq<string>, r: Replacement, i: int) {
    0 <= i < |lines| && i !in r && Contains(lines[i], QUALIFIER)
  }

  predicate ImportAt(lines: seq<string>, r: Replacement, i: int) {
    0 <= i < |lines| && i !in r && lines[i] == IMPORT
  }

  predicate SomethingAt(lines: seq<string>, r: Replacement, i: int) {
    0 <= i < |lines| && (i in r || Tidy(lines[i]) != "")
  }

  /** A constructor's rewriting mentions enum only if the constructor does. */
  lemma TidyMentionsLess(line: string)
    ensures Contains(Tidy(line), QUALIFIER) ==> Contains(line, QUALIFIER)
  {
    if Constructor(line).None? {
      hide Constructor;
      var rest := line[|Tidy(line)|..];
      assert line == Tidy(line) + rest;
      forall i | FoundAt(Tidy(line), QUALIFIER, i) ensures FoundAt(line, QUALIFIER, i) {
      }
    } else {
      RewrittenOnce(line);
      RewritingMentionsLess(line);
    }
  }

  lemma RewritingMentionsLess(line: string)
    requires Constructor(line).Some?
    ensures Contains(RewriteConstructor(line), QUALIFIER) ==> Contains(line, QUALIFIER)
  {
    var made := RewriteConstructor(line);
    var blanks, from, to := line[..Indent(line)], Indent(line) + |NEW_HEAD|, Constructor(line).value;
    assert made == blanks + (INIT_HEAD + (line[from..to] + ARROW + "None:"));
    IndentIsBlank(line);
    hide Constructor, Indent, RewriteConstructor;
    if i :| 0 <= i <= |made| && FoundAt(made, QUALIFIER, i) {
      FoundInParams(blanks, line[from..to], i);
      FoundInMiddle(blanks, INIT_HEAD, line, from, to, ARROW, "None:", QUALIFIER, i);
    }
  }

  lemma FoundInMiddle(
    blanks: string, head: string, line: string, from: nat, to: nat, arrow: string, end: string, part: string, i: int)
    requires from <= to <= |line| && FoundAt(blanks + (head + (line[from..to] + arrow + end)), part, i)
    requires |blanks| + |head| <= i && i + |part| <= |blanks| + |head| + (to - from)
    ensures Contains(line, part)
  {
    var made, start := blanks + (head + (line[from..to] + arrow + end)), |blanks| + |head|;
    assert made[start..start + (to - from)] == line[from..to];
    FoundInSlice(made, start, start + (to - from), part, i - start);
    FoundInSlice(line, from, to, part, i - start);
    assert FoundAt(line, part, from + (i - start));
  }

  /** A place inside a slice is a place in the text. */
  lemma FoundInSlice(text: string, from: nat, to: nat, part: string, k: nat)
    requires from <= to <= |text| && k + |part| <= to - from
    ensures FoundAt(text[from..to], part, k) <==> FoundAt(text, part, from + k)
  {
    var cut := text[from..to];
    assert forall i :: k <= i < k + |part| ==> cut[i] == text[from + i];
    assert cut[k..k + |part|] == text[from + k..from + k + |part|];
  }

  /** Neither the head nor the end of a rewritten constructor takes part in a mention of enum. */
  lemma FoundInParams(blanks: string, params: string, i: int)
    requires FoundAt(blanks + (INIT_HEAD + (params + ARROW + "None:")), QUALIFIER, i)
    requires forall k :: 0 <= k < |blanks| ==> blanks[k] in " \t"
    ensures |blanks| + |INIT_HEAD| <= i && i + |QUALIFIER| <= |blanks| + |INIT_HEAD| + |params|
  {
    var made := blanks + (INIT_HEAD + (params + ARROW + "None:"));
    var start, end := |blanks| + |INIT_HEAD|, |blanks| + |INIT_HEAD| + |params|;
    forall k: nat | k < |QUALIFIER| ensures made[i + k] == QUALIFIER[k] {
      CharOf(made, QUALIFIER, i, k);
    }
    assert made[i] == 'e' && made[i + 1] == 'n' && made[i + 2] == 'u' && made[i + 3] == 'm' && made[i + 4] == '.';
    assert made[start - 1] == INIT_HEAD[|INIT_HEAD| - 1] == 'f';
    assert made[end] == ARROW[0] == ')';
    NoDotAround(blanks, params, i + 4);
  }

  lemma NoDotAround(blanks: string, params: string, k: nat)
    requires forall j :: 0 <= j < |blanks| ==> blanks[j] in " \t"
    requires k < |blanks + (INIT_HEAD + (params + ARROW + "None:"))|
    requires (blanks + (INIT_HEAD + (params + ARROW + "None:")))[k] == '.'
    ensures |blanks| + |INIT_HEAD| <= k < |blanks| + |INIT_HEAD| + |params|
  {
    assert forall j :: 0 <= j < |INIT_HEAD| ==> INIT_HEAD[j] != '.';
    var tail := ARROW + "None:";
    assert forall j :: 0 <= j < |tail| ==> tail[j] != '.';
    assert params + ARROW + "None:" == params + tail;
  }

  /** An expanded line is a line of the text that stays, or an inserted one. */
  lemma LineAt(lines: seq<string>, r: Replacement, p: nat) returns (i: nat)
    requires p < |Expand(lines, r)| && AllInert(r)
    ensures i < |lines| && Spot(lines, r, i) <= p < Spot(lines, r, i + 1)
    ensures if i in r then Inert(Expand(lines, r)[p]) else Expand(lines, r)[p] == lines[i]
  {
    hide Expand, Inert;
    ExpandLength(lines, r);
    i := SpotOf(lines, r, p, |lines|);
    ExpandAt(lines, r, i);
    var from, to := Spot(lines, r, i), Spot(lines, r, i + 1);
    assert Expand(lines, r)[p] == Expand(lines, r)[from..to][p - from];
  }

  lemma UsesAlike(lines: seq<string>, r: Replacement)
    requires AllInert(r)
    ensures UsesEnum(Expand(lines, r)) <==> exists i :: MentionAt(lines, r, i)
  {
    hide Expand, Spot, Contains;
    var expanded := Expand(lines, r);
    if p :| 0 <= p < |expanded| && Contains(expanded[p], QUALIFIER) {
      var i := LineAt(lines, r, p);
      assert MentionAt(lines, r, i);
    }
    if i :| MentionAt(lines, r, i) {
      SpotStands(lines, r, i);
      assert Contains(expanded[Spot(lines, r, i)], QUALIFIER);
    }
  }

  lemma MentionedAlike(lines: seq<string>, r: Replacement)
    requires AllInert(r)
    ensures Mentioned(false, Expand(lines, r)) <==>
            exists i :: MentionAt(lines, r, i) && Contains(Tidy(lines[i]), QUALIFIER)
  {
    hide Expand, Spot, Contains, Tidy;
    var expanded := Expand(lines, r);
    if p :| Mentions(false, expanded, p) {
      assert Contains(Tidy(expanded[p]), QUALIFIER);
      var i := LineAt(lines, r, p);
      TidyMentionsLess(lines[i]);
      assert MentionAt(lines, r, i);
    }
    if i :| MentionAt(lines, r, i) && Contains(Tidy(lines[i]), QUALIFIER) {
      SpotStands(lines, r, i);
      assert Mentions(false, expanded, Spot(lines, r, i));
    }
  }

  lemma TidyImport(line: string)
    requires CleanLine(line)
    ensures EndsWith(Tidy(line), IMPORT) <==> line == IMPORT
  {
    hide Constructor;
    if Constructor(line).Some? {
      RewrittenOnce(line);
      EndsOfRewritten(line);
      if EndsWith(Tidy(line), IMPORT) { EndOfImport(Tidy(line)); }
    } else {
      StrippedStays(line);
    }
    ImportIsTidy();
  }

  lemma EndsOfRewritten(line: string)
    requires Constructor(line).Some?
    ensures RewriteConstructor(line) != "" && RewriteConstructor(line)[|RewriteConstructor(line)| - 1] == ':'
    ensures line != "" && line[|line| - 1] == ':'
  {
    var tail := ARROW + "None:";
    assert tail[|tail| - 1] == ':';
  }

  lemma ImportIsTidy()
    ensures Tidy(IMPORT) == IMPORT && EndsWith(IMPORT, IMPORT)
  {
    assert IMPORT[|IMPORT| - 1] == 'm';
    StrippedStays(IMPORT);
    assert IMPORT[|IMPORT| - 1] != ':';
  }

  /** Where nothing is glued, an import comes before a line that is not blank exactly if it does so
      in the text. */
  lemma ImportedAlike(lines: seq<string>, r: Replacement)
    requires AllInert(r) && Clean(lines) && Clean(Expand(lines, r))
    ensures (exists p, q :: p < q && Imports(false, Expand(lines, r), p) && NotBlank(false, Expand(lines, r), q)) <==>
            exists i, j :: i < j && ImportAt(lines, r, i) && SomethingAt(lines, r, j)
  {
    hide Expand, Tidy, EndsWith;
    var expanded := Expand(lines, r);
    if p, q :| p < q && Imports(false, expanded, p) && NotBlank(false, expanded, q) {
      assert CleanLine(expanded[p]);
      TidyImport(expanded[p]);
      var i := LineAt(lines, r, p);
      var j := LineAt(lines, r, q);
      ImportIsTidy();
      assert i !in r;
      if j <= i { SpotMonotone(lines, r, j + 1, i + 1); }
      if j == i { ExpandAt(lines, r, i); }
      assert ImportAt(lines, r, i) && SomethingAt(lines, r, j);
    }
    if i, j :| i < j && ImportAt(lines, r, i) && SomethingAt(lines, r, j) {
      SpotStands(lines, r, i);
      ImportIsTidy();
      SpotMonotone(lines, r, i + 1, j);
      assert Imports(false, expanded, Spot(lines, r, i));
      var q := Spot(lines, r, j);
      if j in r {
        ExpandAt(lines, r, j);
        assert expanded[q] == expanded[q..Spot(lines, r, j + 1)][0] == r[j][0];
        assert Inert(r[j][0]);
      } else {
        SpotStands(lines, r, j);
      }
      assert NotBlank(false, expanded, q);
    }
  }

  /** Where bare imports are dropped, none is left before the last line. */
  lemma NoneLeft(lines: seq<string>, i: int, j: int)
    requires Clean(lines) && i < j && Imports(true, lines, i)
    ensures !Begins(true, lines, j)
  {
    hide Tidy, Whole;
    var m := CleanWhole(true, lines, i);
    assert CleanLine(lines[m]);
    TidyImport(lines[m]);
    ImportIsTidy();
    assert m == |lines| - 1;
    if j <= m { assert Joins(true, lines, j - 1); }
  }

  lemma CleanSettled(lines: seq<string>, r: Replacement)
    requires AllInert(r) && Clean(lines) && Clean(Expand(lines, r))
    requires forall glue, i :: !Hides(glue, Expand(lines, r), i)
    ensures Settled(Expand(lines, r)) <==> !LastUseDiscarded(lines, r)
  {
    hide Expand, UsesEnum, Clean, AllInert, Hides, Imports, NotBlank, MentionAt, ImportAt, SomethingAt, Contains, Tidy;
    var expanded := Expand(lines, r);
    UsesAlike(lines, r);
    if UsesEnum(expanded) {
      MentionedAlike(lines, r);
      ImportedAlike(lines, r);
      assert Settled(expanded) <==> SettledIf(false, expanded);
    } else {
      forall i, j | i < j && Imports(true, expanded, i) ensures !NotBlank(true, expanded, j) {
        NoneLeft(expanded, i, j);
        NotBlankBegins(true, expanded, j);
      }
      assert Settled(expanded) <==> SettledIf(true, expanded);
    }
  }

  lemma NotBlankBegins(glue: bool, lines: seq<string>, j: int)
    ensures NotBlank(glue, lines, j) ==> Begins(glue, lines, j)
  {
  }

  /** A clean text is settled by one pass exactly if its constructors' discarded annotations do not
      hold the last mention of an enum module that the text imports. */
  lemma CleanTextTwice(parse: string -> Option<seq<EnumClass>>, t: string, r: Replacement)
    requires PostProcess(parse, t).Some? && Identifiers(parse(t).value)
    requires parse(PostProcess(parse, t).value) == Some([])
    requires Replacements(parse(t).value, |parse(t).value|) == Some(r) && Clean(SplitLines(t))
    ensures PostProcess(parse, PostProcess(parse, t).value) == PostProcess(parse, t)
            <==> !LastUseDiscarded(SplitLines(t), r)
  {
    hide Expand, SplitLines, Settled, LastUseDiscarded, AllInert, Hides, Clean, Replacements, DropImport;
    PostProcessTwice(parse, t);
    ReplacementsInert(parse(t).value, |parse(t).value|);
    CleanTextHidesNothing(parse, t);
    assert Expanded(parse, t) == Some(Expand(SplitLines(t), r));
    CleanSettled(SplitLines(t), r);
  }
}
