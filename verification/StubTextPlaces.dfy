/** Where the lines of a text stand after the enum classes are replaced and the import is dropped. */
module StubTextPlaces {
  import opened Wrappers
  import opened Text
  import opened StubText
  import opened StubTextTheorems

  // ---- Replaced lines ----

  /** Where line `i`, or what replaces it, starts among the expanded lines. */
  function Spot(lines: seq<string>, r: Replacement, i: nat): nat
    requires i <= |lines|
  {
    if i == 0 then 0 else Spot(lines, r, i - 1) + if i - 1 in r then |r[i - 1]| else 1
  }

  lemma {:induction false} SpotInPrefix(lines: seq<string>, r: Replacement, n: nat, i: nat)
    requires i <= n <= |lines|
    ensures Spot(lines[..n], r, i) == Spot(lines, r, i)
    decreases i
  {
    if i > 0 { SpotInPrefix(lines, r, n, i - 1); }
  }

  lemma {:induction false} SpotMonotone(lines: seq<string>, r: Replacement, i: nat, j: nat)
    requires i <= j <= |lines|
    ensures Spot(lines, r, i) <= Spot(lines, r, j)
    decreases j
  {
    if i < j { SpotMonotone(lines, r, i, j - 1); }
  }

  lemma {:induction false} ExpandLength(lines: seq<string>, r: Replacement)
    ensures |Expand(lines, r)| == Spot(lines, r, |lines|)
    decreases |lines|
  {
    if lines != [] {
      var last := |lines| - 1;
      ExpandLength(lines[..last], r);
      SpotInPrefix(lines, r, last, last);
    }
  }

  /** Between its spot and the next stands the line itself, or what replaces it. */
  lemma {:induction false} ExpandAt(lines: seq<string>, r: Replacement, i: nat)
    requires i < |lines|
    ensures Spot(lines, r, i) <= Spot(lines, r, i + 1) <= |Expand(lines, r)|
    ensures Expand(lines, r)[Spot(lines, r, i)..Spot(lines, r, i + 1)] == if i in r then r[i] else [lines[i]]
    decreases |lines|
  {
    hide Expand, Spot;
    var last := |lines| - 1;
    var before, own := Expand(lines[..last], r), if last in r then r[last] else [lines[last]];
    ExpandLast(lines, r);
    ExpandLength(lines[..last], r);
    SpotInPrefix(lines, r, last, last);
    if i < last {
      SpotInPrefix(lines, r, last, i);
      SpotInPrefix(lines, r, last, i + 1);
      ExpandAt(lines[..last], r, i);
      SlicePrefix(before, own, Spot(lines, r, i), Spot(lines, r, i + 1));
    } else {
      SliceRest(before, own);
    }
  }

  lemma ExpandLast(lines: seq<string>, r: Replacement)
    requires lines != []
    ensures var last := |lines| - 1;
      var own := if last in r then r[last] else [lines[last]];
      && Expand(lines, r) == Expand(lines[..last], r) + own
      && Spot(lines, r, last + 1) == Spot(lines, r, last) + |own|
  {
  }

  lemma SlicePrefix(a: seq<string>, b: seq<string>, i: nat, j: nat)
    requires i <= j <= |a|
    ensures (a + b)[i..j] == a[i..j]
  {
  }

  lemma SliceRest(a: seq<string>, b: seq<string>)
    ensures (a + b)[|a|..|a| + |b|] == b
  {
  }

  lemma {:induction false} SpotOf(lines: seq<string>, r: Replacement, p: nat, n: nat) returns (i: nat)
    requires n <= |lines| && p < Spot(lines, r, n)
    ensures i < n && Spot(lines, r, i) <= p < Spot(lines, r, i + 1)
    decreases n
  {
    if p >= Spot(lines, r, n - 1) { i := n - 1; } else { i := SpotOf(lines, r, p, n - 1); }
  }

  // ---- Glued lines ----

  /** With `glue` imports of enum are dropped: line `i` ends in one, and the next line joins it. */
  predicate Joins(glue: bool, lines: seq<string>, i: int) {
    glue && ImportEnds(lines, i)
  }

  /** Line `i` is not glued to the one before it. */
  predicate Begins(glue: bool, lines: seq<string>, i: int) {
    0 <= i < |lines| && !Joins(glue, lines, i - 1)
  }

  /** What line `i` becomes together with the lines that join it. */
  function Whole(glue: bool, lines: seq<string>, i: nat): string
    requires i < |lines|
    decreases |lines| - i
  {
    if Joins(glue, lines, i) then lines[i][..|lines[i]| - |IMPORT|] + Whole(glue, lines, i + 1) else lines[i]
  }

  /** The number of lines that begin after the first one and up to line `i`: its place. */
  function Place(glue: bool, lines: seq<string>, i: nat): nat
    requires i < |lines|
  {
    if i == 0 then 0 else Place(glue, lines, i - 1) + if Joins(glue, lines, i - 1) then 0 else 1
  }

  function Dropped(glue: bool, lines: seq<string>): seq<string> {
    if glue then Merge(lines) else lines
  }

  lemma TailJoins(lines: seq<string>, i: nat)
    requires i + 1 < |lines|
    ensures Joins(true, lines, i + 1) <==> Joins(true, lines[1..], i)
  {
  }

  lemma {:induction false} WholeOfTail(lines: seq<string>, i: nat)
    requires i + 1 < |lines|
    ensures Whole(true, lines, i + 1) == Whole(true, lines[1..], i)
    decreases |lines| - i
  {
    TailJoins(lines, i);
    if Joins(true, lines, i + 1) { WholeOfTail(lines, i + 1); }
  }

  lemma {:induction false} PlaceOfTail(lines: seq<string>, i: nat)
    requires i + 1 < |lines|
    ensures Place(true, lines, i + 1) == Place(true, lines[1..], i) + if Joins(true, lines, 0) then 0 else 1
    decreases i
  {
    if i > 0 {
      TailJoins(lines, i - 1);
      PlaceOfTail(lines, i - 1);
    }
  }

  lemma {:induction false} MergeLength(lines: seq<string>)
    requires lines != []
    ensures |Merge(lines)| == Place(true, lines, |lines| - 1) + 1
    decreases |lines|
  {
    if |lines| > 1 {
      MergeLength(lines[1..]);
      PlaceOfTail(lines, |lines| - 2);
    }
  }

  lemma {:induction false} PlaceGrows(glue: bool, lines: seq<string>, i: nat, j: nat)
    requires i <= j < |lines|
    ensures Place(glue, lines, i) <= Place(glue, lines, j)
    ensures i < j && Begins(glue, lines, j) ==> Place(glue, lines, i) < Place(glue, lines, j)
    decreases j
  {
    if i < j { PlaceGrows(glue, lines, i, j - 1); }
  }

  /** Where a merged line comes from, one line at a time. */
  lemma MergeStep(lines: seq<string>, k: nat)
    requires |lines| > 1 && k < |Merge(lines[1..])|
    ensures var rest := Merge(lines[1..]);
      if Joins(true, lines, 0) then
        && k < |Merge(lines)|
        && Merge(lines)[k] == if k == 0 then lines[0][..|lines[0]| - |IMPORT|] + rest[0] else rest[k]
      else k + 1 < |Merge(lines)| && Merge(lines)[0] == lines[0] && Merge(lines)[k + 1] == rest[k]
  {
    hide EndsWith;
  }

  /** Each line that begins stands at its place, with what joins it. */
  lemma {:induction false} MergeAt(lines: seq<string>, i: nat)
    requires Begins(true, lines, i)
    ensures Place(true, lines, i) < |Merge(lines)|
    ensures Merge(lines)[Place(true, lines, i)] == Whole(true, lines, i)
    decreases |lines|
  {
    hide EndsWith;
    if |lines| > 1 {
      var tail := lines[1..];
      if i == 0 {
        MergeAt(tail, 0);
        hide Merge, Joins;
        MergeStep(lines, 0);
        if Joins(true, lines, 0) { WholeOfTail(lines, 0); }
      } else {
        if i > 1 { TailJoins(lines, i - 2); }
        MergeAt(tail, i - 1);
        hide Merge, Joins, Whole, Place;
        MergeStep(lines, Place(true, tail, i - 1));
        WholeOfTail(lines, i - 1);
        PlaceOfTail(lines, i - 1);
        if Joins(true, lines, 0) { PlaceGrows(true, tail, 0, i - 1); }
      }
    }
  }

  lemma {:induction false} PlaceAlone(lines: seq<string>, i: nat)
    requires i < |lines|
    ensures Place(false, lines, i) == i
    decreases i
  {
    if i > 0 { PlaceAlone(lines, i - 1); }
  }

  lemma DroppedAt(glue: bool, lines: seq<string>, i: nat)
    requires Begins(glue, lines, i)
    ensures Place(glue, lines, i) < |Dropped(glue, lines)|
    ensures Dropped(glue, lines)[Place(glue, lines, i)] == Whole(glue, lines, i)
  {
    if glue { MergeAt(lines, i); } else { PlaceAlone(lines, i); }
  }

  lemma {:induction false} BeginAt(glue: bool, lines: seq<string>, p: nat, n: nat) returns (i: nat)
    requires n < |lines| && p <= Place(glue, lines, n)
    ensures i <= n && Begins(glue, lines, i) && Place(glue, lines, i) == p
    decreases n
  {
    if p == Place(glue, lines, n) && Begins(glue, lines, n) {
      i := n;
    } else {
      i := BeginAt(glue, lines, p, n - 1);
    }
  }

  /** Every remaining line is a line of the text that begins, with what joins it. */
  lemma DroppedFrom(glue: bool, lines: seq<string>, p: nat) returns (i: nat)
    requires p < |Dropped(glue, lines)|
    ensures Begins(glue, lines, i) && Place(glue, lines, i) == p && Dropped(glue, lines)[p] == Whole(glue, lines, i)
  {
    if glue {
      MergeShortens(lines);
      MergeLength(lines);
    } else {
      PlaceAlone(lines, |lines| - 1);
    }
    i := BeginAt(glue, lines, p, |lines| - 1);
    DroppedAt(glue, lines, i);
  }

  // ---- Inserted lines ----

  /** A line that nothing after the enum classes touches: not blank, without trailing blank, no import
      of enum, no constructor, no mention of enum. */
  predicate Inert(line: string) {
    && line != "" && !IsSpace(line[|line| - 1])
    && !EndsWith(line, IMPORT) && Tidy(line) == line && !Contains(line, QUALIFIER)
  }

  ghost predicate AllInert(r: Replacement) {
    forall i :: i in r ==> r[i] != [] && forall k :: 0 <= k < |r[i]| ==> Inert(r[i][k])
  }

  /** No dot comes right after an m. */
  predicate NoMDot(s: string) {
    forall i :: 0 <= i < |s| - 1 ==> !(s[i] == 'm' && s[i + 1] == '.')
  }

  lemma NoMDotJoined(a: string, b: string)
    requires NoMDot(a) && NoMDot(b) && (b == "" || b[0] != '.')
    ensures NoMDot(a + b)
  {
  }

  lemma NoMDotNoQualifier(s: string)
    requires NoMDot(s)
    ensures !Contains(s, QUALIFIER)
  {
    forall i ensures !FoundAt(s, QUALIFIER, i) {
      CharOf(s, QUALIFIER, i, 3);
      CharOf(s, QUALIFIER, i, 4);
      assert QUALIFIER[3] == 'm' && QUALIFIER[4] == '.';
    }
  }

  /** A line without "m." that ends in none of the characters that matter is inert. */
  lemma InertByEnds(line: string)
    requires NoMDot(line) && line != "" && line[|line| - 1] in ".:]"
    requires line[|line| - 1] == ':' ==> line[0] == 'c'
    ensures Inert(line)
  {
    NoMDotNoQualifier(line);
    StrippedStays(line);
    if EndsWith(line, IMPORT) { EndOfImport(line); }
    if line[|line| - 1] == ':' {
      CharOf(line, NEW_HEAD, 0, 0);
      assert NEW_HEAD[0] == 'd' && Indent(line) == 0;
    }
  }

  lemma HeaderInert(name: string)
    requires IsName(name)
    ensures Inert(HeaderLine(name))
  {
    NoMDotJoined("class ", name);
    NoMDotJoined("class " + name, ":");
    assert HeaderLine(name)[0] == 'c';
    InertByEnds(HeaderLine(name));
  }

  lemma MemberInert(name: string, member: string)
    requires IsName(name) && IsName(member)
    ensures Inert(MemberLine(name, member))
  {
    NoMDotJoined("    ", member);
    NoMDotJoined("    " + member, ": typing.ClassVar[");
    NoMDotJoined("    " + member + ": typing.ClassVar[", name);
    NoMDotJoined("    " + member + ": typing.ClassVar[" + name, "]");
    MemberLineEnds(name, member);
    InertByEnds(MemberLine(name, member));
  }

  lemma NewInert(name: string)
    requires IsName(name)
    ensures Inert(NewLine(name))
  {
    NoMDotJoined("_unconstructible: ", "typing.NoReturn) -> ");
    NoMDotJoined("    def __new__(cls, ", "_unconstructible: " + "typing.NoReturn) -> ");
    NoMDotJoined(name, ": ...");
    NoMDotJoined(NEW_START, name + ": ...");
    NewLineEnds(name);
    InertByEnds(NewLine(name));
  }

  lemma IntInert()
    ensures Inert(INT_LINE)
  {
    NoMDotJoined("    def __int__(self)", " -> builtins.int: ...");
    assert " -> builtins.int: ..."[20] == '.';
    InertByEnds(INT_LINE);
  }

  lemma HashInert()
    ensures Inert(HASH_LINE)
  {
    NoMDotJoined("  # type: ", "ignore[assignment]");
    NoMDotJoined("typing.ClassVar[None]", "  # type: " + "ignore[assignment]");
    NoMDotJoined("    __hash__: ", "typing.ClassVar[None]" + ("  # type: " + "ignore[assignment]"));
    assert "ignore[assignment]"[17] == ']';
    InertByEnds(HASH_LINE);
  }

  lemma {:induction false} MembersInert(r: Replacement, e: EnumClass, n: nat)
    requires n <= |e.members| && AllInert(r) && Named(e) && MemberReplacements(r, e, n).Some?
    ensures AllInert(MemberReplacements(r, e, n).value)
    decreases n
  {
    hide Inert, HeaderLine, MemberLine;
    if n == 0 {
      HeaderInert(e.name);
    } else {
      MembersInert(r, e, n - 1);
      MemberInert(e.name, e.members[n - 1].name.value);
    }
  }

  lemma ClassInert(r: Replacement, e: EnumClass)
    requires AllInert(r) && Named(e) && ClassReplacements(r, e).Some?
    ensures AllInert(ClassReplacements(r, e).value)
  {
    hide Inert, NewLine;
    MembersInert(r, e, |e.members|);
    NewInert(e.name);
    IntInert();
    HashInert();
  }

  lemma {:induction false} ReplacementsInert(enums: seq<EnumClass>, n: nat)
    requires n <= |enums| && Identifiers(enums) && Replacements(enums, n).Some?
    ensures AllInert(Replacements(enums, n).value)
    decreases n
  {
    if n > 0 {
      hide Inert, ClassReplacements;
      ReplacementsInert(enums, n - 1);
      ClassInert(Replacements(enums, n - 1).value, enums[n - 1]);
    }
  }

  // ---- Ordinary lines ----

  /** A line that belongs to no enum header or member, is no constructor, has no trailing blank, and,
      where imports are dropped, is none and follows none. It may be blank. */
  predicate Ordinary(glue: bool, lines: seq<string>, r: Replacement, i: int) {
    && 0 <= i < |lines| && i !in r && Tidy(lines[i]) == lines[i]
    && (glue ==> !ImportEnds(lines, i) && (i > 0 && i - 1 !in r ==> !ImportEnds(lines, i - 1)))
  }

  /** Where an ordinary line of the text stands in the result. */
  function PlaceOf(glue: bool, lines: seq<string>, r: Replacement, i: nat): nat
    requires i < |lines| && Spot(lines, r, i) < |Expand(lines, r)|
  {
    Place(glue, Expand(lines, r), Spot(lines, r, i))
  }

  lemma SpotStands(lines: seq<string>, r: Replacement, i: nat)
    requires i < |lines| && i !in r
    ensures Spot(lines, r, i) < |Expand(lines, r)| && Expand(lines, r)[Spot(lines, r, i)] == lines[i]
  {
    hide Expand;
    ExpandAt(lines, r, i);
    var from := Spot(lines, r, i);
    assert Expand(lines, r)[from] == Expand(lines, r)[from..from + 1][0];
  }

  lemma BeforeSpot(lines: seq<string>, r: Replacement, i: nat)
    requires 0 < i < |lines| && AllInert(r)
    ensures 0 < Spot(lines, r, i) <= |Expand(lines, r)|
    ensures Expand(lines, r)[Spot(lines, r, i) - 1] ==
            if i - 1 in r then r[i - 1][|r[i - 1]| - 1] else lines[i - 1]
  {
    hide Expand, Inert;
    ExpandAt(lines, r, i - 1);
    var from, to := Spot(lines, r, i - 1), Spot(lines, r, i);
    assert i - 1 in r ==> r[i - 1] != [];
    assert Expand(lines, r)[to - 1] == Expand(lines, r)[from..to][to - 1 - from];
  }

  /** An ordinary line begins and is joined by none. */
  lemma OrdinaryStands(glue: bool, lines: seq<string>, r: Replacement, i: nat)
    requires Ordinary(glue, lines, r, i) && AllInert(r)
    ensures var expanded, spot := Expand(lines, r), Spot(lines, r, i);
      spot < |expanded| && Begins(glue, expanded, spot) && Whole(glue, expanded, spot) == lines[i]
  {
    hide Expand, Tidy, Contains;
    SpotStands(lines, r, i);
    ExpandLength(lines, r);
    var expanded, spot := Expand(lines, r), Spot(lines, r, i);
    if i == |lines| - 1 { assert spot == |expanded| - 1; }
    if i > 0 { BeforeSpot(lines, r, i); }
  }

  /** The result has every ordinary line, unchanged, in the order of the text: places increase
      strictly, so repeated lines stay repeated, and only blank lines can lie beyond the result's end. */
  lemma OrdinaryLinesKept(parse: string -> Option<seq<EnumClass>>, t: string, r: Replacement)
    requires parse(t).Some? && Identifiers(parse(t).value)
    requires Replacements(parse(t).value, |parse(t).value|) == Some(r)
    ensures Rewritten(parse, t).Some?
    ensures var lines, out := SplitLines(t), Finish(Rewritten(parse, t).value);
      var glue := !UsesEnum(Expand(lines, r));
      && (forall i :: Ordinary(glue, lines, r, i) ==>
            Spot(lines, r, i) < |Expand(lines, r)|
            && var p := PlaceOf(glue, lines, r, i); if p < |out| then out[p] == lines[i] else lines[i] == "")
      && (forall i, j :: i < j && Ordinary(glue, lines, r, i) && Ordinary(glue, lines, r, j) ==>
            Spot(lines, r, i) < |Expand(lines, r)| && Spot(lines, r, j) < |Expand(lines, r)|
            && PlaceOf(glue, lines, r, i) < PlaceOf(glue, lines, r, j))
  {
    hide Expand, UsesEnum, Merge, Tidy, Replacements, SplitLines, Finish;
    ReplacementsInert(parse(t).value, |parse(t).value|);
    var lines, expanded := SplitLines(t), Expand(SplitLines(t), r);
    var glue := !UsesEnum(expanded);
    assert Rewritten(parse, t) == Some(Dropped(glue, expanded));
    forall i | Ordinary(glue, lines, r, i)
      ensures Spot(lines, r, i) < |expanded|
      ensures var p := PlaceOf(glue, lines, r, i);
        if p < |Finish(Dropped(glue, expanded))| then Finish(Dropped(glue, expanded))[p] == lines[i] else lines[i] == ""
    {
      OrdinaryPlace(glue, lines, r, i);
    }
    forall i, j | i < j && Ordinary(glue, lines, r, i) && Ordinary(glue, lines, r, j)
      ensures Spot(lines, r, i) < |expanded| && Spot(lines, r, j) < |expanded|
      ensures PlaceOf(glue, lines, r, i) < PlaceOf(glue, lines, r, j)
    {
      OrdinaryStands(glue, lines, r, i);
      OrdinaryStands(glue, lines, r, j);
      SpotMonotone(lines, r, i + 1, j);
      PlaceGrows(glue, expanded, Spot(lines, r, i), Spot(lines, r, j));
    }
  }

  lemma OrdinaryPlace(glue: bool, lines: seq<string>, r: Replacement, i: nat)
    requires Ordinary(glue, lines, r, i) && AllInert(r)
    ensures Spot(lines, r, i) < |Expand(lines, r)|
    ensures var p, out := PlaceOf(glue, lines, r, i), Finish(Dropped(glue, Expand(lines, r)));
      if p < |out| then out[p] == lines[i] else lines[i] == ""
  {
    hide Expand, Merge, Tidy, Inert;
    OrdinaryStands(glue, lines, r, i);
    var left, p := Dropped(glue, Expand(lines, r)), PlaceOf(glue, lines, r, i);
    DroppedAt(glue, Expand(lines, r), Spot(lines, r, i));
    if p < |Finish(left)| {
      assert Finish(left)[p] == TidyAll(left)[p];
    } else {
      TrimmedAreBlank(TidyAll(left), p);
    }
  }
}
