/** Where every line of a stub stands in post_process's result, and with which text. */
module StubTextResult {
  import opened Wrappers
  import opened Text
  import opened StubText
  import opened StubTextTheorems
  import opened StubTextPlaces
  import opened StubTextLines

  // ---- Places ----

  /** Where imports are dropped, the line follows none, and is none unless a class replaces it. */
  predicate Apart(glue: bool, lines: seq<string>, r: Replacement, i: int) {
    && 0 <= i < |lines|
    && (glue ==> (i in r || !ImportEnds(lines, i)) && (i > 0 && i - 1 !in r ==> !ImportEnds(lines, i - 1)))
  }

  /** What stands for line `i`: the line, or what replaces it. */
  function Parts(lines: seq<string>, r: Replacement, i: nat): seq<string>
    requires i < |lines|
  {
    if i in r then r[i] else [lines[i]]
  }

  /** The place of the part `k` of line `i` in the result. */
  function PlaceAt(glue: bool, lines: seq<string>, r: Replacement, i: nat, k: nat): nat
    requires i < |lines| && Spot(lines, r, i) + k < |Expand(lines, r)|
  {
    Place(glue, Expand(lines, r), Spot(lines, r, i) + k)
  }

  lemma PartAt(lines: seq<string>, r: Replacement, i: nat, k: nat)
    requires i < |lines| && k < |Parts(lines, r, i)|
    ensures Spot(lines, r, i) + k < Spot(lines, r, i + 1) <= |Expand(lines, r)|
    ensures Spot(lines, r, i + 1) == Spot(lines, r, i) + |Parts(lines, r, i)|
    ensures Expand(lines, r)[Spot(lines, r, i) + k] == Parts(lines, r, i)[k]
  {
    ExpandAt(lines, r, i);
    hide Expand;
    var from, to := Spot(lines, r, i), Spot(lines, r, i + 1);
    assert Expand(lines, r)[from + k] == Expand(lines, r)[from..to][k];
  }

  lemma PartNoImport(r: Replacement, i: nat, k: nat)
    requires AllInert(r) && i in r && k < |r[i]|
    ensures !EndsWith(r[i][k], IMPORT)
  {
    assert Inert(r[i][k]);
  }

  lemma PartIsTidy(r: Replacement, i: nat, k: nat)
    requires AllInert(r) && i in r && k < |r[i]|
    ensures Tidy(r[i][k]) == r[i][k] != ""
  {
    assert Inert(r[i][k]);
  }

  lemma NoImportEnds(lines: seq<string>, i: nat)
    requires i < |lines| && (i == |lines| - 1 || !EndsWith(lines[i], IMPORT))
    ensures !ImportEnds(lines, i)
  {
  }

  lemma PartEnds(glue: bool, lines: seq<string>, r: Replacement, i: nat, k: nat)
    requires AllInert(r) && i < |lines| && Apart(glue, lines, r, i) && k < |Parts(lines, r, i)|
    ensures !Joins(glue, Expand(lines, r), Spot(lines, r, i) + k)
  {
    hide Expand, EndsWith, AllInert, Spot, Apart, ImportEnds;
    if glue {
      PartAt(lines, r, i, k);
      ExpandLength(lines, r);
      if i in r { PartNoImport(r, i, k); } else { ApartEnds(lines, r, i); }
      NoImportEnds(Expand(lines, r), Spot(lines, r, i) + k);
    }
  }

  lemma ApartEnds(lines: seq<string>, r: Replacement, i: nat)
    requires Apart(true, lines, r, i) && i !in r
    ensures i == |lines| - 1 || !EndsWith(lines[i], IMPORT)
  {
    hide EndsWith;
  }

  lemma PartFollows(glue: bool, lines: seq<string>, r: Replacement, i: nat, k: nat)
    requires AllInert(r) && i < |lines| && 0 < k < |Parts(lines, r, i)|
    ensures !Joins(glue, Expand(lines, r), Spot(lines, r, i) + k - 1)
  {
    hide Expand, EndsWith, AllInert, Spot, ImportEnds;
    PartAt(lines, r, i, k - 1);
    PartNoImport(r, i, k - 1);
    NoImportEnds(Expand(lines, r), Spot(lines, r, i) + k - 1);
  }

  lemma LineFollows(glue: bool, lines: seq<string>, r: Replacement, i: nat)
    requires AllInert(r) && 0 < i < |lines| && Apart(glue, lines, r, i)
    ensures !Joins(glue, Expand(lines, r), Spot(lines, r, i) - 1)
  {
    hide Expand, EndsWith, AllInert, Spot, ImportEnds, Apart;
    if glue {
      BeforeSpot(lines, r, i);
      if i - 1 in r { NotEmpty(r, i - 1); }
      if i - 1 in r { PartNoImport(r, i - 1, |r[i - 1]| - 1); } else { ApartFollows(lines, r, i); }
      NoImportEnds(Expand(lines, r), Spot(lines, r, i) - 1);
    }
  }

  lemma PartBegins(glue: bool, lines: seq<string>, r: Replacement, i: nat, k: nat)
    requires AllInert(r) && i < |lines| && Apart(glue, lines, r, i) && k < |Parts(lines, r, i)|
    ensures Begins(glue, Expand(lines, r), Spot(lines, r, i) + k)
  {
    hide Expand, EndsWith, AllInert, Spot, Apart, ImportEnds;
    PartAt(lines, r, i, k);
    if k > 0 {
      PartFollows(glue, lines, r, i, k);
    } else if i > 0 {
      LineFollows(glue, lines, r, i);
    } else {
      NothingBefore(lines, r);
    }
  }

  lemma ApartFollows(lines: seq<string>, r: Replacement, i: nat)
    requires Apart(true, lines, r, i) && i > 0 && i - 1 !in r
    ensures !EndsWith(lines[i - 1], IMPORT)
  {
    hide EndsWith;
  }

  lemma NotEmpty(r: Replacement, i: nat)
    requires AllInert(r) && i in r
    ensures r[i] != []
  {
    hide Inert;
  }

  lemma NothingBefore(lines: seq<string>, r: Replacement)
    ensures Spot(lines, r, 0) == 0 && !ImportEnds(Expand(lines, r), -1)
  {
    hide Expand;
  }

  /** A part begins a line of its own, and no other joins it. */
  lemma PartStands(glue: bool, lines: seq<string>, r: Replacement, i: nat, k: nat)
    requires AllInert(r) && Apart(glue, lines, r, i) && k < |Parts(lines, r, i)|
    ensures var expanded, spot := Expand(lines, r), Spot(lines, r, i) + k;
      && spot < |expanded| && expanded[spot] == Parts(lines, r, i)[k]
      && Begins(glue, expanded, spot) && Whole(glue, expanded, spot) == expanded[spot]
      && !Joins(glue, expanded, spot)
  {
    hide Begins, Expand, AllInert, Spot, Parts;
    PartAt(lines, r, i, k);
    PartBegins(glue, lines, r, i, k);
    PartEnds(glue, lines, r, i, k);
  }

  /** It is in the result, tidied, unless it is blank and nothing but blanks comes after it. */
  lemma PartComesOut(glue: bool, lines: seq<string>, r: Replacement, i: nat, k: nat)
    requires AllInert(r) && Apart(glue, lines, r, i) && k < |Parts(lines, r, i)|
    ensures Spot(lines, r, i) + k < |Expand(lines, r)|
    ensures var p, out := PlaceAt(glue, lines, r, i, k), Finish(Dropped(glue, Expand(lines, r)));
      var text := Tidy(Parts(lines, r, i)[k]);
      if p < |out| then out[p] == text else text == ""
  {
    hide Expand, Dropped, Tidy, AllInert, Begins, Joins, Whole, Spot, Place, ImportEnds;
    PartStands(glue, lines, r, i, k);
    DroppedAt(glue, Expand(lines, r), Spot(lines, r, i) + k);
    FinishAt(Dropped(glue, Expand(lines, r)), PlaceAt(glue, lines, r, i, k));
  }

  lemma FinishAt(lines: seq<string>, p: nat)
    requires p < |lines|
    ensures if p < |Finish(lines)| then Finish(lines)[p] == Tidy(lines[p]) else Tidy(lines[p]) == ""
  {
    hide Tidy;
    if p < |Finish(lines)| {
      assert Finish(lines)[p] == TidyAll(lines)[p];
    } else {
      TrimmedAreBlank(TidyAll(lines), p);
    }
  }

  /** Parts of one line stand one below the other, and those of a later line below. */
  lemma PlacesInOrder(glue: bool, lines: seq<string>, r: Replacement, i: nat, k: nat, j: nat, l: nat)
    requires AllInert(r) && Apart(glue, lines, r, i) && k < |Parts(lines, r, i)|
    requires Apart(glue, lines, r, j) && l < |Parts(lines, r, j)| && (i < j || (i == j && k < l))
    ensures Spot(lines, r, i) + k < |Expand(lines, r)| && Spot(lines, r, j) + l < |Expand(lines, r)|
    ensures PlaceAt(glue, lines, r, i, k) < PlaceAt(glue, lines, r, j, l)
    ensures i == j && l == k + 1 ==> PlaceAt(glue, lines, r, j, l) == PlaceAt(glue, lines, r, i, k) + 1
  {
    hide Expand, Spot, AllInert, Joins, Begins, Parts, Place, Whole, ImportEnds;
    PartStands(glue, lines, r, i, k);
    PartStands(glue, lines, r, j, l);
    PartAt(lines, r, i, k);
    if i < j { SpotMonotone(lines, r, i + 1, j); }
    NextPlace(glue, Expand(lines, r), Spot(lines, r, i) + k);
    PlaceGrows(glue, Expand(lines, r), Spot(lines, r, i) + k, Spot(lines, r, j) + l);
  }

  lemma NextPlace(glue: bool, lines: seq<string>, i: nat)
    requires i < |lines| && !Joins(glue, lines, i)
    ensures i + 1 < |lines| ==> Place(glue, lines, i + 1) == Place(glue, lines, i) + 1
  {
  }

  /** post_process of a text, as lines. */
  ghost predicate ComesTo(parse: string -> Option<seq<EnumClass>>, t: string, r: Replacement, out: seq<string>) {
    && parse(t).Some? && Identifiers(parse(t).value)
    && Replacements(parse(t).value, |parse(t).value|) == Some(r)
    && PostProcess(parse, t) == Some(JoinLines(out))
    && out == Finish(Dropped(!UsesEnum(Expand(SplitLines(t), r)), Expand(SplitLines(t), r)))
  }

  lemma Result(parse: string -> Option<seq<EnumClass>>, t: string, r: Replacement) returns (out: seq<string>)
    requires parse(t).Some? && Identifiers(parse(t).value)
    requires Replacements(parse(t).value, |parse(t).value|) == Some(r)
    ensures ComesTo(parse, t, r, out)
  {
    hide Expand, UsesEnum, Merge, Finish, Replacements, SplitLines;
    out := Finish(Dropped(!UsesEnum(Expand(SplitLines(t), r)), Expand(SplitLines(t), r)));
  }

  /** Every line that is apart from imports of enum is in the result, or what replaces it is, tidied and
      in order. */
  lemma LinesComeOut(
    parse: string -> Option<seq<EnumClass>>, t: string, r: Replacement, out: seq<string>, i: nat, k: nat)
    requires ComesTo(parse, t, r, out)
    requires var lines := SplitLines(t);
      Apart(!UsesEnum(Expand(lines, r)), lines, r, i) && k < |Parts(lines, r, i)|
    ensures var lines := SplitLines(t);
      && Spot(lines, r, i) + k < |Expand(lines, r)|
      && var p := PlaceAt(!UsesEnum(Expand(lines, r)), lines, r, i, k);
         if p < |out| then out[p] == Tidy(Parts(lines, r, i)[k]) else Tidy(Parts(lines, r, i)[k]) == ""
    ensures AllInert(r)
  {
    hide Expand, UsesEnum, Merge, Finish, Replacements, SplitLines, Tidy, Apart;
    ReplacementsInert(parse(t).value, |parse(t).value|);
    PartComesOut(!UsesEnum(Expand(SplitLines(t), r)), SplitLines(t), r, i, k);
  }

  // ---- Constructors ----

  /** Each constructor of the text is in the result as an __init__ with its indent and parameters. */
  lemma ConstructorComesOut(
    parse: string -> Option<seq<EnumClass>>, t: string, r: Replacement, out: seq<string>,
    i: nat, blanks: string, params: string, ret: string)
    requires ComesTo(parse, t, r, out) && i !in r
    requires Apart(!UsesEnum(Expand(SplitLines(t), r)), SplitLines(t), r, i)
    requires IsConstructor(SplitLines(t)[i], blanks, params, ret)
    ensures var lines := SplitLines(t);
      && Spot(lines, r, i) < |Expand(lines, r)|
      && var p := PlaceAt(!UsesEnum(Expand(lines, r)), lines, r, i, 0);
         p < |out| && out[p] == blanks + "def __init__(self" + params + ") -> None:"
  {
    hide Expand, UsesEnum, SplitLines, Tidy, ComesTo, IsConstructor, RewriteConstructor;
    LinesComeOut(parse, t, r, out, i, 0);
    ConstructorRewritten(SplitLines(t)[i], blanks, params, ret);
    assert ") -> None:" != "";
  }

  // ---- Enum classes ----

  /** A line that no class touches is not replaced. */
  lemma {:induction false} Untouched(enums: seq<EnumClass>, n: nat, line: nat)
    requires n <= |enums| && Replacements(enums, n).Some? && forall k :: 0 <= k < n ==> !Touches(enums[k], line)
    ensures line !in Replacements(enums, n).value
    decreases n
  {
    if n > 0 {
      Untouched(enums, n - 1, line);
      var e := enums[n - 1];
      assert !Touches(e, line);
      MembersLeave(Replacements(enums, n - 1).value, e, |e.members|, line);
      if e.members != [] { assert e.members[|e.members| - 1].line != line; }
    }
  }

  /** Only the last class that touches a line has a say in it. */
  lemma {:induction false} LastTouch(enums: seq<EnumClass>, k: nat, n: nat, line: nat)
    requires k < n <= |enums| && Replacements(enums, n).Some?
    requires forall j :: k < j < n ==> !Touches(enums[j], line)
    ensures Replacements(enums, k).Some? && ClassReplacements(Replacements(enums, k).value, enums[k]).Some?
    ensures var own := ClassReplacements(Replacements(enums, k).value, enums[k]).value;
      (line in Replacements(enums, n).value <==> line in own)
      && (line in own ==> Replacements(enums, n).value[line] == own[line])
    decreases n
  {
    if k < n - 1 {
      LastTouch(enums, k, n - 1, line);
      var e := enums[n - 1];
      assert !Touches(e, line);
      MembersLeave(Replacements(enums, n - 1).value, e, |e.members|, line);
      if e.members != [] { assert e.members[|e.members| - 1].line != line; }
    }
  }

  lemma {:induction false} HeaderStays(r: Replacement, e: EnumClass, n: nat)
    requires n <= |e.members| && MemberReplacements(r, e, n).Some?
    requires forall m :: 0 <= m < n ==> e.members[m].line != e.header
    ensures e.header in MemberReplacements(r, e, n).value
    ensures MemberReplacements(r, e, n).value[e.header] == [HeaderLine(e.name)]
    decreases n
  {
    if n > 0 { HeaderStays(r, e, n - 1); }
  }

  lemma {:induction false} MemberStays(r: Replacement, e: EnumClass, m: nat, n: nat)
    requires m < n <= |e.members| && MemberReplacements(r, e, n).Some?
    requires forall l :: m < l < n ==> e.members[l].line != e.members[m].line
    ensures e.members[m].name.Some? && e.members[m].line in MemberReplacements(r, e, n).value
    ensures MemberReplacements(r, e, n).value[e.members[m].line] == [MemberLine(e.name, e.members[m].name.value)]
    decreases n
  {
    hide MemberLine, HeaderLine;
    if m < n - 1 { MemberStays(r, e, m, n - 1); }
  }

  /** The last class on the line is `k`, and it is the header of that class. */
  ghost predicate OwnsHeader(enums: seq<EnumClass>, k: nat) {
    && k < |enums|
    && (forall j :: k < j < |enums| ==> !Touches(enums[j], enums[k].header))
    && (forall m :: 0 <= m < |enums[k].members| ==> enums[k].members[m].line != enums[k].header)
  }

  /** The last class on the line is `k`, and its last member there is `m`. */
  ghost predicate OwnsMember(enums: seq<EnumClass>, k: nat, m: nat) {
    && k < |enums| && m < |enums[k].members|
    && (forall j :: k < j < |enums| ==> !Touches(enums[j], enums[k].members[m].line))
    && (forall l :: m < l < |enums[k].members| ==> enums[k].members[l].line != enums[k].members[m].line)
  }

  lemma HeaderText(enums: seq<EnumClass>, k: nat)
    requires Replacements(enums, |enums|).Some? && OwnsHeader(enums, k)
    ensures var r := Replacements(enums, |enums|).value;
      enums[k].header in r && r[enums[k].header] == ["class " + enums[k].name + ":"]
  {
    var e := enums[k];
    LastTouch(enums, k, |enums|, e.header);
    HeaderStays(Replacements(enums, k).value, e, |e.members|);
    assert e.members[|e.members| - 1].line != e.header;
  }

  /** The three lines after the last member. */
  function Inserted(name: string): seq<string> {
    ["    def __new__(cls, " + "_unconstructible: " + "typing.NoReturn) -> " + name + ": ...",
     "    def __int__(self)" + " -> builtins.int: ...",
     "    __hash__: " + "typing.ClassVar[None]" + "  # type: " + "ignore[assignment]"]
  }

  lemma InsertedLines(name: string)
    ensures [NewLine(name), INT_LINE, HASH_LINE] == Inserted(name)
  {
    FiveJoined("    def __new__(cls, ", "_unconstructible: ", "typing.NoReturn) -> ", name, ": ...");
    FourJoined("    __hash__: ", "typing.ClassVar[None]", "  # type: ", "ignore[assignment]");
  }

  lemma FiveJoined(a: string, b: string, c: string, d: string, e: string)
    ensures (a + (b + c)) + (d + e) == a + b + c + d + e
  {
  }

  lemma FourJoined(a: string, b: string, c: string, d: string)
    ensures a + (b + (c + d)) == a + b + c + d
  {
  }

  lemma MemberText(enums: seq<EnumClass>, k: nat, m: nat)
    requires Replacements(enums, |enums|).Some? && OwnsMember(enums, k, m)
    ensures var e, r := enums[k], Replacements(enums, |enums|).value;
      && e.members[m].name.Some? && e.members[m].line in r
      && r[e.members[m].line] ==
         ["    " + e.members[m].name.value + ": typing.ClassVar[" + e.name + "]"]
         + if m == |e.members| - 1 then Inserted(e.name) else []
  {
    var e := enums[k];
    InsertedLines(e.name);
    hide Inserted, NewLine;
    LastTouch(enums, k, |enums|, e.members[m].line);
    MemberStays(Replacements(enums, k).value, e, m, |e.members|);
    if m < |e.members| - 1 { assert e.members[|e.members| - 1].line != e.members[m].line; }
    var none: seq<string> := [];
    assert forall text: string :: [text] + none == [text];
    assert forall text: string :: [text] + [NewLine(e.name), INT_LINE, HASH_LINE]
                                  == [text, NewLine(e.name), INT_LINE, HASH_LINE];
  }

  /** The header of an enum class is in the result without its base. */
  lemma HeaderComesOut(parse: string -> Option<seq<EnumClass>>, t: string, r: Replacement, out: seq<string>, k: nat)
    requires ComesTo(parse, t, r, out) && OwnsHeader(parse(t).value, k)
    requires Apart(!UsesEnum(Expand(SplitLines(t), r)), SplitLines(t), r, parse(t).value[k].header)
    ensures var lines, e := SplitLines(t), parse(t).value[k];
      && Spot(lines, r, e.header) < |Expand(lines, r)|
      && var p := PlaceAt(!UsesEnum(Expand(lines, r)), lines, r, e.header, 0);
         p < |out| && out[p] == "class " + e.name + ":"
  {
    var i := parse(t).value[k].header;
    HeaderText(parse(t).value, k);
    hide Expand, UsesEnum, SplitLines, Tidy, OwnsHeader, Replacements;
    LinesComeOut(parse, t, r, out, i, 0);
    hide AllInert;
    PartIsTidy(r, i, 0);
  }

  lemma MemberFirst(
    parse: string -> Option<seq<EnumClass>>, t: string, r: Replacement, out: seq<string>, k: nat, m: nat)
    requires ComesTo(parse, t, r, out) && OwnsMember(parse(t).value, k, m)
    ensures var e := parse(t).value[k];
      && e.members[m].name.Some? && e.members[m].line in r && r[e.members[m].line] != []
      && r[e.members[m].line][0] == "    " + e.members[m].name.value + ": typing.ClassVar[" + e.name + "]"
  {
    hide Inserted;
    MemberText(parse(t).value, k, m);
  }

  lemma MemberLast(
    parse: string -> Option<seq<EnumClass>>, t: string, r: Replacement, out: seq<string>, k: nat, m: nat)
    requires ComesTo(parse, t, r, out) && OwnsMember(parse(t).value, k, m) && m == |parse(t).value[k].members| - 1
    ensures var i := parse(t).value[k].members[m].line;
      i in r && |r[i]| == 4 && r[i][1..] == Inserted(parse(t).value[k].name)
  {
    InsertedLines(parse(t).value[k].name);
    hide Inserted, NewLine;
    MemberText(parse(t).value, k, m);
  }

  /** Each member of an enum class is in the result as a typed class variable. */
  lemma MemberComesOut(
    parse: string -> Option<seq<EnumClass>>, t: string, r: Replacement, out: seq<string>, k: nat, m: nat)
    requires ComesTo(parse, t, r, out) && parse(t).Some?
    requires k < |parse(t).value| && m < |parse(t).value[k].members|
    requires OwnsMember(parse(t).value, k, m)
    requires Apart(!UsesEnum(Expand(SplitLines(t), r)), SplitLines(t), r, parse(t).value[k].members[m].line)
    ensures var lines, e := SplitLines(t), parse(t).value[k];
      && e.members[m].name.Some? && Spot(lines, r, e.members[m].line) < |Expand(lines, r)|
      && var p := PlaceAt(!UsesEnum(Expand(lines, r)), lines, r, e.members[m].line, 0);
         p < |out| && out[p] == "    " + e.members[m].name.value + ": typing.ClassVar[" + e.name + "]"
  {
    hide *;
    MemberFirst(parse, t, r, out, k, m);
    ReplacedComesOut(parse, t, r, out, parse(t).value[k].members[m].line, 0);
  }

  /** Below the last one stand the three lines that make the class one without constructor. */
  lemma InsertedComeOut(
    parse: string -> Option<seq<EnumClass>>, t: string, r: Replacement, out: seq<string>, k: nat, m: nat)
    requires ComesTo(parse, t, r, out) && parse(t).Some?
    requires k < |parse(t).value| && m < |parse(t).value[k].members|
    requires OwnsMember(parse(t).value, k, m) && m == |parse(t).value[k].members| - 1
    requires Apart(!UsesEnum(Expand(SplitLines(t), r)), SplitLines(t), r, parse(t).value[k].members[m].line)
    ensures var lines, e := SplitLines(t), parse(t).value[k];
      && Spot(lines, r, e.members[m].line) < |Expand(lines, r)|
      && var p := PlaceAt(!UsesEnum(Expand(lines, r)), lines, r, e.members[m].line, 0);
         p + 4 <= |out| && out[p + 1..p + 4] == Inserted(e.name)
  {
    hide *;
    MemberLast(parse, t, r, out, k, m);
    var i := parse(t).value[k].members[m].line;
    ReplacedComesOut(parse, t, r, out, i, 1);
    ReplacedComesOut(parse, t, r, out, i, 2);
    ReplacedComesOut(parse, t, r, out, i, 3);
    ThreeBelow(out, PlaceAt(!UsesEnum(Expand(SplitLines(t), r)), SplitLines(t), r, i, 0), r[i]);
  }

  lemma ThreeBelow(out: seq<string>, p: nat, part: seq<string>)
    requires |part| == 4 && p + 3 < |out|
    requires out[p + 1] == part[1] && out[p + 2] == part[2] && out[p + 3] == part[3]
    ensures out[p + 1..p + 4] == part[1..]
  {
  }

  /** The parts that replace a line come out one below the other. */
  lemma ReplacedComesOut(
    parse: string -> Option<seq<EnumClass>>, t: string, r: Replacement, out: seq<string>, i: nat, l: nat)
    requires ComesTo(parse, t, r, out) && i in r && l < |r[i]|
    requires Apart(!UsesEnum(Expand(SplitLines(t), r)), SplitLines(t), r, i)
    ensures var lines := SplitLines(t);
      && i < |lines| && Spot(lines, r, i) < |Expand(lines, r)|
      && var p := PlaceAt(!UsesEnum(Expand(lines, r)), lines, r, i, 0);
         p + l < |out| && out[p + l] == r[i][l]
  {
    hide Expand, UsesEnum, SplitLines, Tidy, Replacements, ComesTo;
    LinesComeOut(parse, t, r, out, i, l);
    PartIsTidy(r, i, l);
    PlacesBelow(!UsesEnum(Expand(SplitLines(t), r)), SplitLines(t), r, i, l);
  }

  lemma {:induction false} PlacesBelow(glue: bool, lines: seq<string>, r: Replacement, i: nat, k: nat)
    requires AllInert(r) && Apart(glue, lines, r, i) && k < |Parts(lines, r, i)|
    ensures Spot(lines, r, i) + k < |Expand(lines, r)|
    ensures PlaceAt(glue, lines, r, i, k) == PlaceAt(glue, lines, r, i, 0) + k
    decreases k
  {
    hide Expand, AllInert, Spot, ImportEnds;
    PartAt(lines, r, i, k);
    if k > 0 {
      PlacesBelow(glue, lines, r, i, k - 1);
      PlacesInOrder(glue, lines, r, i, k - 1, i, k);
    }
  }
}
