/** When rewriting a stub twice is rewriting it once, and what survives the rewriting. */
module StubTextTheorems {
  import opened Wrappers
  import opened Text
  import opened StubText

  // ---- One line ----

  lemma {:induction false} IndentOfJoined(blanks: string, rest: string)
    requires forall i :: 0 <= i < |blanks| ==> blanks[i] in " \t"
    requires rest != "" && rest[0] !in " \t"
    ensures Indent(blanks + rest) == |blanks|
    decreases blanks
  {
    if blanks == "" {
      assert blanks + rest == rest;
    } else {
      assert (blanks + rest)[1..] == blanks[1..] + rest;
      IndentOfJoined(blanks[1..], rest);
    }
  }

  lemma {:induction false} IndentIsBlank(line: string)
    ensures forall i :: 0 <= i < Indent(line) ==> line[i] in " \t"
    decreases line
  {
    if line != "" && line[0] in " \t" {
      IndentIsBlank(line[1..]);
    }
  }

  /** The seventh character after the indent tells the two heads apart. */
  lemma HeadChar(line: string, k: nat)
    requires FoundAt(line, NEW_HEAD, k)
    ensures k + 6 < |line| && line[k + 6] == 'n'
  {
    assert line[k + 6] == line[k..k + |NEW_HEAD|][6] == NEW_HEAD[6];
  }

  lemma InitChar(blanks: string, rest: string)
    ensures (blanks + (INIT_HEAD + rest))[|blanks| + 6] == 'i'
  {
    assert INIT_HEAD[6] == 'i';
  }

  lemma InitIsNoConstructor(blanks: string, rest: string)
    requires forall i :: 0 <= i < |blanks| ==> blanks[i] in " \t"
    ensures Constructor(blanks + (INIT_HEAD + rest)).None?
  {
    var line := blanks + (INIT_HEAD + rest);
    assert (INIT_HEAD + rest)[0] == 'd';
    IndentOfJoined(blanks, INIT_HEAD + rest);
    InitChar(blanks, rest);
    if FoundAt(line, NEW_HEAD, |blanks|) {
      HeadChar(line, |blanks|);
    }
  }

  /** A rewritten constructor is a different line that is no constructor any more. */
  lemma RewrittenOnce(line: string)
    requires Constructor(line).Some?
    ensures Constructor(RewriteConstructor(line)).None?
    ensures RewriteConstructor(line) != line
    ensures Rstrip(RewriteConstructor(line)) == RewriteConstructor(line)
  {
    var k := Indent(line);
    var rest := line[k + |NEW_HEAD|..Constructor(line).value] + ARROW + "None:";
    IndentIsBlank(line);
    InitIsNoConstructor(line[..k], rest);
    var rewritten := RewriteConstructor(line);
    assert rewritten[|rewritten| - 1] == rest[|rest| - 1] == "None:"[4] == ':';
  }

  /** A constructor that only shows once its trailing blanks are gone. */
  predicate Late(line: string) {
    Constructor(line).None? && Constructor(Rstrip(line)).Some?
  }

  /** Tidying a line twice is tidying it once exactly if it holds no late constructor. */
  lemma TidyTwice(line: string)
    ensures Tidy(Tidy(line)) == Tidy(line) <==> !Late(line)
    ensures Late(line) ==> Tidy(line) != ""
  {
    if Constructor(line).Some? {
      RewrittenOnce(line);
    } else if Constructor(Rstrip(line)).Some? {
      RewrittenOnce(Rstrip(line));
    }
  }

  lemma {:induction false} StrippedStays(line: string)
    requires line == "" || !IsSpace(line[|line| - 1])
    ensures Rstrip(line) == line && !Late(line)
  {
  }

  // ---- All lines ----

  lemma {:induction false} TrimmedAreBlank(lines: seq<string>, i: nat)
    requires |TrimBlank(lines)| <= i < |lines|
    ensures lines[i] == ""
    decreases |lines|
  {
    if i < |lines| - 1 {
      TrimmedAreBlank(lines[..|lines| - 1], i);
    }
  }

  ghost predicate NoLate(lines: seq<string>) {
    forall i :: 0 <= i < |lines| ==> !Late(lines[i])
  }

  /** Finishing lines a second time changes nothing exactly if there was no late constructor. */
  lemma FinishTwice(lines: seq<string>)
    ensures Finish(Finish(lines)) == Finish(lines) <==> NoLate(lines)
  {
    hide Tidy, Late;
    var out := Finish(lines);
    var again := TidyAll(out);
    forall i | 0 <= i < |out| ensures out[i] == Tidy(lines[i]) && (again[i] == out[i] <==> !Late(lines[i])) {
      assert out[i] == TidyAll(lines)[i];
      TidyTwice(lines[i]);
    }
    if NoLate(lines) {
      assert again == out;
    } else {
      var i :| 0 <= i < |lines| && Late(lines[i]);
      TidyTwice(lines[i]);
      if i >= |out| {
        TrimmedAreBlank(TidyAll(lines), i);
      }
      assert again[i] != out[i];
      assert |TrimBlank(again)| == |out| ==> TrimBlank(again) == again;
    }
  }

  // ---- The unused import ----

  predicate ImportEnds(lines: seq<string>, i: int) {
    0 <= i < |lines| - 1 && EndsWith(lines[i], IMPORT)
  }

  /** Merging shortens the text by one line for each import, or leaves it alone. */
  lemma {:induction false} MergeShortens(lines: seq<string>)
    ensures |Merge(lines)| <= |lines|
    ensures |Merge(lines)| == |lines| ==> Merge(lines) == lines
    ensures |Merge(lines)| == |lines| <==> forall i :: !ImportEnds(lines, i)
    decreases |lines|
  {
    if |lines| > 1 {
      var tail := lines[1..];
      MergeShortens(tail);
      forall i ensures ImportEnds(lines, i) <==> (i == 0 && EndsWith(lines[0], IMPORT)) || ImportEnds(tail, i - 1) {
        if 0 < i < |lines| {
          assert lines[i] == tail[i - 1];
        }
      }
      if EndsWith(lines[0], IMPORT) {
        assert ImportEnds(lines, 0);
        assert |Merge(lines)| < |lines|;
      } else if |Merge(lines)| == |lines| {
        assert Merge(lines) == [lines[0]] + tail == lines;
      } else if i :| ImportEnds(tail, i) {
        assert ImportEnds(lines, i + 1);
      }
    }
  }

  /** The result still has an import of enum although nothing uses it any more. */
  predicate UnusedImportLeft(out: seq<string>) {
    !UsesEnum(out) && exists i :: 0 <= i < |out| && ImportEnds(out, i)
  }

  ghost predicate OneLiners(lines: seq<string>) {
    forall i :: 0 <= i < |lines| ==> OneLine(lines[i])
  }

  lemma OneLineJoined(a: string, b: string)
    requires OneLine(a) && OneLine(b)
    ensures OneLine(a + b)
  {
  }

  lemma TidyOneLine(line: string)
    requires OneLine(line)
    ensures OneLine(Tidy(line))
  {
    if Constructor(line).Some? {
      var k := Indent(line);
      var params := line[k + |NEW_HEAD|..Constructor(line).value];
      OneLineJoined(params, ARROW);
      OneLineJoined(params + ARROW, "None:");
      OneLineJoined(INIT_HEAD, params + ARROW + "None:");
      OneLineJoined(line[..k], INIT_HEAD + (params + ARROW + "None:"));
    }
    PrefixOneLine(RewriteConstructor(line), Rstrip(RewriteConstructor(line)));
  }

  lemma PrefixOneLine(line: string, prefix: string)
    requires OneLine(line) && prefix <= line
    ensures OneLine(prefix)
  {
  }

  lemma FinishOneLiners(lines: seq<string>)
    requires OneLiners(lines)
    ensures OneLiners(Finish(lines))
  {
    forall i | 0 <= i < |Finish(lines)| ensures OneLine(Finish(lines)[i]) {
      assert Finish(lines)[i] == TidyAll(lines)[i];
      TidyOneLine(lines[i]);
    }
  }

  lemma {:induction false} MergeOneLiners(lines: seq<string>)
    requires OneLiners(lines)
    ensures OneLiners(Merge(lines))
    decreases |lines|
  {
    if |lines| > 1 {
      MergeOneLiners(lines[1..]);
    }
  }

  /** Joined results are equal only if their lines are: no result ends in a blank line. */
  lemma JoinInjective(a: seq<string>, b: seq<string>)
    requires OneLiners(a) && OneLiners(b) && JoinLines(a) == JoinLines(b)
    requires (a == [] || a[|a| - 1] != "") && (b == [] || b[|b| - 1] != "")
    ensures a == b
  {
    SplitReadsJoined(a);
    SplitReadsJoined(b);
    assert [""][0] == "";
  }

  /** A text without enum classes expands to its own lines. */
  lemma {:induction false} NothingToExpand(lines: seq<string>)
    ensures Expand(lines, map[]) == lines
    decreases |lines|
  {
    if lines != [] {
      NothingToExpand(lines[..|lines| - 1]);
      assert lines == lines[..|lines| - 1] + [lines[|lines| - 1]];
    }
  }

  /** What post_process does to a result that holds no enum class any more. */
  lemma SecondPass(parse: string -> Option<seq<EnumClass>>, out: seq<string>)
    requires OneLiners(out) && parse(JoinLines(out)) == Some([])
    ensures PostProcess(parse, JoinLines(out)) ==
            Some(JoinLines(Finish(DropImport(if out == [] then [""] else out))))
  {
    SplitReadsJoined(out);
    NothingToExpand(SplitLines(JoinLines(out)));
    var none: seq<EnumClass> := [];
    assert Replacements(none, |none|) == Some(map[]);
  }

  lemma FinishEnds(lines: seq<string>)
    ensures Finish(lines) == [] || Finish(lines)[|Finish(lines)| - 1] != ""
  {
    hide Tidy, TidyAll, TrimBlank;
  }

  lemma FinishLength(lines: seq<string>)
    ensures |Finish(lines)| <= |lines|
  {
  }

  lemma FinishDropped(lines: seq<string>)
    requires OneLiners(lines)
    ensures var out := Finish(lines);
            OneLiners(out) && (Finish(DropImport(out)) == out <==> NoLate(lines) && !UnusedImportLeft(out))
  {
    hide Finish, Merge;
    var out := Finish(lines);
    FinishOneLiners(lines);
    FinishTwice(lines);
    MergeShortens(out);
    FinishLength(Merge(out));
    if UnusedImportLeft(out) {
      var i :| 0 <= i < |out| && ImportEnds(out, i);
      assert |Merge(out)| < |out|;
    }
  }

  /** A name in a syntax tree: on one line and without a dot. */
  predicate IsName(name: string) {
    OneLine(name) && forall i :: 0 <= i < |name| ==> name[i] != '.'
  }

  ghost predicate Named(e: EnumClass) {
    && IsName(e.name)
    && forall m :: 0 <= m < |e.members| && e.members[m].name.Some? ==> IsName(e.members[m].name.value)
  }

  ghost predicate Identifiers(enums: seq<EnumClass>) {
    forall k :: 0 <= k < |enums| ==> Named(enums[k])
  }

  ghost predicate OneLineValues(r: Replacement) {
    forall i :: i in r ==> OneLiners(r[i])
  }

  lemma HeaderOneLine(name: string)
    requires OneLine(name)
    ensures OneLine(HeaderLine(name))
  {
    OneLineJoined("class ", name);
    OneLineJoined("class " + name, ":");
  }

  lemma MemberOneLine(name: string, member: string)
    requires OneLine(name) && OneLine(member)
    ensures OneLine(MemberLine(name, member))
  {
    OneLineJoined("    ", member);
    OneLineJoined("    " + member, ": typing.ClassVar[");
    OneLineJoined("    " + member + ": typing.ClassVar[", name);
    OneLineJoined("    " + member + ": typing.ClassVar[" + name, "]");
  }

  lemma NewOneLine(name: string)
    requires OneLine(name)
    ensures OneLine(NewLine(name))
  {
    StartOneLine();
    OneLineJoined(name, ": ...");
    OneLineJoined(NEW_START, name + ": ...");
  }

  lemma StartOneLine()
    ensures OneLine(NEW_START)
  {
    OneLineJoined("_unconstructible: ", "typing.NoReturn) -> ");
    OneLineJoined("    def __new__(cls, ", "_unconstructible: " + "typing.NoReturn) -> ");
  }

  lemma IntOneLine()
    ensures OneLine(INT_LINE)
  {
    OneLineJoined("    def __int__(self)", " -> builtins.int: ...");
  }

  lemma HashOneLine()
    ensures OneLine(HASH_LINE)
  {
    OneLineJoined("  # type: ", "ignore[assignment]");
    OneLineJoined("typing.ClassVar[None]", "  # type: " + "ignore[assignment]");
    OneLineJoined("    __hash__: ", "typing.ClassVar[None]" + ("  # type: " + "ignore[assignment]"));
  }

  lemma {:induction false} MembersOneLine(r: Replacement, e: EnumClass, n: nat)
    requires n <= |e.members| && OneLineValues(r) && Named(e)
    requires MemberReplacements(r, e, n).Some?
    ensures OneLineValues(MemberReplacements(r, e, n).value)
    decreases n
  {
    if n == 0 {
      HeaderOneLine(e.name);
    } else {
      MembersOneLine(r, e, n - 1);
      MemberOneLine(e.name, e.members[n - 1].name.value);
    }
  }

  lemma ClassOneLine(r: Replacement, e: EnumClass)
    requires OneLineValues(r) && Named(e) && ClassReplacements(r, e).Some?
    ensures OneLineValues(ClassReplacements(r, e).value)
  {
    hide NewLine;
    MembersOneLine(r, e, |e.members|);
    NewOneLine(e.name);
    IntOneLine();
    HashOneLine();
  }

  lemma {:induction false} ReplacementsOneLine(enums: seq<EnumClass>, n: nat)
    requires n <= |enums| && Identifiers(enums) && Replacements(enums, n).Some?
    ensures OneLineValues(Replacements(enums, n).value)
    decreases n
  {
    if n > 0 {
      ReplacementsOneLine(enums, n - 1);
      ClassOneLine(Replacements(enums, n - 1).value, enums[n - 1]);
    }
  }

  lemma {:induction false} ExpandOneLine(lines: seq<string>, r: Replacement)
    requires OneLiners(lines) && OneLineValues(r)
    ensures OneLiners(Expand(lines, r))
    decreases |lines|
  {
    if lines != [] {
      ExpandOneLine(lines[..|lines| - 1], r);
    }
  }

  lemma RewrittenOneLine(parse: string -> Option<seq<EnumClass>>, t: string)
    requires Rewritten(parse, t).Some? && Identifiers(parse(t).value)
    ensures OneLiners(Rewritten(parse, t).value)
  {
    var enums := parse(t).value;
    var r := Replacements(enums, |enums|).value;
    SplitGivesLines("", t);
    ReplacementsOneLine(enums, |enums|);
    ExpandOneLine(SplitLines(t), r);
    MergeOneLiners(Expand(SplitLines(t), r));
  }

  /** post_process applied to its own result changes nothing exactly if the rewritten lines hold no
      late constructor and their tidied form no unused import. StubTextTwice.PostProcessTwice puts
      this in terms of the text. */
  lemma TwiceByLines(parse: string -> Option<seq<EnumClass>>, t: string)
    requires PostProcess(parse, t).Some? && Identifiers(parse(t).value)
    requires parse(PostProcess(parse, t).value) == Some([])
    ensures var lines := Rewritten(parse, t).value;
            PostProcess(parse, PostProcess(parse, t).value) == PostProcess(parse, t)
            <==> NoLate(lines) && !UnusedImportLeft(Finish(lines))
  {
    hide Finish, DropImport, JoinLines, Rewritten;
    var lines := Rewritten(parse, t).value;
    var out := Finish(lines);
    FinishEnds(lines);
    RewrittenOneLine(parse, t);
    FinishDropped(lines);
    SecondPass(parse, out);
    SameText(out, if out == [] then [""] else out);
  }

  lemma SameText(out: seq<string>, start: seq<string>)
    requires OneLiners(out) && (out == [] || out[|out| - 1] != "")
    requires start == if out == [] then [""] else out
    ensures JoinLines(Finish(DropImport(start))) == JoinLines(out) <==> Finish(DropImport(out)) == out
  {
    BlankStart(out, start);
    FinishDroppedOneLiners(out);
    var again := Finish(DropImport(out));
    if JoinLines(again) == JoinLines(out) {
      JoinInjective(again, out);
    }
  }

  lemma FinishDroppedOneLiners(lines: seq<string>)
    requires OneLiners(lines)
    ensures OneLiners(Finish(DropImport(lines)))
  {
    MergeOneLiners(lines);
    FinishOneLiners(DropImport(lines));
  }

  lemma BlankStart(out: seq<string>, start: seq<string>)
    requires start == if out == [] then [""] else out
    ensures Finish(DropImport(start)) == Finish(DropImport(out))
  {
    if out == [] {
      assert DropImport(out) == [] && DropImport(start) == start;
      assert TidyAll(start) == start;
      assert TrimBlank(start) == TrimBlank(start[..0]) == [];
    }
  }

  /** Rewritten lines without trailing blanks hide no constructor. */
  lemma CleanLinesHideNothing(lines: seq<string>)
    requires forall i :: 0 <= i < |lines| ==> lines[i] == "" || !IsSpace(lines[i][|lines[i]| - 1])
    ensures NoLate(lines)
  {
    forall i | 0 <= i < |lines| ensures !Late(lines[i]) {
      StrippedStays(lines[i]);
    }
  }

  // ---- What occurs where ----

  lemma NoDotNoQualifier(line: string)
    requires forall i :: 0 <= i < |line| ==> line[i] != '.'
    ensures !Contains(line, QUALIFIER)
  {
    forall i ensures !FoundAt(line, QUALIFIER, i) {
      CharOf(line, QUALIFIER, i, 4);
      assert QUALIFIER[4] == '.';
    }
  }

  // ---- What is kept ----

  function WithoutImports(lines: seq<string>): seq<string> {
    if lines == [] then []
    else if lines[0] == IMPORT then WithoutImports(lines[1..])
    else [lines[0]] + WithoutImports(lines[1..])
  }

  /** If every line that ends in "import enum" is just that, merging drops exactly those lines
      (the last line, which no newline follows, is kept in any case). */
  lemma {:induction false} MergeDropsImports(lines: seq<string>)
    requires lines != []
    requires forall i :: ImportEnds(lines, i) ==> lines[i] == IMPORT
    ensures Merge(lines) == WithoutImports(lines[..|lines| - 1]) + [lines[|lines| - 1]]
    decreases |lines|
  {
    if |lines| == 1 {
      assert lines[..0] == [];
    } else {
      var tail := lines[1..];
      forall i | ImportEnds(tail, i) ensures tail[i] == IMPORT {
        assert ImportEnds(lines, i + 1);
      }
      MergeDropsImports(tail);
      assert lines[..|lines| - 1][1..] == tail[..|tail| - 1];
      assert EndsWith(lines[0], IMPORT) ==> ImportEnds(lines, 0);
      var rest := Merge(tail);
      if lines[0] == IMPORT {
        assert IMPORT[..0] + rest[0] == rest[0];
        assert [rest[0]] + rest[1..] == rest;
        assert EndsWith(IMPORT, IMPORT);
      }
    }
  }

  /** Otherwise text is lost: what stands before the import on its line is glued to the next line,
      as in "from a import enum". */
  lemma ImportFromIsGlued(before: string, next: string)
    ensures Merge([before + IMPORT, next]) == [before + next]
  {
    var lines := [before + IMPORT, next];
    assert lines[1..] == [next];
    assert (before + IMPORT)[|before|..] == IMPORT && (before + IMPORT)[..|before|] == before;
  }

  /** A line that is neither an import of enum nor follows one comes through the merge whole. */
  lemma {:induction false} KeptByMerge(lines: seq<string>, i: nat) returns (p: nat)
    requires i < |lines| && !ImportEnds(lines, i) && !ImportEnds(lines, i - 1)
    ensures p < |Merge(lines)| && Merge(lines)[p] == lines[i]
    ensures i > 0 ==> p > 0
    decreases |lines|
  {
    p := 0;
    if i > 0 {
      var tail := lines[1..];
      assert forall k :: ImportEnds(tail, k) ==> ImportEnds(lines, k + 1);
      p := KeptByMerge(tail, i - 1);
      if !EndsWith(lines[0], IMPORT) {
        p := p + 1;
      } else {
        assert ImportEnds(lines, 0);
      }
    }
  }

  lemma NotBlankStays(lines: seq<string>, i: nat)
    requires i < |lines| && Tidy(lines[i]) != ""
    ensures i < |Finish(lines)| && Finish(lines)[i] == Tidy(lines[i])
  {
    if i >= |Finish(lines)| {
      TrimmedAreBlank(TidyAll(lines), i);
    }
  }

  lemma NewLineEnds(name: string)
    ensures NewLine(name) != "" && NewLine(name)[|NewLine(name)| - 1] == '.'
  {
    assert ": ..."[4] == '.';
    assert NewLine(name)[|NewLine(name)| - 1] == (name + ": ...")[|name| + 4];
  }

  lemma MemberLineEnds(name: string, member: string)
    ensures MemberLine(name, member) != "" && MemberLine(name, member)[|MemberLine(name, member)| - 1] == ']'
  {
  }

  lemma EndOfImport(line: string)
    requires EndsWith(line, IMPORT)
    ensures line != "" && line[|line| - 1] == 'm'
  {
    assert line[|line| - 1] == line[|line| - |IMPORT|..][|IMPORT| - 1] == IMPORT[|IMPORT| - 1];
  }

  lemma {:induction false} ExpandHas(lines: seq<string>, r: Replacement, m: nat) returns (p: nat)
    requires m < |lines| && m in r
    ensures p + |r[m]| <= |Expand(lines, r)| && Expand(lines, r)[p..p + |r[m]|] == r[m]
    decreases |lines|
  {
    var last := |lines| - 1;
    var before := Expand(lines[..last], r);
    if m == last {
      p := |before|;
    } else {
      p := ExpandHas(lines[..last], r, m);
      assert Expand(lines, r)[p..p + |r[m]|] == before[p..p + |r[m]|];
    }
  }

  /** The constructor that no caller can use, inserted after an enum's last member, is in the
      result: neither the constructor rewrite nor the import removal touches it. */
  lemma UnconstructibleSurvives(
      parse: string -> Option<seq<EnumClass>>, t: string, r: Replacement, m: nat, name: string, member: string)
    requires parse(t).Some? && Replacements(parse(t).value, |parse(t).value|) == Some(r)
    requires m < |SplitLines(t)| && m in r
    requires r[m] == [MemberLine(name, member), NewLine(name), INT_LINE, HASH_LINE]
    ensures Rewritten(parse, t).Some? && NewLine(name) in Finish(Rewritten(parse, t).value)
  {
    hide Expand, Merge, TidyAll, TrimBlank, UsesEnum, SplitLines, NewLine, MemberLine, Replacements, Tidy;
    var expanded := Expand(SplitLines(t), r);
    var p := ExpandHas(SplitLines(t), r, m);
    assert expanded[p] == expanded[p..p + 4][0] && expanded[p + 1] == expanded[p..p + 4][1];
    var at := InsertedKept(expanded, p, name, member);
    NewLineEnds(name);
    StrippedStays(NewLine(name));
    NotConstructor(NewLine(name));
    NotBlankStays(DropImport(expanded), at);
  }

  lemma NotConstructor(line: string)
    requires line != "" && line[|line| - 1] == '.'
    ensures Tidy(line) == line
  {
    StrippedStays(line);
  }

  lemma InsertedKept(lines: seq<string>, p: nat, name: string, member: string) returns (at: nat)
    requires p + 1 < |lines| && lines[p] == MemberLine(name, member) && lines[p + 1] == NewLine(name)
    ensures at < |DropImport(lines)| && DropImport(lines)[at] == NewLine(name)
  {
    NewLineEnds(name);
    MemberLineEnds(name, member);
    if ImportEnds(lines, p) {
      EndOfImport(lines[p]);
    }
    if ImportEnds(lines, p + 1) {
      EndOfImport(lines[p + 1]);
    }
    at := KeptByMerge(lines, p + 1);
    if UsesEnum(lines) {
      at := p + 1;
    }
  }

  /** Line `m` is the class's header or one of its assignments. */
  ghost predicate Touches(e: EnumClass, m: nat) {
    e.header == m || exists i :: 0 <= i < |e.members| && e.members[i].line == m
  }

  lemma {:induction false} MembersLeave(r: Replacement, e: EnumClass, n: nat, m: nat)
    requires n <= |e.members| && MemberReplacements(r, e, n).Some? && !Touches(e, m)
    ensures m in MemberReplacements(r, e, n).value <==> m in r
    ensures m in r ==> MemberReplacements(r, e, n).value[m] == r[m]
    decreases n
  {
    if n > 0 {
      MembersLeave(r, e, n - 1, m);
      assert e.members[n - 1].line != m;
    }
  }

  /** Every enum gets its inserted lines, unless a later class claims its last member's line. */
  lemma {:induction false} EnumGetsLines(enums: seq<EnumClass>, n: nat, k: nat)
    requires k < n <= |enums| && Replacements(enums, n).Some? && enums[k].members != []
    requires forall j :: k < j < n ==> !Touches(enums[j], LastLine(enums[k]))
    ensures var e := enums[k];
            var r := Replacements(enums, n).value;
            && LastLine(e) in r && e.members[|e.members| - 1].name.Some?
            && r[LastLine(e)] ==
               [MemberLine(e.name, e.members[|e.members| - 1].name.value), NewLine(e.name), INT_LINE, HASH_LINE]
    decreases n
  {
    var before := Replacements(enums, n - 1).value;
    if k < n - 1 {
      EnumGetsLines(enums, n - 1, k);
      var e := enums[n - 1];
      MembersLeave(before, e, |e.members|, LastLine(enums[k]));
      assert e.members[|e.members| - 1].line != LastLine(enums[k]);
    }
  }

  function LastLine(e: EnumClass): nat
    requires e.members != []
  {
    e.members[|e.members| - 1].line
  }
}
