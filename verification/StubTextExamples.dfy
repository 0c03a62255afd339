/** Texts that post_process changes again when it is applied to its own result, and text it loses. */
module StubTextExamples {
  import opened Wrappers
  import opened Text
  import opened StubText
  import opened StubTextTheorems
  import opened StubTextPlaces
  import opened StubTextTwice

  /** A parser for texts without enum classes. */
  function NoEnums(): string -> Option<seq<EnumClass>> { (t: string) => Some([]) }

  /** Two passes do to such a text what one does exactly if its lines are settled. */
  lemma TwiceOnLines(lines: seq<string>)
    requires OneLiners(lines) && lines != []
    ensures var t := JoinLines(lines);
      && PostProcess(NoEnums(), t).Some?
      && (PostProcess(NoEnums(), PostProcess(NoEnums(), t).value) == PostProcess(NoEnums(), t) <==> Settled(lines))
  {
    hide DropImport, Finish, Settled, JoinLines;
    var t := JoinLines(lines);
    SplitReadsJoined(lines);
    NothingToExpand(lines);
    var none: seq<EnumClass> := [];
    assert Replacements(none, |none|) == Some(map[]);
    assert Expanded(NoEnums(), t) == Some(lines);
    PostProcessTwice(NoEnums(), t);
  }

  lemma {:induction false} OnlyFirst(s: string, part: string, n: nat)
    requires n > 0 && part != "" && FoundAt(s, part, 0)
    requires forall i :: 0 < i < n && i < |s| ==> s[i] != part[0]
    ensures LastAt(s, part, n) == Some(0)
    decreases n
  {
    if n > 1 {
      CharOf(s, part, n - 1, 0);
      OnlyFirst(s, part, n - 1);
    }
  }

  /** A constructor without parameters matches the pattern, whatever it is annotated to return. */
  lemma PlainIsConstructor(ret: string)
    requires ret != "" && forall i :: 0 <= i < |ret| ==> ret[i] != ')'
    ensures Constructor(Bare(ret)) == Some(|NEW_HEAD|) && Indent(Bare(ret)) == 0
  {
    var tail := ARROW + ret + ":";
    var line := NEW_HEAD + tail;
    assert NEW_HEAD[0] == 'd';
    assert Indent(line) == 0;
    assert line[0..0 + |NEW_HEAD|] == NEW_HEAD;
    assert line[|NEW_HEAD|..] == tail;
    assert tail[0..0 + |ARROW|] == ARROW;
    assert ARROW[0] == ')' && forall i :: 0 < i < |ARROW| ==> ARROW[i] != ')';
    OnlyFirst(tail, ARROW, |line| - |ARROW| - 1 - |NEW_HEAD|);
  }

  /** Its rewriting does not depend on the annotation. */
  lemma PlainConstructor(ret: string)
    requires ret != "" && forall i :: 0 <= i < |ret| ==> ret[i] != ')'
    ensures Tidy(NEW_HEAD + (ARROW + ret + ":")) == INIT_HEAD + ARROW + "None:"
  {
    hide Rstrip, Constructor;
    var line := Bare(ret);
    PlainIsConstructor(ret);
    assert line[..0] == "" && line[|NEW_HEAD|..|NEW_HEAD|] == "";
    RewrittenOnce(line);
    assert RewriteConstructor(line) == INIT_HEAD + ARROW + "None:";
  }

  lemma QualifierShows(name: string)
    ensures Contains(NEW_HEAD + (ARROW + (QUALIFIER + name) + ":"), QUALIFIER)
  {
    ContainsIn(NEW_HEAD + ARROW, QUALIFIER, name + ":");
    assert NEW_HEAD + (ARROW + (QUALIFIER + name) + ":") == NEW_HEAD + ARROW + QUALIFIER + (name + ":");
  }

  lemma NoParenthesis(name: string)
    requires forall i :: 0 <= i < |name| ==> name[i] != ')'
    ensures forall i :: 0 <= i < |QUALIFIER + name| ==> (QUALIFIER + name)[i] != ')'
  {
    assert forall i :: 0 <= i < |QUALIFIER| ==> QUALIFIER[i] != ')';
  }

  lemma InitHasNoDot()
    ensures !Contains(INIT_HEAD + ARROW + "None:", QUALIFIER) && !Contains(IMPORT, QUALIFIER)
  {
    assert forall i :: 0 <= i < |INIT_HEAD| ==> INIT_HEAD[i] != '.';
    NoDotNoQualifier(INIT_HEAD + ARROW + "None:");
    NoDotNoQualifier(IMPORT);
  }

  // ---- A constructor behind a trailing blank ----

  const BLANK := " "

  /** A constructor without parameters, with its annotation and a trailing blank. */
  function Hidden(ret: string): string { Bare(ret) + BLANK }

  function Bare(ret: string): string { NEW_HEAD + (ARROW + ret + ":") }

  predicate PlainName(ret: string) {
    ret != "" && OneLine(ret) && forall i :: 0 <= i < |ret| ==> ret[i] != ')' && ret[i] != '.'
  }

  lemma HiddenIsLate(ret: string)
    requires PlainName(ret)
    ensures Late(Hidden(ret))
  {
    hide Constructor;
    var line, bare := Hidden(ret), Bare(ret);
    assert line[|line| - 1] == ' ' && line[..|line| - 1] == bare && bare[|bare| - 1] == ':';
    assert Rstrip(line) == bare;
    NoColonNoConstructor(line);
    PlainIsConstructor(ret);
  }

  lemma NoColonNoConstructor(line: string)
    requires line != "" && line[|line| - 1] != ':'
    ensures Constructor(line).None?
  {
  }

  lemma BareParts(ret: string)
    requires PlainName(ret)
    ensures OneLine(Bare(ret)) && OneLine(Hidden(ret))
    ensures !Contains(Bare(ret), QUALIFIER) && !Contains(Hidden(ret), QUALIFIER)
  {
    OneLineJoined(ARROW, ret);
    OneLineJoined(ARROW + ret, ":");
    OneLineJoined(NEW_HEAD, ARROW + ret + ":");
    OneLineJoined(Bare(ret), BLANK);
    assert forall i :: 0 <= i < |NEW_HEAD| ==> NEW_HEAD[i] != '.';
    assert forall i :: 0 <= i < |ARROW| ==> ARROW[i] != '.';
    NoDotNoQualifier(Bare(ret));
    NoDotNoQualifier(Hidden(ret));
  }

  /** The line of a function body that does nothing. */
  const BODY := "    ..."

  lemma BodyIsPlain()
    ensures OneLine(BODY) && Tidy(BODY) == BODY && !Contains(BODY, QUALIFIER) && CleanLine(BODY)
  {
    assert BODY[6] == '.';
    NoColonNoConstructor(BODY);
    assert Rstrip(BODY) == BODY;
    if i :| FoundAt(BODY, QUALIFIER, i) { CharOf(BODY, QUALIFIER, i, 0); }
    if EndsWith(BODY, IMPORT) { EndOfImport(BODY); }
  }

  /** The blank keeps the constructor from being rewritten in the first pass, which only strips it. */
  lemma HiddenConstructor(ret: string)
    requires PlainName(ret)
    ensures var t := JoinLines([Hidden(ret), BODY]);
      && PostProcess(NoEnums(), t).Some?
      && PostProcess(NoEnums(), PostProcess(NoEnums(), t).value) != PostProcess(NoEnums(), t)
  {
    var lines := [Hidden(ret), BODY];
    var line := lines[0];
    assert line[|line| - 1] == ' ';
    if EndsWith(line, IMPORT) { EndOfImport(line); }
    hide Hidden, Late, JoinLines, PostProcess;
    BareParts(ret);
    BodyIsPlain();
    HiddenIsLate(ret);
    TwiceOnLines(lines);
    assert Whole(!UsesEnum(lines), lines, 0) == Hidden(ret);
    assert Hides(!UsesEnum(lines), lines, 0);
  }

  // ---- A constructor that gluing hides ----

  const QUOTES := "\"\"\""

  /** Lines of a docstring, none with a trailing blank, of which the first after the quotes ends in
      the words of the import. */
  function Docstring(ret: string): seq<string> {
    [QUOTES, Hidden(ret) + IMPORT, "", QUOTES]
  }

  /** Dropping the import glues a blank line to the one before it, which is left with the blank that
      stood in front of the import; the rest is as above. */
  lemma GluedConstructor(ret: string)
    requires PlainName(ret)
    ensures forall i :: 0 <= i < 4 ==> var line := Docstring(ret)[i]; line == "" || !IsSpace(line[|line| - 1])
    ensures var t := JoinLines(Docstring(ret));
      && PostProcess(NoEnums(), t).Some?
      && PostProcess(NoEnums(), PostProcess(NoEnums(), t).value) != PostProcess(NoEnums(), t)
  {
    hide Hidden, Late, JoinLines, PostProcess;
    var lines := Docstring(ret);
    BareParts(ret);
    HiddenIsLate(ret);
    OneLineJoined(Hidden(ret), IMPORT);
    assert IMPORT[|IMPORT| - 1] == 'm' && (Hidden(ret) + IMPORT)[|Hidden(ret) + IMPORT| - 1] == 'm';
    assert OneLine(QUOTES) && OneLine("");
    TwiceOnLines(lines);
    DocstringUsesNoEnum(ret);
    DocstringGlues(ret);
    assert Hides(true, lines, 1);
  }

  lemma DocstringUsesNoEnum(ret: string)
    requires PlainName(ret)
    ensures !UsesEnum(Docstring(ret))
  {
    assert forall i :: 0 <= i < |NEW_HEAD| ==> NEW_HEAD[i] != '.';
    assert forall i :: 0 <= i < |ARROW| ==> ARROW[i] != '.';
    assert forall i :: 0 <= i < |IMPORT| ==> IMPORT[i] != '.';
    NoDotNoQualifier(Hidden(ret) + IMPORT);
    NoDotNoQualifier(QUOTES);
    NoDotNoQualifier("");
  }

  lemma DocstringGlues(ret: string)
    ensures Begins(true, Docstring(ret), 1) && Whole(true, Docstring(ret), 1) == Hidden(ret)
  {
    hide Hidden;
    var lines := Docstring(ret);
    assert QUOTES[|QUOTES| - 1] == '"';
    if EndsWith(QUOTES, IMPORT) { EndOfImport(QUOTES); }
    var line := lines[1];
    assert line[|line| - |IMPORT|..] == IMPORT && line[..|line| - |IMPORT|] == Hidden(ret);
    assert ImportEnds(lines, 1);
    assert !ImportEnds(lines, 2);
    assert Whole(true, lines, 2) == "";
    assert Hidden(ret) + "" == Hidden(ret);
  }

  // ---- An import whose last use is discarded ----

  /** A constructor without parameters that is annotated with a name from the enum module. */
  function Annotated(name: string): string { Bare(QUALIFIER + name) }

  lemma AnnotatedParts(name: string)
    requires PlainName(name)
    ensures OneLine(Annotated(name)) && Contains(Annotated(name), QUALIFIER)
    ensures Tidy(Annotated(name)) == INIT_HEAD + ARROW + "None:" && CleanLine(Annotated(name))
  {
    hide Tidy, Contains;
    OneLineJoined(QUALIFIER, name);
    OneLineJoined(ARROW, QUALIFIER + name);
    OneLineJoined(ARROW + (QUALIFIER + name), ":");
    OneLineJoined(NEW_HEAD, ARROW + (QUALIFIER + name) + ":");
    QualifierShows(name);
    NoParenthesis(name);
    PlainConstructor(QUALIFIER + name);
    AnnotatedIsClean(name);
  }

  lemma AnnotatedIsClean(name: string)
    ensures CleanLine(Annotated(name))
  {
    var line := Annotated(name);
    assert line[|line| - 1] == ':';
    if EndsWith(line, IMPORT) { EndOfImport(line); }
  }

  lemma ImportIsClean()
    ensures CleanLine(IMPORT) && OneLine(IMPORT)
  {
    assert IMPORT[|IMPORT| - 1] == 'm';
  }

  /** Where a constructor's return annotation is the last use of enum, the import survives the
      first pass, and a second one drops it. The text is clean. */
  lemma ImportOutlivesItsUse(name: string)
    requires PlainName(name)
    ensures var lines := [IMPORT, Annotated(name), BODY];
      var t := JoinLines(lines);
      && Clean(lines)
      && PostProcess(NoEnums(), t).Some?
      && PostProcess(NoEnums(), PostProcess(NoEnums(), t).value) != PostProcess(NoEnums(), t)
  {
    hide JoinLines, PostProcess, Tidy, Contains, Annotated, OneLine, CleanLine, Settled;
    var lines := [IMPORT, Annotated(name), BODY];
    AnnotatedParts(name);
    BodyIsPlain();
    ImportIsClean();
    ImportIsTidy();
    InitHasNoDot();
    TwiceOnLines(lines);
    assert Contains(lines[1], QUALIFIER);
    LastUseGone(lines);
  }

  lemma LastUseGone(lines: seq<string>)
    requires |lines| > 1 && UsesEnum(lines) && Tidy(lines[0]) == IMPORT && Tidy(lines[1]) != ""
    requires forall i :: 0 <= i < |lines| ==> !Contains(Tidy(lines[i]), QUALIFIER)
    ensures !Settled(lines)
  {
    hide Tidy, Contains;
    ImportIsTidy();
    assert Imports(false, lines, 0) && NotBlank(false, lines, 1);
    assert !Mentioned(false, lines);
    assert !SettledIf(false, lines);
  }
}
