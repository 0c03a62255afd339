/** Rewriting the text of a generated stub (crates/itofin-py/scripts/gen_stubs.py).

    Python's parser stays a parameter: `parse` answers, for a text, the classes that derive from
    enum.Enum with the lines of their header and of the assignments in their body, or None where
    ast.parse raises. Everything that is done with that answer is modelled. */
module StubText {
  import opened Wrappers
  import opened Text

  // ---- Lines ----

  /** Where `splitlines` breaks; "\r\n" is one break. */
  predicate IsBreak(c: char) {
    '\n' <= c <= '\r' || '\U{1c}' <= c <= '\U{1e}' || c == '\U{85}' || c == '\U{2028}' || c == '\U{2029}'
  }

  function LinesFrom(line: string, t: string): seq<string>
    decreases t
  {
    if t == "" then (if line == "" then [] else [line])
    else if t[0] == '\r' && |t| > 1 && t[1] == '\n' then [line] + LinesFrom("", t[2..])
    else if IsBreak(t[0]) then [line] + LinesFrom("", t[1..])
    else LinesFrom(line + [t[0]], t[1..])
  }

  function SplitLines(t: string): seq<string> {
    LinesFrom("", t)
  }

  /** The lines with a newline between them, and one at the end. */
  function JoinLines(lines: seq<string>): string {
    if lines == [] then "\n"
    else if |lines| == 1 then lines[0] + "\n"
    else lines[0] + "\n" + JoinLines(lines[1..])
  }

  predicate OneLine(line: string) {
    forall i :: 0 <= i < |line| ==> !IsBreak(line[i])
  }

  lemma {:induction false} LinesFromLine(before: string, line: string, t: string)
    requires OneLine(line)
    ensures LinesFrom(before, line + "\n" + t) == [before + line] + LinesFrom("", t)
    decreases line
  {
    var text := line + "\n" + t;
    if line == "" {
      assert text[1..] == t && before + line == before;
    } else {
      assert text[1..] == line[1..] + "\n" + t;
      assert before + line == before + [line[0]] + line[1..];
      LinesFromLine(before + [line[0]], line[1..], t);
    }
  }

  /** Splitting reads joined lines back; no lines at all are read as one empty line. */
  lemma {:induction false} SplitReadsJoined(lines: seq<string>)
    requires forall i :: 0 <= i < |lines| ==> OneLine(lines[i])
    ensures SplitLines(JoinLines(lines)) == if lines == [] then [""] else lines
    decreases |lines|
  {
    if lines == [] {
      LinesFromLine("", "", "");
      assert "" + "\n" + "" == "\n" && "" + "" == "";
    } else if |lines| == 1 {
      LinesFromLine("", lines[0], "");
      assert lines[0] + "\n" + "" == lines[0] + "\n" && "" + lines[0] == lines[0];
    } else {
      SplitReadsJoined(lines[1..]);
      LinesFromLine("", lines[0], JoinLines(lines[1..]));
      assert "" + lines[0] == lines[0];
      assert lines == [lines[0]] + lines[1..];
    }
  }

  lemma {:induction false} SplitGivesLines(line: string, t: string)
    requires OneLine(line)
    ensures forall i :: 0 <= i < |LinesFrom(line, t)| ==> OneLine(LinesFrom(line, t)[i])
    decreases t
  {
    if t != "" {
      if t[0] == '\r' && |t| > 1 && t[1] == '\n' {
        SplitGivesLines("", t[2..]);
      } else if IsBreak(t[0]) {
        SplitGivesLines("", t[1..]);
      } else {
        SplitGivesLines(line + [t[0]], t[1..]);
      }
    }
  }

  // ---- Constructors ----

  const NEW_HEAD := "def __new__(cls"
  const INIT_HEAD := "def __init__(self"
  const ARROW := ") -> "

  /** The length of the leading run of blanks and tabs. */
  function Indent(line: string): (k: nat)
    ensures k <= |line|
  {
    if line != "" && line[0] in " \t" then 1 + Indent(line[1..]) else 0
  }

  /** The last position before `k` at which `part` stands. */
  function LastAt(s: string, part: string, k: nat): (r: Option<nat>)
    ensures r.Some? ==> r.value < k && FoundAt(s, part, r.value)
    ensures r.None? ==> forall i :: 0 <= i < k ==> !FoundAt(s, part, i)
  {
    if k == 0 then None else if FoundAt(s, part, k - 1) then Some(k - 1) else LastAt(s, part, k - 1)
  }

  /** The pattern CTOR: blanks, the head, parameters up to the last arrow that is followed by at
      least one character and the final colon. Some(end of the parameters) if the line matches. */
  function Constructor(line: string): (r: Option<nat>)
    ensures r.Some? ==> Indent(line) + |NEW_HEAD| <= r.value < |line| && FoundAt(line, NEW_HEAD, Indent(line))
    ensures r.Some? ==> line[|line| - 1] == ':'
  {
    var from := Indent(line) + |NEW_HEAD|;
    if !FoundAt(line, NEW_HEAD, Indent(line)) || |line| < from + |ARROW| + 2 || line[|line| - 1] != ':' then None
    else
      match LastAt(line[from..], ARROW, |line| - |ARROW| - 1 - from)
      case None => None
      case Some(k) => Some(from + k)
  }

  /** rewrite_constructor */
  function RewriteConstructor(line: string): string {
    match Constructor(line)
    case None => line
    case Some(k) =>
      line[..Indent(line)] + (INIT_HEAD + (line[Indent(line) + |NEW_HEAD|..k] + ARROW + "None:"))
  }

  function Rstrip(s: string): (r: string)
    ensures r <= s
    ensures r == "" || !IsSpace(r[|r| - 1])
  {
    if s != "" && IsSpace(s[|s| - 1]) then Rstrip(s[..|s| - 1]) else s
  }

  function Tidy(line: string): string {
    Rstrip(RewriteConstructor(line))
  }

  // ---- Enums ----

  /** An assignment in a class body: its line, and its target's name if it has the shape `name = ...`. */
  datatype Member = Member(line: nat, name: Option<string>)

  /** A class that derives from enum.Enum: the index of its header line, its name, its assignments. */
  datatype EnumClass = EnumClass(header: nat, name: string, members: seq<Member>)

  function HeaderLine(name: string): string { "class " + name + ":" }

  function MemberLine(name: string, member: string): string {
    "    " + member + ": typing.ClassVar[" + name + "]"
  }

  function NewLine(name: string): string {
    NEW_START + (name + ": ...")
  }

  // Long literals in pieces.
  const NEW_START := "    def __new__(cls, " + ("_unconstructible: " + "typing.NoReturn) -> ")
  const INT_LINE := "    def __int__(self)" + " -> builtins.int: ..."
  const HASH_LINE := "    __hash__: " + ("typing.ClassVar[None]" + ("  # type: " + "ignore[assignment]"))

  type Replacement = map<nat, seq<string>>

  /** The dictionary after the first `n` members of a class. */
  function MemberReplacements(r: Replacement, e: EnumClass, n: nat): Option<Replacement>
    requires n <= |e.members|
  {
    if n == 0 then Some(r[e.header := [HeaderLine(e.name)]])
    else
      var before := MemberReplacements(r, e, n - 1);
      var m := e.members[n - 1];
      if before.None? || m.name.None? then None
      else Some(before.value[m.line := [MemberLine(e.name, m.name.value)]])
  }

  /** The dictionary after a class; None where the code raises. */
  function ClassReplacements(r: Replacement, e: EnumClass): Option<Replacement> {
    var members := MemberReplacements(r, e, |e.members|);
    if e.members == [] || members.None? then None
    else
      var last := e.members[|e.members| - 1].line;
      assert last in members.value;
      Some(members.value[last := members.value[last] + [NewLine(e.name), INT_LINE, HASH_LINE]])
  }

  function Replacements(enums: seq<EnumClass>, n: nat): Option<Replacement>
    requires n <= |enums|
  {
    if n == 0 then Some(map[])
    else
      var before := Replacements(enums, n - 1);
      if before.None? then None else ClassReplacements(before.value, enums[n - 1])
  }

  /** Each line in turn, or what replaces it. */
  function Expand(lines: seq<string>, r: Replacement): seq<string> {
    if lines == [] then []
    else
      var last := |lines| - 1;
      Expand(lines[..last], r) + if last in r then r[last] else [lines[last]]
  }

  const IMPORT := "import enum"
  const QUALIFIER := "enum."

  /** Deleting every "import enum\n" from the joined lines. An occurrence ends a line; what stands
      before it on that line is glued to the next one. The last line has no newline. */
  function Merge(lines: seq<string>): seq<string> {
    if |lines| <= 1 then lines
    else
      var rest := Merge(lines[1..]);
      if EndsWith(lines[0], IMPORT) then
        assert |rest| > 0;
        [lines[0][..|lines[0]| - |IMPORT|] + rest[0]] + rest[1..]
      else [lines[0]] + rest
  }

  /** Whether "enum." occurs in the joined lines; it cannot span two. */
  predicate UsesEnum(lines: seq<string>) {
    exists i :: 0 <= i < |lines| && Contains(lines[i], QUALIFIER)
  }

  function DropImport(lines: seq<string>): seq<string> {
    if UsesEnum(lines) then lines else Merge(lines)
  }

  // ---- The whole rewrite ----

  function TidyAll(lines: seq<string>): seq<string> {
    seq(|lines|, i requires 0 <= i < |lines| => Tidy(lines[i]))
  }

  function TrimBlank(lines: seq<string>): (r: seq<string>)
    ensures r <= lines
    ensures r == [] || r[|r| - 1] != ""
  {
    if lines != [] && lines[|lines| - 1] == "" then TrimBlank(lines[..|lines| - 1]) else lines
  }

  /** post_process after the enum classes have been rewritten. */
  function Finish(lines: seq<string>): seq<string> {
    TrimBlank(TidyAll(lines))
  }

  /** The lines of the text with those of its enum classes replaced. */
  function Expanded(parse: string -> Option<seq<EnumClass>>, t: string): Option<seq<string>> {
    match parse(t)
    case None => None
    case Some(enums) =>
      match Replacements(enums, |enums|)
      case None => None
      case Some(r) => Some(Expand(SplitLines(t), r))
  }

  /** rewrite_enums, as lines. */
  function Rewritten(parse: string -> Option<seq<EnumClass>>, t: string): Option<seq<string>> {
    match Expanded(parse, t)
    case None => None
    case Some(lines) => Some(DropImport(lines))
  }

  /** post_process; None where the code raises. */
  function PostProcess(parse: string -> Option<seq<EnumClass>>, t: string): Option<string> {
    match Rewritten(parse, t)
    case None => None
    case Some(lines) => Some(JoinLines(Finish(lines)))
  }

  // ---- The loops of the code ----

  /** The loop over a class's members, and the three lines after the last one. */
  method ReplaceClass(r: Replacement, e: EnumClass) returns (next: Option<Replacement>)
    ensures next == ClassReplacements(r, e)
  {
    var replacements := r[e.header := [HeaderLine(e.name)]];
    if e.members == [] {
      return None;
    }
    for n := 0 to |e.members|
      invariant MemberReplacements(r, e, n) == Some(replacements)
    {
      var m := e.members[n];
      if m.name.None? {
        NoneStays(r, e, n + 1, |e.members|);
        return None;
      }
      replacements := replacements[m.line := [MemberLine(e.name, m.name.value)]];
    }
    var last := e.members[|e.members| - 1].line;
    next := Some(replacements[last := replacements[last] + [NewLine(e.name), INT_LINE, HASH_LINE]]);
  }

  lemma {:induction false} NoneStays(r: Replacement, e: EnumClass, m: nat, n: nat)
    requires m <= n <= |e.members| && MemberReplacements(r, e, m).None?
    ensures MemberReplacements(r, e, n).None?
    decreases n
  {
    if m < n {
      NoneStays(r, e, m, n - 1);
    }
  }

  lemma {:induction false} NoneStaysNone(enums: seq<EnumClass>, m: nat, n: nat)
    requires m <= n <= |enums| && Replacements(enums, m).None?
    ensures Replacements(enums, n).None?
    decreases n
  {
    if m < n {
      NoneStaysNone(enums, m, n - 1);
    }
  }

  /** rewrite_enums. */
  method RewriteEnums(parse: string -> Option<seq<EnumClass>>, t: string) returns (lines: Option<seq<string>>)
    ensures lines == Rewritten(parse, t)
  {
    var enums := parse(t);
    if enums.None? {
      return None;
    }
    var replacements: Option<Replacement> := Some(map[]);
    for n := 0 to |enums.value|
      invariant replacements.Some? && replacements == Replacements(enums.value, n)
    {
      replacements := ReplaceClass(replacements.value, enums.value[n]);
      if replacements.None? {
        NoneStaysNone(enums.value, n + 1, |enums.value|);
        return None;
      }
    }
    lines := Some(DropImport(Expand(SplitLines(t), replacements.value)));
  }

  /** post_process: lines are tidied one by one, then blank ones popped off the end. */
  method Process(parse: string -> Option<seq<EnumClass>>, t: string) returns (r: Option<string>)
    ensures r == PostProcess(parse, t)
  {
    hide Rewritten, Tidy;
    var rewritten := RewriteEnums(parse, t);
    if rewritten.None? {
      return None;
    }
    var lines: seq<string> := [];
    for i := 0 to |rewritten.value|
      invariant |lines| == i && forall j :: 0 <= j < i ==> lines[j] == Tidy(rewritten.value[j])
    {
      lines := lines + [Tidy(rewritten.value[i])];
    }
    assert lines == TidyAll(rewritten.value);
    while lines != [] && lines[|lines| - 1] == ""
      invariant TrimBlank(lines) == Finish(rewritten.value)
      decreases |lines|
    {
      lines := lines[..|lines| - 1];
    }
    r := Some(JoinLines(lines));
  }
}
