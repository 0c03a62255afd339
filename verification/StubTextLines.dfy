/** What post_process makes of each line of a stub, in words: constructors, enum headers and members,
    and every other line; and that the lines come out in their order. */
module StubTextLines {
  import opened Wrappers
  import opened Text
  import opened StubText
  import opened StubTextTheorems

  // ---- Constructors ----

  /** The line has the shape of the pattern, with `params` up to the last arrow that something follows. */
  ghost predicate IsConstructor(line: string, blanks: string, params: string, ret: string) {
    && line == blanks + "def __new__(cls" + params + ") -> " + ret + ":"
    && (forall i :: 0 <= i < |blanks| ==> blanks[i] in " \t")
    && ret != ""
    && forall i :: 0 <= i < |ret| - 5 ==> !FoundAt(ret, ") -> ", i)
  }

  lemma {:induction false} LastAtIs(s: string, part: string, n: nat, k: nat)
    requires k < n && FoundAt(s, part, k) && forall i :: k < i < n ==> !FoundAt(s, part, i)
    ensures LastAt(s, part, n) == Some(k)
    decreases n
  {
    if k < n - 1 { LastAtIs(s, part, n - 1, k); }
  }

  /** Arrows do not overlap: after the one before it, any further one lies within the annotation. */
  lemma LaterArrow(params: string, ret: string, i: nat)
    requires |params| < i && FoundAt(params + (") -> " + (ret + ":")), ") -> ", i)
    requires i < |params| + |ret|
    ensures |params| + 5 <= i && FoundAt(ret, ") -> ", i - |params| - 5)
  {
    var tail := params + (") -> " + (ret + ":"));
    var k := i - |params|;
    assert tail[i..i + 5] == ") -> ";
    assert tail[i] == ')' && tail[i] == (") -> " + (ret + ":"))[k];
    assert ") -> "[1] == ' ' && ") -> "[2] == '-' && ") -> "[3] == '>' && ") -> "[4] == ' ';
    assert k >= 5;
    assert ret[k - 5..k] == tail[i..i + 5];
  }

  lemma Pieces(a: string, b: string, c: string)
    ensures var s := a + (b + c);
      && s[..|a|] == a && s[|a|..|a| + |b|] == b && s[|a| + |b|..] == c && |s| == |a| + |b| + |c|
      && (c != "" ==> s[|s| - 1] == c[|c| - 1])
  {
  }

  lemma Regrouped(a: string, b: string, c: string, d: string, e: string, f: string)
    ensures a + (b + (c + (d + (e + f)))) == a + b + c + d + e + f
  {
  }

  function Shape(blanks: string, params: string, ret: string): string {
    blanks + (NEW_HEAD + (params + (ARROW + (ret + ":"))))
  }

  predicate Plain(blanks: string, ret: string) {
    && (forall i :: 0 <= i < |blanks| ==> blanks[i] in " \t")
    && ret != "" && forall i :: 0 <= i < |ret| - |ARROW| ==> !FoundAt(ret, ARROW, i)
  }

  lemma ShapeIsConstructor(line: string, blanks: string, params: string, ret: string)
    ensures IsConstructor(line, blanks, params, ret) <==> line == Shape(blanks, params, ret) && Plain(blanks, ret)
  {
    assert |ARROW| == 5;
    Regrouped(blanks, NEW_HEAD, params, ARROW, ret, ":");
  }

  function AfterHead(params: string, ret: string): string {
    params + (ARROW + (ret + ":"))
  }

  lemma AfterHeadEnds(params: string, ret: string)
    ensures var tail := AfterHead(params, ret);
      && |tail| == |params| + |ARROW| + |ret| + 1 && tail[|tail| - 1] == ':' && FoundAt(tail, ARROW, |params|)
  {
    Pieces(params, ARROW, ret + ":");
  }

  lemma NoneLater(params: string, ret: string)
    requires forall i :: 0 <= i < |ret| - |ARROW| ==> !FoundAt(ret, ARROW, i)
    ensures forall i: nat :: |params| < i < |params| + |ret| ==> !FoundAt(AfterHead(params, ret), ARROW, i)
  {
    forall i: nat | |params| < i < |params| + |ret| ensures !FoundAt(AfterHead(params, ret), ARROW, i) {
      if FoundAt(AfterHead(params, ret), ARROW, i) { LaterArrow(params, ret, i); }
    }
  }

  lemma LastArrow(params: string, ret: string)
    requires ret != "" && forall i :: 0 <= i < |ret| - |ARROW| ==> !FoundAt(ret, ARROW, i)
    ensures LastAt(AfterHead(params, ret), ARROW, |params| + |ret|) == Some(|params|)
  {
    NoneLater(params, ret);
    AfterHeadEnds(params, ret);
    hide LastAt, FoundAt, AfterHead;
    LastAtIs(AfterHead(params, ret), ARROW, |params| + |ret|, |params|);
  }

  lemma ConstructorFound(blanks: string, params: string, ret: string)
    requires Plain(blanks, ret)
    ensures Indent(Shape(blanks, params, ret)) == |blanks|
    ensures Constructor(Shape(blanks, params, ret)) == Some(|blanks| + |NEW_HEAD| + |params|)
  {
    hide Shape, AfterHead, FoundAt, LastAt, Indent, Constructor;
    var line, tail := Shape(blanks, params, ret), AfterHead(params, ret);
    AfterHeadEnds(params, ret);
    ShapeOpens(blanks, params, ret);
    LastArrow(params, ret);
    ByParts(line, |blanks|, tail, |params|, |ret|);
  }

  lemma ByParts(line: string, indent: nat, tail: string, k: nat, ret: nat)
    requires Indent(line) == indent && FoundAt(line, NEW_HEAD, indent) && ret > 0
    requires |line| == indent + |NEW_HEAD| + |tail| && line[indent + |NEW_HEAD|..] == tail
    requires |tail| == k + |ARROW| + ret + 1 && line[|line| - 1] == ':'
    requires LastAt(tail, ARROW, k + ret) == Some(k)
    ensures Constructor(line) == Some(indent + |NEW_HEAD| + k)
  {
    hide Indent, FoundAt, LastAt;
  }

  lemma ShapeBegins(blanks: string, tail: string)
    requires (forall i :: 0 <= i < |blanks| ==> blanks[i] in " \t") && tail != ""
    ensures var line := blanks + (NEW_HEAD + tail);
      && Indent(line) == |blanks| && FoundAt(line, NEW_HEAD, |blanks|)
      && line[|blanks| + |NEW_HEAD|..] == tail && |line| == |blanks| + |NEW_HEAD| + |tail|
      && line[|line| - 1] == tail[|tail| - 1]
  {
    assert NEW_HEAD[0] == 'd';
    IndentOfJoined(blanks, NEW_HEAD + tail);
    Pieces(blanks, NEW_HEAD, tail);
  }

  lemma ShapeOpens(blanks: string, params: string, ret: string)
    requires forall i :: 0 <= i < |blanks| ==> blanks[i] in " \t"
    ensures var line, tail := Shape(blanks, params, ret), AfterHead(params, ret);
      && Indent(line) == |blanks| && FoundAt(line, NEW_HEAD, |blanks|)
      && line[|blanks| + |NEW_HEAD|..] == tail && |line| == |blanks| + |NEW_HEAD| + |tail|
      && line[|line| - 1] == tail[|tail| - 1]
  {
    hide Indent, FoundAt;
    AfterHeadEnds(params, ret);
    ShapeBegins(blanks, AfterHead(params, ret));
  }

  /** A constructor keeps its indent and its parameters, whatever they are. */
  lemma ConstructorRewritten(line: string, blanks: string, params: string, ret: string)
    requires IsConstructor(line, blanks, params, ret)
    ensures Tidy(line) == RewriteConstructor(line) == blanks + "def __init__(self" + params + ") -> None:"
  {
    ShapeIsConstructor(line, blanks, params, ret);
    ConstructorFound(blanks, params, ret);
    ShapeParts(blanks, params, ret);
    RewrittenOnce(line);
    hide IsConstructor, Shape, Constructor, Indent, RewriteConstructor;
    Rewriting(line);
    MadeIsLiteral(blanks, params);
  }

  lemma ShapeParts(blanks: string, params: string, ret: string)
    ensures var line, from := Shape(blanks, params, ret), |blanks| + |NEW_HEAD|;
      from + |params| <= |line| && line[..|blanks|] == blanks && line[from..from + |params|] == params
  {
    FourParts(blanks, NEW_HEAD, params, ARROW + (ret + ":"));
  }

  lemma FourParts(a: string, b: string, c: string, d: string)
    ensures var s := a + (b + (c + d));
      s[..|a|] == a && s[|a| + |b|..|a| + |b| + |c|] == c && |s| == |a| + |b| + |c| + |d|
  {
  }

  lemma Rewriting(line: string)
    requires Constructor(line).Some?
    ensures RewriteConstructor(line) ==
            line[..Indent(line)] +
            (INIT_HEAD + (line[Indent(line) + |NEW_HEAD|..Constructor(line).value] + ARROW + "None:"))
  {
    hide Constructor, Indent;
  }

  lemma MadeIsLiteral(blanks: string, params: string)
    ensures blanks + (INIT_HEAD + (params + ARROW + "None:")) == blanks + "def __init__(self" + params + ") -> None:"
  {
    assert ARROW + "None:" == ") -> None:";
    MadeRegrouped(blanks, INIT_HEAD, params, ARROW, "None:");
  }

  lemma MadeRegrouped(a: string, b: string, c: string, d: string, e: string)
    ensures a + (b + (c + d + e)) == a + b + c + (d + e)
  {
  }

  lemma ConstructorParts(line: string) returns (indent: nat, from: nat, end: nat)
    requires Constructor(line).Some?
    ensures from == indent + |NEW_HEAD| <= end && end + |ARROW| < |line| - 1 && line[|line| - 1] == ':'
    ensures forall i :: 0 <= i < indent ==> line[i] in " \t"
    ensures FoundAt(line, NEW_HEAD, indent) && FoundAt(line, ARROW, end)
    ensures forall i :: end - from < i < |line| - |ARROW| - 1 - from ==> !FoundAt(line[from..], ARROW, i)
  {
    indent, end := Indent(line), Constructor(line).value;
    from := indent + |NEW_HEAD|;
    IndentIsBlank(line);
    LastIsLast(line[from..], ARROW, |line| - |ARROW| - 1 - from, end - from);
    assert FoundAt(line[from..], ARROW, end - from);
    SliceOfRest(line, from, end - from, end - from + |ARROW|);
  }

  /** And every line that is rewritten at all has that shape. */
  lemma RewrittenIsConstructor(line: string) returns (blanks: string, params: string, ret: string)
    requires RewriteConstructor(line) != line
    ensures IsConstructor(line, blanks, params, ret)
  {
    var indent, from, end := ConstructorParts(line);
    blanks, params, ret := line[..indent], line[from..end], line[end + |ARROW|..|line| - 1];
    IsShape(line, indent, end);
    IsPlain(line, indent, from, end);
    hide Constructor, RewriteConstructor, IsConstructor, Shape, Plain, FoundAt;
    ShapeIsConstructor(line, blanks, params, ret);
  }

  lemma IsShape(line: string, indent: nat, end: nat)
    requires indent + |NEW_HEAD| <= end && end + |ARROW| < |line| - 1 && line[|line| - 1] == ':'
    requires FoundAt(line, NEW_HEAD, indent) && FoundAt(line, ARROW, end)
    ensures line == Shape(line[..indent], line[indent + |NEW_HEAD|..end], line[end + |ARROW|..|line| - 1])
  {
    hide FoundAt;
    Cut(line, indent, NEW_HEAD, end, ARROW);
  }

  lemma IsPlain(line: string, indent: nat, from: nat, end: nat)
    requires indent <= from <= end && end + |ARROW| < |line| - 1
    requires forall i :: 0 <= i < indent ==> line[i] in " \t"
    requires forall i :: end - from < i < |line| - |ARROW| - 1 - from ==> !FoundAt(line[from..], ARROW, i)
    ensures Plain(line[..indent], line[end + |ARROW|..|line| - 1])
  {
    assert |ARROW| == 5;
    NoneAfter(line, from, end, ARROW);
    hide FoundAt;
  }

  lemma Cut(line: string, indent: nat, head: string, end: nat, arrow: string)
    requires indent + |head| <= end && end + |arrow| < |line| - 1 && line[|line| - 1] == ':'
    requires FoundAt(line, head, indent) && FoundAt(line, arrow, end)
    ensures line ==
            line[..indent] + (head + (line[indent + |head|..end] + (arrow + (line[end + |arrow|..|line| - 1] + ":"))))
  {
    assert line[|line| - 1..] == ":";
  }

  lemma SliceOfRest(line: string, from: nat, i: nat, j: nat)
    requires from <= |line| && i <= j <= |line| - from
    ensures line[from..][i..j] == line[from + i..from + j]
  {
  }

  lemma SliceOfSlice(line: string, from: nat, to: nat, i: nat, j: nat)
    requires from <= to <= |line| && i <= j <= to - from
    ensures line[from..to][i..j] == line[from + i..from + j]
  {
    var cut := line[from..to];
    assert forall k :: i <= k < j ==> cut[k] == line[from + k];
    assert cut[i..j] == line[from + i..from + j];
  }

  /** What stands nowhere after a place stands nowhere in what comes after it. */
  lemma NoneAfter(line: string, from: nat, end: nat, part: string)
    requires from <= end && end + |part| < |line| && part != ""
    requires forall i :: end - from < i < |line| - |part| - 1 - from ==> !FoundAt(line[from..], part, i)
    ensures var ret := line[end + |part|..|line| - 1];
      forall i :: 0 <= i < |ret| - |part| ==> !FoundAt(ret, part, i)
  {
    var ret := line[end + |part|..|line| - 1];
    forall i | 0 <= i < |ret| - |part| ensures !FoundAt(ret, part, i) {
      var k := end + |part| + i - from;
      SliceOfRest(line, from, k, k + |part|);
      SliceOfSlice(line, end + |part|, |line| - 1, i, i + |part|);
      assert !FoundAt(line[from..], part, k);
    }
  }

  lemma {:induction false} LastIsLast(s: string, part: string, n: nat, k: nat)
    requires LastAt(s, part, n) == Some(k)
    ensures forall i :: k < i < n ==> !FoundAt(s, part, i)
    decreases n
  {
    if n > 0 && !FoundAt(s, part, n - 1) { LastIsLast(s, part, n - 1, k); }
  }

  /** Stripping a line takes off what white space it ends in, and nothing else. */
  lemma {:induction false} StripsBlanks(line: string)
    ensures Rstrip(line) == line[..|Rstrip(line)|]
    ensures forall i :: |Rstrip(line)| <= i < |line| ==> IsSpace(line[i])
    ensures Rstrip(line) == "" || !IsSpace(Rstrip(line)[|Rstrip(line)| - 1])
    decreases line
  {
    hide IsSpace;
    if line != "" && IsSpace(line[|line| - 1]) { StripsBlanks(line[..|line| - 1]); }
  }
}
