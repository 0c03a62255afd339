/** How generated tables are printed (scripts/gen_sobol_tables.py, format_values and write_file):
    what reads back, and how long the text is. */
module TableText {
  import opened Decimal

  const VALUES_PER_LINE: nat := 16

  function Join(sep: string, parts: seq<string>): string {
    if parts == [] then ""
    else if |parts| == 1 then parts[0]
    else parts[0] + sep + Join(sep, parts[1..])
  }

  /** The values as printed, each with its suffix and a comma. */
  function Items(chunk: seq<int>, suffix: string): (items: seq<string>)
    ensures |items| == |chunk|
  {
    seq(|chunk|, i requires 0 <= i < |chunk| => Str(chunk[i]) + suffix + ",")
  }

  function Line(chunk: seq<int>, suffix: string): string {
    "    " + Join(" ", Items(chunk, suffix))
  }

  function Chunk(values: seq<int>): nat {
    if |values| < VALUES_PER_LINE then |values| else VALUES_PER_LINE
  }

  function Lines(values: seq<int>, suffix: string): seq<string>
    decreases |values|
  {
    if values == [] then []
    else [Line(values[..Chunk(values)], suffix)] + Lines(values[Chunk(values)..], suffix)
  }

  function Formatted(values: seq<int>, suffix: string): string {
    Join("\n", Lines(values, suffix))
  }

  /** A multiple of the line length. */
  predicate Aligned(n: nat) {
    n % VALUES_PER_LINE == 0
  }

  lemma AlignedNext(n: nat)
    requires Aligned(n)
    ensures Aligned(n + VALUES_PER_LINE)
  {
  }

  lemma AlignedBefore(n: nat)
    requires Aligned(n) && n > 0
    ensures n >= VALUES_PER_LINE && Aligned(n - VALUES_PER_LINE)
  {
  }

  lemma FullLine(values: seq<int>, suffix: string)
    requires |values| >= VALUES_PER_LINE
    ensures Lines(values, suffix) ==
            [Line(values[..VALUES_PER_LINE], suffix)] + Lines(values[VALUES_PER_LINE..], suffix)
  {
  }

  lemma NoLines(values: seq<int>, suffix: string)
    ensures Lines(values[..0], suffix) == []
  {
  }

  lemma {:induction false} LinesSplit(values: seq<int>, suffix: string, start: nat)
    requires start <= |values| && Aligned(start)
    ensures Lines(values, suffix) == Lines(values[..start], suffix) + Lines(values[start..], suffix)
    decreases start
  {
    hide Lines, Line, Aligned;
    if start == 0 {
      NoLines(values, suffix);
      assert values[0..] == values;
    } else {
      AlignedBefore(start);
      FullLine(values, suffix);
      FullLine(values[..start], suffix);
      var rest, before := values[VALUES_PER_LINE..], start - VALUES_PER_LINE;
      LinesSplit(rest, suffix, before);
      assert values[..start][..VALUES_PER_LINE] == values[..VALUES_PER_LINE];
      assert values[..start][VALUES_PER_LINE..] == rest[..before];
      assert rest[before..] == values[start..];
    }
  }

  /** One more line. */
  lemma LinesExtend(values: seq<int>, suffix: string, start: nat, end: nat)
    requires start < end <= |values| && Aligned(start)
    requires end - start == VALUES_PER_LINE || (end == |values| && end - start < VALUES_PER_LINE)
    ensures Lines(values[..end], suffix) == Lines(values[..start], suffix) + [Line(values[start..end], suffix)]
  {
    LinesSplit(values[..end], suffix, start);
    var line := values[start..end];
    assert values[..end][..start] == values[..start] && values[..end][start..] == line;
    assert line[..Chunk(line)] == line && line[Chunk(line)..] == [];
  }

  /** format_values */
  method FormatValues(values: seq<int>, suffix: string) returns (text: string)
    ensures text == Formatted(values, suffix)
  {
    var lines: seq<string> := [];
    var start, done := 0, 0;
    while start < |values|
      invariant Aligned(start) && done <= |values|
      invariant start < |values| ==> done == start
      invariant start >= |values| ==> done == |values|
      invariant lines == Lines(values[..done], suffix)
    {
      done := if start + VALUES_PER_LINE < |values| then start + VALUES_PER_LINE else |values|;
      LinesExtend(values, suffix, start, done);
      lines := lines + [Line(values[start..done], suffix)];
      AlignedNext(start);
      start := start + VALUES_PER_LINE;
    }
    assert values[..done] == values;
    text := Join("\n", lines);
  }

  /** Where line `k` of the values begins and ends. */
  function LineStart(k: nat): nat { VALUES_PER_LINE * k }

  function LineEnd(n: nat, k: nat): nat {
    if LineStart(k + 1) < n then LineStart(k + 1) else n
  }

  lemma LinesBelow(values: seq<int>, suffix: string)
    requires values != []
    ensures Lines(values, suffix) == [Line(values[..Chunk(values)], suffix)] + Lines(values[Chunk(values)..], suffix)
  {
  }

  lemma NoneNoLines(values: seq<int>, suffix: string)
    ensures Lines(values, suffix) != [] ==> values != []
  {
  }

  lemma FirstLine(values: seq<int>)
    ensures LineStart(0) == 0 && LineEnd(|values|, 0) == Chunk(values)
  {
  }

  lemma NextLine(n: nat, k: nat)
    requires n > VALUES_PER_LINE && k > 0
    ensures LineStart(k) == VALUES_PER_LINE + LineStart(k - 1)
    ensures LineEnd(n, k) == VALUES_PER_LINE + LineEnd(n - VALUES_PER_LINE, k - 1)
  {
  }

  /** Line `k` holds the values from place sixteen times `k` on, up to sixteen of them. */
  lemma {:induction false} LineAt(values: seq<int>, suffix: string, k: nat)
    requires k < |Lines(values, suffix)|
    ensures LineStart(k) < LineEnd(|values|, k) <= |values|
    ensures Lines(values, suffix)[k] == Line(values[LineStart(k)..LineEnd(|values|, k)], suffix)
    decreases k
  {
    hide Lines, Line, LineStart, LineEnd;
    NoneNoLines(values, suffix);
    LinesBelow(values, suffix);
    FirstLine(values);
    if k > 0 {
      var n := Chunk(values);
      NoneNoLines(values[n..], suffix);
      LineAt(values[n..], suffix, k - 1);
      NextLine(|values|, k);
      SliceShift(values, n, LineStart(k - 1), LineEnd(|values| - n, k - 1));
    }
  }

  lemma SliceShift(values: seq<int>, n: nat, i: nat, j: nat)
    requires n <= |values| && i <= j <= |values| - n
    ensures values[n..][i..j] == values[n + i..n + j]
  {
  }

  // ---- Reading back ----

  function AfterItem(chunk: seq<int>, rest: string): string
    requires chunk != []
  {
    if |chunk| == 1 then "," + rest else ", " + (Join(" ", Items(chunk[1..], "")) + rest)
  }

  lemma ItemsStep(chunk: seq<int>, rest: string)
    requires chunk != []
    ensures Join(" ", Items(chunk, "")) + rest == Str(chunk[0]) + AfterItem(chunk, rest)
  {
    hide Str;
    assert Items(chunk, "")[1..] == Items(chunk[1..], "");
  }

  lemma SeqAssoc(x: int, a: seq<int>, b: seq<int>)
    ensures [x] + (a + b) == ([x] + a) + b
  {
  }

  /** One line of numbers, whatever comes after it. */
  lemma {:induction false} ReadItems(chunk: seq<int>, rest: string)
    requires chunk != []
    ensures Ints(Join(" ", Items(chunk, "")) + rest) == chunk + Ints(rest)
    decreases chunk
  {
    hide Items, Join, Ints;
    ItemsStep(chunk, rest);
    ReadNumber(chunk[0], AfterItem(chunk, rest));
    assert chunk == [chunk[0]] + chunk[1..];
    if |chunk| == 1 {
      SkipBlank(",", rest);
      assert chunk == [chunk[0]];
    } else {
      var more := Join(" ", Items(chunk[1..], "")) + rest;
      SkipBlank(", ", more);
      ReadItems(chunk[1..], rest);
      SeqAssoc(chunk[0], chunk[1..], Ints(rest));
    }
  }

  function AfterLine(values: seq<int>): string
    requires values != []
  {
    var n := Chunk(values);
    if n == |values| then "" else "\n" + Formatted(values[n..], "")
  }

  lemma FormattedStep(values: seq<int>)
    requires values != []
    ensures Formatted(values, "") == "    " + (Join(" ", Items(values[..Chunk(values)], "")) + AfterLine(values))
  {
    hide Items;
    var n := Chunk(values);
    var lines := Lines(values, "");
    assert lines[1..] == Lines(values[n..], "");
    if n == |values| {
      assert lines == [Line(values[..n], "")];
    } else {
      assert |lines| > 1;
    }
  }

  lemma ReadNone(values: seq<int>)
    requires values == []
    ensures Ints("") == [] && Ints(Formatted(values, "")) == []
  {
  }

  /** Reading the printed values back gives exactly the values. */
  lemma {:induction false} ReadFormatted(values: seq<int>)
    ensures Ints(Formatted(values, "")) == values
    decreases |values|
  {
    hide Items, Join, Ints, Formatted;
    ReadNone([]);
    if values != [] {
      var n := Chunk(values);
      var line := Join(" ", Items(values[..n], ""));
      FormattedStep(values);
      SkipBlank("    ", line + AfterLine(values));
      ReadItems(values[..n], AfterLine(values));
      if n < |values| {
        SkipBlank("\n", Formatted(values[n..], ""));
        ReadFormatted(values[n..]);
      }
      assert values == values[..n] + values[n..];
    }
  }

  // ---- Length ----

  /** The bytes expected for an entry: each value's characters and two more. */
  function Estimate(entry: seq<int>): nat {
    if entry == [] then 0 else Estimate(entry[..|entry| - 1]) + |Str(entry[|entry| - 1])| + 2
  }

  lemma {:induction false} EstimateAppend(a: seq<int>, b: seq<int>)
    ensures Estimate(a + b) == Estimate(a) + Estimate(b)
  {
    if b == [] {
      assert a + b == a;
    } else {
      assert (a + b)[..|a + b| - 1] == a + b[..|b| - 1];
      EstimateAppend(a, b[..|b| - 1]);
    }
  }

  /** Every value is estimated at three characters at least. */
  lemma {:induction false} EstimateAtLeast(values: seq<int>)
    ensures Estimate(values) >= 3 * |values|
  {
    if values != [] { EstimateAtLeast(values[..|values| - 1]); }
  }

  lemma EstimateFirst(chunk: seq<int>)
    requires chunk != []
    ensures Estimate(chunk) == |Str(chunk[0])| + 2 + Estimate(chunk[1..])
  {
    var first := [chunk[0]];
    assert chunk == first + chunk[1..];
    EstimateAppend(first, chunk[1..]);
    assert first[..0] == [];
  }

  lemma ItemsFirst(chunk: seq<int>)
    requires |chunk| > 1
    ensures |Join(" ", Items(chunk, ""))| == |Str(chunk[0])| + 2 + |Join(" ", Items(chunk[1..], ""))|
  {
    var items := Items(chunk, "");
    assert items[1..] == Items(chunk[1..], "");
    assert items[0] == Str(chunk[0]) + "" + ",";
  }

  lemma {:induction false} ItemsLength(chunk: seq<int>)
    requires chunk != []
    ensures |Join(" ", Items(chunk, ""))| + 1 == Estimate(chunk)
    decreases |chunk|
  {
    EstimateFirst(chunk);
    if |chunk| > 1 {
      ItemsFirst(chunk);
      ItemsLength(chunk[1..]);
    } else {
      assert Items(chunk, "")[0] == Str(chunk[0]) + "" + ",";
    }
  }

  function LineCount(n: nat): nat {
    (n + VALUES_PER_LINE - 1) / VALUES_PER_LINE
  }

  lemma LineCountStep(n: nat)
    requires n > 0
    ensures n <= VALUES_PER_LINE ==> LineCount(n) == 1
    ensures n > VALUES_PER_LINE ==> LineCount(n) == 1 + LineCount(n - VALUES_PER_LINE)
  {
  }

  /** The first line's part of the length. */
  lemma FirstLineLength(values: seq<int>)
    requires values != []
    ensures |Formatted(values, "")| == 3 + Estimate(values[..Chunk(values)])
              + if Chunk(values) == |values| then 0 else 1 + |Formatted(values[Chunk(values)..], "")|
  {
    FormattedStep(values);
    ItemsLength(values[..Chunk(values)]);
  }

  /** The printed length is the estimate plus four characters a line, less the last newline. */
  lemma {:induction false} FormattedLength(values: seq<int>)
    requires values != []
    ensures |Formatted(values, "")| + 1 == Estimate(values) + 4 * LineCount(|values|)
    decreases |values|
  {
    assert Estimate([]) == 0;
    hide Formatted, Estimate, LineCount;
    var n := Chunk(values);
    FirstLineLength(values);
    LineCountStep(|values|);
    assert values == values[..n] + values[n..];
    EstimateAppend(values[..n], values[n..]);
    if n < |values| {
      FormattedLength(values[n..]);
    } else {
      assert values[n..] == [];
    }
  }
}
