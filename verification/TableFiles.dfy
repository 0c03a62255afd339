/** The generated files of one initializer table (scripts/gen_sobol_tables.py, write_file and
    emit_initializer_table): their size, and what reads back from them. */
module TableFiles {
  import opened Decimal
  import opened TableRead
  import opened TableText
  import opened TableSplit
  import opened Text

  // In pieces, like every long literal.
  const HEADER := "// @generated by scripts/" + ("gen_sobol_tables.py " + "- do not edit by hand.\n")
  const MAX_FILE_BYTES := 1024 * 1000

  /** The values of a part, entry after entry. */
  function Flat(entries: seq<Entry>): seq<int> {
    if entries == [] then [] else Flat(entries[..|entries| - 1]) + entries[|entries| - 1]
  }

  /** Prefix sums of the entry lengths, from 0. */
  function Offsets(entries: seq<Entry>): (o: seq<int>)
    ensures |o| == |entries| + 1
  {
    if entries == [] then [0]
    else
      var before := Offsets(entries[..|entries| - 1]);
      before + [before[|before| - 1] + |entries[|entries| - 1]|]
  }

  function ArrayBody(name: string, text: string): string {
    "#[rustfmt::skip]\npub(super) static " + name + ": &[u32] = &[\n" + text + "\n];\n"
  }

  /** The whole text of a file with one array. */
  function ArrayFile(name: string, values: seq<int>): string {
    HEADER + "\n" + ArrayBody(name, Formatted(values, ""))
  }

  function DataFile(part: seq<Entry>): string {
    ArrayFile("DATA", Flat(part))
  }

  function OffsetsFile(entries: seq<Entry>): string {
    ArrayFile("OFFSETS", Offsets(entries))
  }

  /** write_file accepts the file. */
  predicate Small(file: string) {
    |file| <= MAX_FILE_BYTES
  }

  function PartModule(table: string, i: nat): string {
    table + "_data_" + Str(i)
  }

  function OffsetsModule(table: string): string {
    table + "_offsets"
  }

  // ---- Size ----

  lemma {:induction false} FlatEstimate(part: seq<Entry>)
    ensures Estimate(Flat(part)) == Bytes(part)
  {
    if part != [] {
      FlatEstimate(part[..|part| - 1]);
      EstimateAppend(Flat(part[..|part| - 1]), part[|part| - 1]);
    }
  }

  lemma BodySize(name: string, text: string)
    ensures |ArrayBody(name, text)| == 53 + |name| + |text|
  {
    assert |"#[rustfmt::skip]\npub(super) static "| == 35;
    assert |": &[u32] = &[\n"| == 14;
    assert |"\n];\n"| == 4;
  }

  /** The exact size of a file: the text around the array, its name, and the printed values. */
  lemma FileSize(name: string, values: seq<int>)
    requires values != []
    ensures |ArrayFile(name, values)| == |HEADER| + 53 + |name| + Estimate(values) + 4 * LineCount(|values|)
  {
    FormattedLength(values);
    BodySize(name, Formatted(values, ""));
  }

  lemma LinesBound(n: nat, m: nat)
    requires 3 * n <= m
    ensures 48 * LineCount(n) <= m + 45
  {
  }

  /** Any part within the estimate's limit prints to a file within the hard limit; so a data file
      can only be rejected if it holds a single entry that is over the limit by itself. */
  lemma OnlyOversizedEntriesFail(parts: seq<seq<Entry>>, entries: seq<Entry>, i: nat)
    requires Cuts(parts, entries) && i < |parts|
    requires !Small(DataFile(parts[i]))
    ensures |parts[i]| == 1 && Estimate(parts[i][0]) > MAX_DATA_FILE_BYTES
  {
    var values := Flat(parts[i]);
    FlatEstimate(parts[i]);
    EstimateAtLeast(values);
    LinesBound(|values|, Estimate(values));
    if values == [] { BodySize("DATA", ""); } else { FileSize("DATA", values); }
    assert |HEADER| == 68;
    assert Bytes(parts[i]) > MAX_DATA_FILE_BYTES;
    assert parts[i] == [parts[i][0]];
    BytesOne([], parts[i][0]);
    assert [] + parts[i] == parts[i];
  }

  // ---- Reading back ----

  /** All parts read back and concatenated. */
  function ReadParts(parts: seq<seq<Entry>>): seq<int> {
    if parts == [] then []
    else ReadParts(parts[..|parts| - 1]) + Ints(Formatted(Flat(parts[|parts| - 1]), ""))
  }

  lemma FlatOne(entries: seq<Entry>, entry: Entry)
    ensures Flat(entries + [entry]) == Flat(entries) + entry
  {
    assert (entries + [entry])[..|entries|] == entries;
  }

  lemma {:induction false} FlatAppend(a: seq<Entry>, b: seq<Entry>)
    ensures Flat(a + b) == Flat(a) + Flat(b)
    decreases |b|
  {
    if b == [] {
      assert a + b == a;
    } else {
      var init, last := b[..|b| - 1], b[|b| - 1];
      FlatAppend(a, init);
      FlatOne(a + init, last);
      FlatOne(init, last);
      assert a + init + [last] == a + b && init + [last] == b;
    }
  }

  lemma {:induction false} ReadPartsFlat(parts: seq<seq<Entry>>)
    ensures ReadParts(parts) == Flat(Flatten(parts))
  {
    if parts != [] {
      var last := parts[|parts| - 1];
      ReadPartsFlat(parts[..|parts| - 1]);
      ReadFormatted(Flat(last));
      FlatAppend(Flatten(parts[..|parts| - 1]), last);
    }
  }

  lemma {:induction false} OffsetsArePrefixSums(entries: seq<Entry>, k: nat)
    requires k <= |entries|
    ensures Offsets(entries)[k] == |Flat(entries[..k])|
  {
    if k < |entries| {
      var before := entries[..|entries| - 1];
      assert before[..k] == entries[..k];
      OffsetsArePrefixSums(before, k);
    } else {
      assert entries[..k] == entries;
      if entries != [] {
        var before := entries[..|entries| - 1];
        assert before[..|before|] == before;
        OffsetsArePrefixSums(before, |before|);
      }
    }
  }

  lemma EntryInFlat(entries: seq<Entry>, k: nat)
    requires k < |entries|
    ensures var from, to := |Flat(entries[..k])|, |Flat(entries[..k + 1])|;
      from <= to <= |Flat(entries)| && Flat(entries)[from..to] == entries[k]
  {
    assert entries[..k + 1][..k] == entries[..k];
    assert entries == entries[..k + 1] + entries[k + 1..];
    FlatAppend(entries[..k + 1], entries[k + 1..]);
  }

  /** End to end: print the parts and the offsets, read the numbers of both back, concatenate the
      parts, and slice at two successive offsets: that is the entry. */
  lemma EntriesReadBack(parts: seq<seq<Entry>>, entries: seq<Entry>, k: nat)
    requires Flatten(parts) == entries && k < |entries|
    ensures var offsets := Ints(Formatted(Offsets(entries), ""));
      && |offsets| == |entries| + 1
      && 0 <= offsets[k] <= offsets[k + 1] <= |ReadParts(parts)|
      && ReadParts(parts)[offsets[k]..offsets[k + 1]] == entries[k]
  {
    hide Formatted;
    ReadFormatted(Offsets(entries));
    ReadPartsFlat(parts);
    OffsetsArePrefixSums(entries, k);
    OffsetsArePrefixSums(entries, k + 1);
    EntryInFlat(entries, k);
  }

  /** Where the values of part `p` start among all values. */
  function PartOffset(parts: seq<seq<Entry>>, p: nat): nat
    requires p <= |parts|
  {
    if p == 0 then 0 else PartOffset(parts, p - 1) + |Flat(parts[p - 1])|
  }

  lemma {:induction false} PartOffsetIsOffset(parts: seq<seq<Entry>>, entries: seq<Entry>, p: nat)
    requires Flatten(parts) == entries && p <= |parts|
    ensures Start(parts, p) <= |entries| && PartOffset(parts, p) == |Flat(entries[..Start(parts, p)])|
  {
    if p > 0 {
      PartOffsetIsOffset(parts, entries, p - 1);
      PartIsSlice(parts, p - 1);
      var from, to := Start(parts, p - 1), Start(parts, p);
      assert entries[..to] == entries[..from] + entries[from..to];
      FlatAppend(entries[..from], entries[from..to]);
    }
  }

  lemma {:induction false} EntryHasPart(parts: seq<seq<Entry>>, k: nat, n: nat) returns (p: nat)
    requires n <= |parts| && k < Start(parts, n)
    ensures p < n && Start(parts, p) <= k < Start(parts, p + 1)
  {
    if Start(parts, n - 1) <= k { p := n - 1; } else { p := EntryHasPart(parts, k, n - 1); }
  }

  lemma {:induction false} FlatMonotone(entries: seq<Entry>, a: nat, b: nat)
    requires a <= b <= |entries|
    ensures |Flat(entries[..a])| <= |Flat(entries[..b])|
  {
    assert entries[..b] == entries[..a] + entries[a..b];
    FlatAppend(entries[..a], entries[a..b]);
  }

  /** No entry straddles two parts: the stretch between its offsets lies within one part's values. */
  lemma NoEntryStraddles(parts: seq<seq<Entry>>, entries: seq<Entry>, k: nat) returns (p: nat)
    requires Flatten(parts) == entries && k < |entries|
    ensures p < |parts|
    ensures PartOffset(parts, p) <= Offsets(entries)[k] <= Offsets(entries)[k + 1] <= PartOffset(parts, p + 1)
  {
    StartsEnd(parts);
    p := EntryHasPart(parts, k, |parts|);
    PartOffsetIsOffset(parts, entries, p);
    PartOffsetIsOffset(parts, entries, p + 1);
    OffsetsArePrefixSums(entries, k);
    OffsetsArePrefixSums(entries, k + 1);
    FlatMonotone(entries, Start(parts, p), k);
    FlatMonotone(entries, k, k + 1);
    FlatMonotone(entries, k + 1, Start(parts, p + 1));
  }

  // ---- The files ----

  lemma StrNoBracket(v: int)
    ensures ']' !in Str(v)
  {
    assert forall c: char :: IsDigit(c) ==> c != ']';
  }

  lemma {:induction false} JoinNoBracket(sep: string, parts: seq<string>)
    requires ']' !in sep && forall i :: 0 <= i < |parts| ==> ']' !in parts[i]
    ensures ']' !in Join(sep, parts)
    decreases |parts|
  {
    if |parts| > 1 { JoinNoBracket(sep, parts[1..]); }
  }

  lemma LineNoBracket(chunk: seq<int>)
    ensures ']' !in Line(chunk, "")
  {
    hide Join, Str;
    var items := Items(chunk, "");
    forall i | 0 <= i < |items| ensures ']' !in items[i] {
      StrNoBracket(chunk[i]);
    }
    JoinNoBracket(" ", items);
  }

  lemma {:induction false} LinesNoBracket(values: seq<int>)
    ensures forall i :: 0 <= i < |Lines(values, "")| ==> ']' !in Lines(values, "")[i]
    decreases |values|
  {
    hide Line;
    if values != [] {
      LineNoBracket(values[..Chunk(values)]);
      LinesNoBracket(values[Chunk(values)..]);
    }
  }

  /** Nothing that looks like an opening bracket at the end of a line. */
  predicate NoOpening(s: string) {
    forall i :: 0 <= i < |s| && s[i] == '&' ==> i + 2 < |s| && s[i + 2] != '\n'
  }

  lemma NoOpeningAfter(before: string, s: string)
    requires '&' !in before && NoOpening(s)
    ensures NoOpening(before + s)
  {
  }

  /** What stands in a file before the bracket. */
  function ArrayHead(name: string): string {
    HEADER + ("\n" + ("#[rustfmt::skip]\npub(super) static " + (name + ": &[u32] = ")))
  }

  lemma NoAmpersand(a: string, b: string)
    requires '&' !in a && '&' !in b
    ensures '&' !in a + b
  {
  }

  lemma HeaderNoAmpersand()
    ensures '&' !in HEADER
  {
    NoAmpersand("gen_sobol_tables.py ", "- do not edit by hand.\n");
    NoAmpersand("// @generated by scripts/", "gen_sobol_tables.py " + "- do not edit by hand.\n");
  }

  lemma HeadOpensNothing(name: string)
    requires '&' !in name
    ensures NoOpening(ArrayHead(name))
  {
    assert NoOpening(": &[u32] = ") by { assert ": &[u32] = "[4] == 'u'; }
    NoOpeningAfter(name, ": &[u32] = ");
    NoOpeningAfter("#[rustfmt::skip]\npub(super) static ", name + ": &[u32] = ");
    NoOpeningAfter("\n", "#[rustfmt::skip]\npub(super) static " + (name + ": &[u32] = "));
    HeaderNoAmpersand();
    NoOpeningAfter(HEADER, "\n" + ("#[rustfmt::skip]\npub(super) static " + (name + ": &[u32] = ")));
  }

  lemma FileParts(name: string, values: seq<int>)
    ensures ArrayFile(name, values) == ArrayHead(name) + ("&[\n" + (Formatted(values, "") + "\n];\n"))
  {
    hide Formatted;
    assert ": &[u32] = &[\n" == ": &[u32] = " + "&[\n";
    NineJoined(HEADER, "\n", "#[rustfmt::skip]\npub(super) static ", name, ": &[u32] = ", "&[\n",
               Formatted(values, ""), "\n];\n");
  }

  lemma NineJoined(a: string, b: string, c: string, d: string, e: string, f: string, g: string, h: string)
    ensures a + b + (c + d + (e + f) + g + h) == (a + (b + (c + (d + e)))) + (f + (g + h))
  {
  }

  /** The numbers in a generated file are the values it was made of. */
  lemma NumbersOfFile(name: string, values: seq<int>)
    requires '&' !in name
    ensures Numbers(ArrayFile(name, values)) == values
  {
    LinesNoBracket(values);
    JoinNoBracket("\n", Lines(values, ""));
    HeadOpensNothing(name);
    FileParts(name, values);
    assert FoundAt("\n];\n", "\n];", 0);
    hide ArrayFile, ArrayHead, ArrayText, Ints, Lines, Join, FoundAt;
    TextBetween(ArrayHead(name), Formatted(values, ""), "\n];\n");
    ReadFormatted(values);
  }

  // ---- The emitter ----

  /** Different parts of a table, and its offsets, are different modules. */
  lemma ModulesDiffer(table: string, i: nat, j: nat)
    ensures PartModule(table, i) != OffsetsModule(table)
    ensures i != j ==> PartModule(table, i) != PartModule(table, j)
  {
    assert PartModule(table, i)[|table| + 1] == 'd' && OffsetsModule(table)[|table| + 1] == 'o';
    if PartModule(table, i) == PartModule(table, j) {
      assert PartModule(table, i)[|table| + 6..] == Str(i) && PartModule(table, j)[|table| + 6..] == Str(j);
      StrInjective(i, j);
    }
  }

  function Power10(k: nat): nat {
    if k == 0 then 1 else 10 * Power10(k - 1)
  }

  lemma {:induction false} FewDigits(n: nat, k: nat)
    requires n < Power10(k) && k > 0
    ensures |Digits(n)| <= k
    decreases k
  {
    if n >= 10 {
      FewDigits(n / 10, k - 1);
    }
  }

  lemma {:induction false} EstimateAtMost(values: seq<int>)
    requires forall i :: 0 <= i < |values| ==> 0 <= values[i] < Power10(9)
    ensures Estimate(values) <= 11 * |values|
    decreases |values|
  {
    if values != [] {
      EstimateAtMost(values[..|values| - 1]);
      FewDigits(values[|values| - 1], 9);
    }
  }

  /** The exact condition under which write_file takes the offsets, which no split keeps small. */
  lemma OffsetsFileSmall(entries: seq<Entry>)
    ensures Small(OffsetsFile(entries)) <==>
            Estimate(Offsets(entries)) + 4 * LineCount(|entries| + 1) + 128 <= MAX_FILE_BYTES
  {
    FileSize("OFFSETS", Offsets(entries));
    assert |HEADER| == 68 && |"OFFSETS"| == 7;
  }

  /** So a table may also fail at its offsets, however small its entries: from 316,000 entries on it
      always does. Below 80,000 entries with fewer than 10^9 values in all it never does. */
  lemma OffsetsFileFits(entries: seq<Entry>)
    ensures |entries| >= 316_000 ==> !Small(OffsetsFile(entries))
    ensures |entries| < 80_000 && |Flat(entries)| < Power10(9) ==> Small(OffsetsFile(entries))
  {
    var offsets := Offsets(entries);
    OffsetsFileSmall(entries);
    EstimateAtLeast(offsets);
    if |entries| < 80_000 && |Flat(entries)| < Power10(9) {
      forall k | 0 <= k <= |entries| ensures 0 <= offsets[k] < Power10(9) {
        OffsetsArePrefixSums(entries, k);
        FlatMonotone(entries, k, |entries|);
        assert entries[..|entries|] == entries;
      }
      EstimateAtMost(offsets);
    }
  }

  /** The output directory: module files by name, and the names written, in order. */
  class Output {
    var files: map<string, string>
    var written: seq<string>

    /** write_file: the file is written even when it is then found too large. */
    method WriteFile(name: string, body: string) returns (ok: bool)
      modifies this
      ensures files == old(files)[name := HEADER + "\n" + body] && written == old(written) + [name]
      ensures ok == (|HEADER + "\n" + body| <= MAX_FILE_BYTES)
    {
      var text := HEADER + "\n" + body;
      files := files[name := text];
      written := written + [name];
      ok := |text| <= MAX_FILE_BYTES;
    }

    method WritePart(file: string, part: seq<Entry>) returns (ok: bool)
      modifies this
      ensures files == old(files)[file := DataFile(part)] && written == old(written) + [file]
      ensures ok == Small(DataFile(part))
    {
      var text := FormatValues(Flat(part), "");
      ok := WriteFile(file, ArrayBody("DATA", text));
    }

    /** The loop over the parts, which stops at the first file found too large. */
    method WriteParts(table: string, parts: seq<seq<Entry>>) returns (ok: bool, modules: seq<string>)
      modifies this
      ensures |modules| <= |parts| && Emitted(table, parts, |modules|, modules, old(files), files)
      ensures written == old(written) + modules
      ensures ok ==> |modules| == |parts| && AllSmall(parts, |parts|)
      ensures !ok ==> StoppedAt(parts, |modules|)
    {
      modules := [];
      for i := 0 to |parts|
        invariant Emitted(table, parts, i, modules, old(files), files) && written == old(written) + modules
        invariant AllSmall(parts, i)
      {
        ghost var before, names := files, modules;
        modules := modules + [PartModule(table, i)];
        ok := WritePart(PartModule(table, i), parts[i]);
        EmittedOneMore(table, parts, i, names, old(files), before);
        if !ok { return; }
      }
      ok := true;
    }

    /** emit_initializer_table: the data files in order and then the offsets file, up to and with the
        first one that is too large, where the run exits. */
    method EmitInitializerTable(table: string, entries: seq<Entry>)
      returns (ok: bool, modules: seq<string>, parts: seq<seq<Entry>>)
      modifies this
      ensures Cuts(parts, entries) && Greedy(parts) && |parts| >= 1
      ensures ok == (AllSmall(parts, |parts|) && Small(OffsetsFile(entries)))
      ensures written == old(written) + modules && Same(files, old(files), modules)
      ensures |modules| == |parts| + 1 <==> AllSmall(parts, |parts|)
      ensures |modules| == |parts| + 1 ==>
        && Holds(table, parts, |parts|, modules, files)
        && modules[|parts|] == OffsetsModule(table)
        && OffsetsModule(table) in files && files[OffsetsModule(table)] == OffsetsFile(entries)
      ensures |modules| == |parts| + 1 ==> ReadsBack(files, modules, entries)
      ensures NamedFor(table, modules, |parts|)
      ensures |modules| != |parts| + 1 ==>
        |modules| <= |parts| && Holds(table, parts, |modules|, modules, files) && StoppedAt(parts, |modules|)
    {
      hide Estimate, Bytes, Flatten, Formatted, AllSmall, Holds, Same, StoppedAt, Cuts, Greedy, Offsets;
      hide PartModule, OffsetsModule, DataFile, NamedFor, ReadsBack;
      var offsets := SumLengths(entries);
      parts := SplitEntries(entries);
      ok, modules := WriteParts(table, parts);
      if !ok {
        StoppedMeans(parts, |modules|);
        NamesOfParts(table, parts, |modules|, modules, files);
        return;
      }
      NamesOfParts(table, parts, |parts|, modules, files);
      OffsetsAdded(table, parts, modules, old(files), files, OffsetsFile(entries));
      var text := FormatValues(offsets, "");
      ok := WriteFile(OffsetsModule(table), ArrayBody("OFFSETS", text));
      NamesOfAll(table, modules);
      modules := modules + [OffsetsModule(table)];
      FilesReadBack(table, parts, entries, modules, files);
    }
  }

  /** Of the first `n` parts the last, and no other, is too large for its file. */
  predicate StoppedAt(parts: seq<seq<Entry>>, n: nat)
    requires n <= |parts|
  {
    n > 0 && AllSmall(parts, n - 1) && !Small(DataFile(parts[n - 1]))
  }

  /** The names of the files of a table of `n` parts, in the order in which they are written. */
  ghost predicate NamedFor(table: string, modules: seq<string>, n: nat) {
    forall i :: 0 <= i < |modules| ==> modules[i] == table + if i < n then "_data_" + Str(i) else "_offsets"
  }

  lemma NamesOfParts(
    table: string, parts: seq<seq<Entry>>, n: nat, modules: seq<string>, files: map<string, string>)
    requires n <= |parts| && |modules| == n && Holds(table, parts, n, modules, files)
    ensures NamedFor(table, modules, |parts|)
  {
    hide DataFile, Str;
    forall i | 0 <= i < n ensures modules[i] == table + ("_data_" + Str(i)) {
      assert table + "_data_" + Str(i) == table + ("_data_" + Str(i));
    }
  }

  lemma NamesOfAll(table: string, modules: seq<string>)
    requires NamedFor(table, modules, |modules|)
    ensures NamedFor(table, modules + [OffsetsModule(table)], |modules|)
  {
  }

  lemma {:induction false} DataReadBack(
    table: string, parts: seq<seq<Entry>>, modules: seq<string>, files: map<string, string>, n: nat)
    requires n <= |parts| && Holds(table, parts, |parts|, modules, files)
    ensures AllNumbers(files, modules[..n]) == Flat(Flatten(parts[..n]))
    decreases n
  {
    hide Numbers, DataFile, PartModule;
    if n > 0 {
      DataReadBack(table, parts, modules, files, n - 1);
      assert modules[..n][..n - 1] == modules[..n - 1] && modules[..n][n - 1] == modules[n - 1];
      assert parts[..n][..n - 1] == parts[..n - 1] && parts[..n][n - 1] == parts[n - 1];
      PartReadBack(parts[n - 1]);
      FlatAppend(Flatten(parts[..n - 1]), parts[n - 1]);
    }
  }

  lemma PartReadBack(part: seq<Entry>)
    ensures Numbers(DataFile(part)) == Flat(part)
  {
    hide Numbers, ArrayFile;
    NumbersOfFile("DATA", Flat(part));
  }

  lemma OffsetsReadBack(entries: seq<Entry>)
    ensures Numbers(OffsetsFile(entries)) == Offsets(entries)
  {
    hide Numbers, ArrayFile;
    NumbersOfFile("OFFSETS", Offsets(entries));
  }

  lemma OffsetsCut(entries: seq<Entry>)
    ensures CutInto(Flat(entries), Offsets(entries), entries)
  {
    var offsets := Offsets(entries);
    assert entries[..|entries|] == entries;
    OffsetsArePrefixSums(entries, 0);
    OffsetsArePrefixSums(entries, |entries|);
    forall k | 0 <= k < |entries| ensures EntryAt(Flat(entries), offsets, entries, k) {
      OffsetsArePrefixSums(entries, k);
      OffsetsArePrefixSums(entries, k + 1);
      EntryInFlat(entries, k);
    }
  }

  /** So the entries are read back from the files, whoever reads them. */
  lemma FilesReadBack(
    table: string, parts: seq<seq<Entry>>, entries: seq<Entry>, modules: seq<string>, files: map<string, string>)
    requires Cuts(parts, entries) && |modules| == |parts| + 1 && Holds(table, parts, |parts|, modules, files)
    requires modules[|parts|] in files && files[modules[|parts|]] == OffsetsFile(entries)
    ensures ReadsBack(files, modules, entries)
  {
    hide Numbers, AllNumbers, Flat, Offsets, DataFile, OffsetsFile, PartModule, CutInto, Flatten, Fits;
    DataReadBack(table, parts, modules, files, |parts|);
    OffsetsReadBack(entries);
    OffsetsCut(entries);
    assert parts[..|parts|] == parts;
  }

  lemma StoppedMeans(parts: seq<seq<Entry>>, n: nat)
    requires n <= |parts| && StoppedAt(parts, n)
    ensures !AllSmall(parts, |parts|)
  {
  }

  predicate AllSmall(parts: seq<seq<Entry>>, n: nat)
    requires n <= |parts|
  {
    forall i :: 0 <= i < n ==> Small(DataFile(parts[i]))
  }

  /** The first `n` parts are in the files of the first `n` modules. */
  ghost predicate Holds(table: string, parts: seq<seq<Entry>>, n: nat, modules: seq<string>, files: map<string, string>)
    requires n <= |parts|
  {
    n <= |modules| && forall i :: 0 <= i < n ==>
      modules[i] == PartModule(table, i) && modules[i] in files && files[modules[i]] == DataFile(parts[i])
  }

  ghost predicate Emitted(
    table: string, parts: seq<seq<Entry>>, n: nat, modules: seq<string>,
    before: map<string, string>, files: map<string, string>)
    requires n <= |parts|
  {
    |modules| == n && Holds(table, parts, n, modules, files) && Same(files, before, modules)
  }

  /** With all parts emitted, the offsets file comes under a name of its own. */
  lemma OffsetsAdded(
    table: string, parts: seq<seq<Entry>>, modules: seq<string>,
    before: map<string, string>, files: map<string, string>, text: string)
    requires Emitted(table, parts, |parts|, modules, before, files)
    ensures var name := OffsetsModule(table);
      && Holds(table, parts, |parts|, modules + [name], files[name := text])
      && Same(files[name := text], before, modules + [name])
  {
    var name := OffsetsModule(table);
    var grown := modules + [name];
    forall k | 0 <= k < |parts|
      ensures grown[k] == PartModule(table, k) != name
    {
      assert grown[k] == modules[k];
      ModulesDiffer(table, k, k);
    }
  }

  lemma EmittedOneMore(
    table: string, parts: seq<seq<Entry>>, n: nat, modules: seq<string>,
    before: map<string, string>, files: map<string, string>)
    requires n < |parts| && Emitted(table, parts, n, modules, before, files)
    ensures Emitted(table, parts, n + 1, modules + [PartModule(table, n)], before,
                    files[PartModule(table, n) := DataFile(parts[n])])
  {
    var name, file := PartModule(table, n), DataFile(parts[n]);
    forall k | 0 <= k < n
      ensures modules[k] != name
    {
      ModulesDiffer(table, k, n);
    }
    HoldsOneMore(table, parts, n, modules, before, files, name, file);
  }

  lemma HoldsOneMore(
    table: string, parts: seq<seq<Entry>>, n: nat, modules: seq<string>,
    before: map<string, string>, files: map<string, string>, name: string, file: string)
    requires n < |parts| && Emitted(table, parts, n, modules, before, files)
    requires name == PartModule(table, n) && file == DataFile(parts[n])
    requires forall k :: 0 <= k < n ==> modules[k] != name
    ensures Emitted(table, parts, n + 1, modules + [name], before, files[name := file])
  {
    var grown := modules + [name];
    forall k | 0 <= k < n + 1
      ensures grown[k] == PartModule(table, k) && grown[k] in files[name := file]
      ensures files[name := file][grown[k]] == DataFile(parts[k])
    {
      if k < n { assert grown[k] == modules[k]; }
    }
  }

  /** The files agree except on these names. */
  ghost predicate Same(a: map<string, string>, b: map<string, string>, names: seq<string>) {
    forall n :: n !in names ==> (n in a <==> n in b) && (n in a ==> a[n] == b[n])
  }

  /** The loop that accumulates the offsets. */
  method SumLengths(entries: seq<Entry>) returns (offsets: seq<int>)
    ensures offsets == Offsets(entries)
  {
    var total := 0;
    offsets := [0];
    for i := 0 to |entries|
      invariant offsets == Offsets(entries[..i]) && total == offsets[i]
    {
      assert entries[..i + 1][..i] == entries[..i];
      total := total + |entries[i]|;
      offsets := offsets + [total];
    }
    assert entries[..|entries|] == entries;
  }
}
