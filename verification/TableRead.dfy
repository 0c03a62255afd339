/** Reading a generated table back from its files: the text between the brackets of each array,
    tokenized, with the entries cut out of the data at the offsets. */
module TableRead {
  import opened Wrappers
  import opened Text
  import opened Decimal

  /** The first place at or after `i` at which `needle` stands. */
  function Find(s: string, needle: string, i: nat): (r: Option<nat>)
    ensures r.Some? ==> i <= r.value && FoundAt(s, needle, r.value)
    ensures r.Some? ==> forall k :: i <= k < r.value ==> !FoundAt(s, needle, k)
    decreases |s| - i
  {
    if i >= |s| then None else if FoundAt(s, needle, i) then Some(i) else Find(s, needle, i + 1)
  }

  /** What stands between the first "&[" that ends a line and the next "];" that begins one. */
  function ArrayText(file: string): Option<string> {
    match Find(file, "&[\n", 0)
    case None => None
    case Some(i) =>
      match Find(file, "\n];", i + 3)
      case None => None
      case Some(j) => Some(file[i + 3..j])
  }

  /** The numbers of the file's array. */
  function Numbers(file: string): seq<int> {
    match ArrayText(file)
    case None => []
    case Some(text) => Ints(text)
  }

  /** Those of several files, one after the other. */
  function AllNumbers(files: map<string, string>, modules: seq<string>): seq<int> {
    if modules == [] then []
    else
      var name := modules[|modules| - 1];
      AllNumbers(files, modules[..|modules| - 1]) + if name in files then Numbers(files[name]) else []
  }

  /** Entry `k` is what the data hold between its offset and the next. */
  predicate EntryAt(data: seq<int>, offsets: seq<int>, entries: seq<seq<int>>, k: int)
    requires |offsets| == |entries| + 1 && 0 <= k < |entries|
  {
    0 <= offsets[k] <= offsets[k + 1] <= |data| && data[offsets[k]..offsets[k + 1]] == entries[k]
  }

  /** The offsets cut the data into the entries. */
  predicate CutInto(data: seq<int>, offsets: seq<int>, entries: seq<seq<int>>) {
    && |offsets| == |entries| + 1 && offsets[0] == 0 && offsets[|entries|] == |data|
    && forall k :: 0 <= k < |entries| ==> EntryAt(data, offsets, entries, k)
  }

  /** The entries can be read back from the files: the last module holds the offsets, the ones before
      it the data. */
  predicate ReadsBack(files: map<string, string>, modules: seq<string>, entries: seq<seq<int>>) {
    && modules != [] && (forall i :: 0 <= i < |modules| ==> modules[i] in files)
    && CutInto(AllNumbers(files, modules[..|modules| - 1]), Numbers(files[modules[|modules| - 1]]), entries)
  }

  lemma {:induction false} FindsFirst(s: string, needle: string, i: nat, k: nat)
    requires i <= k < |s| && FoundAt(s, needle, k) && forall j :: i <= j < k ==> !FoundAt(s, needle, j)
    ensures Find(s, needle, i) == Some(k)
    decreases k - i
  {
    if i < k { FindsFirst(s, needle, i + 1, k); }
  }

  /** Where no character is the one at `k` of the needle, the needle cannot stand `k` before. */
  lemma NotThere(s: string, needle: string, i: int, k: nat)
    requires k < |needle| && (i + k < 0 || i + k >= |s| || s[i + k] != needle[k])
    ensures !FoundAt(s, needle, i)
  {
    CharOf(s, needle, i, k);
  }

  lemma FirstOpening(before: string, rest: string)
    requires forall i :: 0 <= i < |before| && before[i] == '&' ==> i + 2 < |before| && before[i + 2] != '\n'
    ensures Find(before + ("&[\n" + rest), "&[\n", 0) == Some(|before|)
  {
    hide FoundAt, Find;
    var file := before + ("&[\n" + rest);
    Middle(before, "&[\n", rest);
    forall i | 0 <= i < |before| ensures !FoundAt(file, "&[\n", i) {
      assert file[i] == before[i];
      if file[i] == '&' {
        assert file[i + 2] == before[i + 2];
        NotThere(file, "&[\n", i, 2);
      } else {
        NotThere(file, "&[\n", i, 0);
      }
    }
    FindsFirst(file, "&[\n", 0, |before|);
  }

  lemma Middle(a: string, b: string, c: string)
    requires b != ""
    ensures FoundAt(a + (b + c), b, |a|)
  {
    assert (a + (b + c))[|a|..|a| + |b|] == b;
  }

  lemma MidChar(a: string, b: string, c: string, i: nat)
    requires |a| <= i <= |a| + |b| && c != ""
    ensures (a + (b + c))[i] == if i < |a| + |b| then b[i - |a|] else c[0]
  {
  }

  lemma Closes(before: string, text: string, end: string)
    requires ']' !in text && end != "" && end[0] != ']'
    requires FoundAt(before + (text + end), "\n];", |before| + |text|)
    ensures Find(before + (text + end), "\n];", |before|) == Some(|before| + |text|)
  {
    hide FoundAt, Find;
    var file, to := before + (text + end), |before| + |text|;
    forall i | |before| <= i < to ensures !FoundAt(file, "\n];", i) {
      MidChar(before, text, end, i + 1);
      NotThere(file, "\n];", i, 1);
    }
    FindsFirst(file, "\n];", |before|, to);
  }

  lemma FoundBehind(a: string, b: string, c: string, needle: string)
    requires FoundAt(c, needle, 0)
    ensures FoundAt(a + (b + c), needle, |a| + |b|)
  {
    assert (a + (b + c))[|a| + |b|..|a| + |b| + |needle|] == c[..|needle|];
  }

  lemma FirstClosing(before: string, text: string, end: string)
    requires ']' !in text && FoundAt(end, "\n];", 0)
    ensures Find(before + (text + end), "\n];", |before|) == Some(|before| + |text|)
  {
    CharOf(end, "\n];", 0, 0);
    hide FoundAt, Find;
    FoundBehind(before, text, end, "\n];");
    Closes(before, text, end);
  }

  /** Text without brackets is found between them, if nothing before it looks like an opening one. */
  lemma TextBetween(before: string, text: string, end: string)
    requires forall i :: 0 <= i < |before| && before[i] == '&' ==> i + 2 < |before| && before[i + 2] != '\n'
    requires ']' !in text && FoundAt(end, "\n];", 0)
    ensures ArrayText(before + ("&[\n" + (text + end))) == Some(text)
  {
    hide Find, FoundAt;
    FirstOpening(before, text + end);
    FirstClosing(before + "&[\n", text, end);
    Shifted(before, "&[\n", text, end);
  }

  lemma Shifted(a: string, b: string, c: string, d: string)
    ensures a + (b + (c + d)) == (a + b) + (c + d)
    ensures (a + (b + (c + d)))[|a| + |b|..|a| + |b| + |c|] == c
  {
  }
}
