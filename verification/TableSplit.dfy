/** How a table is cut into data files (scripts/gen_sobol_tables.py, split_entries). */
module TableSplit {
  import Decimal
  import opened TableText

  const MAX_DATA_FILE_BYTES := 900_000

  type Entry = seq<int>

  /** The estimate of a part. */
  function Bytes(part: seq<Entry>): nat {
    if part == [] then 0 else Bytes(part[..|part| - 1]) + Estimate(part[|part| - 1])
  }

  function Flatten(parts: seq<seq<Entry>>): seq<Entry> {
    if parts == [] then [] else Flatten(parts[..|parts| - 1]) + parts[|parts| - 1]
  }

  /** A part is within the limit, or holds one entry that cannot be divided. */
  predicate Fits(part: seq<Entry>) {
    Bytes(part) <= MAX_DATA_FILE_BYTES || |part| == 1
  }

  /** The parts are a cut of the entries, in order, into parts that fit. */
  predicate Cuts(parts: seq<seq<Entry>>, entries: seq<Entry>) {
    Flatten(parts) == entries && forall i :: 0 <= i < |parts| ==> Fits(parts[i])
  }

  /** Part `i` and the next are nonempty, and part `i` could not have taken the next entry. */
  predicate Tight(parts: seq<seq<Entry>>, i: int)
    requires 0 <= i < |parts| - 1
  {
    parts[i] != [] && parts[i + 1] != [] && Bytes(parts[i]) + Estimate(parts[i + 1][0]) > MAX_DATA_FILE_BYTES
  }

  predicate Greedy(parts: seq<seq<Entry>>) {
    forall i :: 0 <= i < |parts| - 1 ==> Tight(parts, i)
  }

  lemma FlattenOne(parts: seq<seq<Entry>>, part: seq<Entry>)
    ensures Flatten(parts + [part]) == Flatten(parts) + part
  {
    assert (parts + [part])[..|parts|] == parts;
  }

  /** The estimate of one entry, as split_entries adds it up. */
  method EntryBytes(entry: Entry) returns (bytes: nat)
    ensures bytes == Estimate(entry)
  {
    bytes := 0;
    for i := 0 to |entry|
      invariant bytes == Estimate(entry[..i])
    {
      assert entry[..i + 1][..i] == entry[..i];
      bytes := bytes + |Decimal.Str(entry[i])| + 2;
    }
    assert entry[..|entry|] == entry;
  }

  /** The parts closed so far and the current one, after the first `n` entries. */
  predicate Building(entries: seq<Entry>, n: nat, parts: seq<seq<Entry>>, current: seq<Entry>)
    requires n <= |entries|
  {
    && Cuts(parts + [current], entries[..n]) && Greedy(parts + [current])
    && (n > 0 ==> current != []) && (n == 0 ==> parts == [])
  }

  lemma BuildStart(entries: seq<Entry>)
    ensures Building(entries, 0, [], []) && Bytes([]) == 0
  {
    var none: seq<Entry> := [];
    assert [none][..0] == [] && Flatten([none]) == none;
    assert [] + [none] == [none];
  }

  lemma BuildEnd(entries: seq<Entry>, parts: seq<seq<Entry>>, current: seq<Entry>)
    requires Building(entries, |entries|, parts, current)
    ensures Cuts(parts + [current], entries) && Greedy(parts + [current])
    ensures entries != [] ==> current != []
  {
    assert entries[..|entries|] == entries;
  }

  /** split_entries: a greedy cut. */
  method SplitEntries(entries: seq<Entry>) returns (parts: seq<seq<Entry>>)
    ensures Cuts(parts, entries) && Greedy(parts) && |parts| >= 1
    ensures entries != [] ==> parts[|parts| - 1] != []
  {
    hide Bytes, Estimate, Building, Flatten;
    parts := [];
    var current: seq<Entry>, currentBytes := [], 0;
    BuildStart(entries);
    for i := 0 to |entries|
      invariant Building(entries, i, parts, current) && currentBytes == Bytes(current)
    {
      var entryBytes := EntryBytes(entries[i]);
      BytesOne(current, entries[i]);
      if current != [] && currentBytes + entryBytes > MAX_DATA_FILE_BYTES {
        BuildClose(entries, i, parts, current);
        parts := parts + [current];
        current, currentBytes := [], 0;
        BuildStart(entries);
        BytesOne(current, entries[i]);
        assert current + [entries[i]] == [entries[i]];
      } else {
        BuildGrow(entries, i, parts, current);
      }
      current := current + [entries[i]];
      currentBytes := currentBytes + entryBytes;
    }
    BuildEnd(entries, parts, current);
    parts := parts + [current];
  }

  lemma BytesOne(part: seq<Entry>, entry: Entry)
    ensures Bytes(part + [entry]) == Bytes(part) + Estimate(entry)
  {
    assert (part + [entry])[..|part|] == part;
  }

  lemma CloseCuts(parts: seq<seq<Entry>>, entry: Entry, entries: seq<Entry>)
    requires Cuts(parts, entries)
    ensures Cuts(parts + [[entry]], entries + [entry])
  {
    hide Bytes, Estimate;
    FlattenOne(parts, [entry]);
  }

  lemma CloseGreedy(parts: seq<seq<Entry>>, current: seq<Entry>, entry: Entry)
    requires Greedy(parts + [current]) && current != []
    requires Bytes(current) + Estimate(entry) > MAX_DATA_FILE_BYTES
    ensures Greedy(parts + [current] + [[entry]])
  {
    hide Bytes, Estimate;
    var before, all := parts + [current], parts + [current] + [[entry]];
    forall i | 0 <= i < |all| - 1
      ensures Tight(all, i)
    {
      if i < |all| - 2 { assert Tight(before, i) && before[i] == all[i] && before[i + 1] == all[i + 1]; }
    }
  }

  /** The current part is full: the entry starts a new one. */
  lemma BuildClose(entries: seq<Entry>, n: nat, parts: seq<seq<Entry>>, current: seq<Entry>)
    requires n < |entries| && Building(entries, n, parts, current) && current != []
    requires Bytes(current) + Estimate(entries[n]) > MAX_DATA_FILE_BYTES
    ensures Building(entries, n + 1, parts + [current], [entries[n]])
  {
    hide Bytes, Estimate;
    CloseCuts(parts + [current], entries[n], entries[..n]);
    CloseGreedy(parts, current, entries[n]);
    assert entries[..n + 1] == entries[..n] + [entries[n]];
  }

  lemma GrowCuts(parts: seq<seq<Entry>>, current: seq<Entry>, entry: Entry, entries: seq<Entry>)
    requires Cuts(parts + [current], entries) && Fits(current + [entry])
    ensures Cuts(parts + [current + [entry]], entries + [entry])
  {
    hide Bytes, Estimate;
    FlattenOne(parts, current);
    FlattenOne(parts, current + [entry]);
    var before, all := parts + [current], parts + [current + [entry]];
    forall i | 0 <= i < |all|
      ensures Fits(all[i])
    {
      if i < |parts| { assert all[i] == before[i]; }
    }
  }

  lemma GrowGreedy(parts: seq<seq<Entry>>, current: seq<Entry>, entry: Entry)
    requires Greedy(parts + [current]) && (current == [] ==> parts == [])
    ensures Greedy(parts + [current + [entry]])
  {
    hide Bytes, Estimate;
    var before, all := parts + [current], parts + [current + [entry]];
    forall i | 0 <= i < |all| - 1
      ensures Tight(all, i)
    {
      assert Tight(before, i) && before[i] == all[i] && before[i + 1][0] == all[i + 1][0];
    }
  }

  lemma GrowFits(current: seq<Entry>, entry: Entry)
    requires current == [] || Bytes(current) + Estimate(entry) <= MAX_DATA_FILE_BYTES
    ensures Fits(current + [entry])
  {
    hide Bytes, Estimate;
    BytesOne(current, entry);
  }

  /** The current part takes the entry. */
  lemma BuildGrow(entries: seq<Entry>, n: nat, parts: seq<seq<Entry>>, current: seq<Entry>)
    requires n < |entries| && Building(entries, n, parts, current)
    requires current == [] || Bytes(current) + Estimate(entries[n]) <= MAX_DATA_FILE_BYTES
    ensures Building(entries, n + 1, parts, current + [entries[n]])
  {
    hide Bytes, Estimate;
    GrowFits(current, entries[n]);
    assert entries[..n + 1] == entries[..n] + [entries[n]];
    GrowCuts(parts, current, entries[n], entries[..n]);
    GrowGreedy(parts, current, entries[n]);
  }

  // ---- No cut has fewer parts ----

  /** Where part `k` starts among the entries. */
  function Start(parts: seq<seq<Entry>>, k: nat): nat
    requires k <= |parts|
  {
    if k == 0 then 0 else Start(parts, k - 1) + |parts[k - 1]|
  }

  lemma {:induction false} StartInPrefix(parts: seq<seq<Entry>>, k: nat)
    requires k < |parts|
    ensures Start(parts[..|parts| - 1], k) == Start(parts, k)
  {
    if k > 0 { StartInPrefix(parts, k - 1); }
  }

  lemma {:induction false} StartsEnd(parts: seq<seq<Entry>>)
    ensures Start(parts, |parts|) == |Flatten(parts)|
  {
    if parts != [] {
      StartsEnd(parts[..|parts| - 1]);
      StartInPrefix(parts, |parts| - 1);
    }
  }

  lemma {:induction false} PartIsSlice(parts: seq<seq<Entry>>, k: nat)
    requires k < |parts|
    ensures Start(parts, k) <= Start(parts, k + 1) <= |Flatten(parts)|
    ensures Flatten(parts)[Start(parts, k)..Start(parts, k + 1)] == parts[k]
    decreases |parts|
  {
    var last := |parts| - 1;
    StartInPrefix(parts, k);
    StartsEnd(parts[..last]);
    if k < last {
      PartIsSlice(parts[..last], k);
      StartInPrefix(parts, k + 1);
    }
  }

  lemma {:induction false} BytesAppend(a: seq<Entry>, b: seq<Entry>)
    ensures Bytes(a + b) == Bytes(a) + Bytes(b)
  {
    if b == [] {
      assert a + b == a;
    } else {
      assert (a + b)[..|a + b| - 1] == a + b[..|b| - 1];
      BytesAppend(a, b[..|b| - 1]);
    }
  }

  /** A longer stretch of entries has at least the bytes of a shorter one inside it. */
  lemma BytesInside(entries: seq<Entry>, a: nat, c: nat, d: nat, b: nat)
    requires a <= c <= d <= b <= |entries|
    ensures Bytes(entries[c..d]) <= Bytes(entries[a..b])
  {
    hide Bytes;
    assert entries[a..b] == entries[a..c] + entries[c..d] + entries[d..b];
    BytesAppend(entries[a..c] + entries[c..d], entries[d..b]);
    BytesAppend(entries[a..c], entries[c..d]);
  }

  lemma SliceAt(entries: seq<Entry>, from: nat, to: nat, part: seq<Entry>)
    requires from <= to <= |entries| && entries[from..to] == part && part != []
    ensures from < to && entries[from] == part[0]
  {
  }

  lemma BytesExtend(entries: seq<Entry>, from: nat, to: nat)
    requires from <= to < |entries|
    ensures Bytes(entries[from..to + 1]) == Bytes(entries[from..to]) + Estimate(entries[to])
  {
    hide Bytes, Estimate;
    assert entries[from..to + 1] == entries[from..to] + [entries[to]];
    BytesOne(entries[from..to], entries[to]);
  }

  /** A nonempty part is the stretch of entries between its start and the next one's. */
  lemma PartAt(parts: seq<seq<Entry>>, entries: seq<Entry>, k: nat)
    requires Flatten(parts) == entries && k < |parts| && parts[k] != []
    ensures Start(parts, k) < Start(parts, k + 1) <= |entries|
    ensures entries[Start(parts, k)..Start(parts, k + 1)] == parts[k]
    ensures entries[Start(parts, k)] == parts[k][0]
  {
    hide Flatten, Start;
    PartIsSlice(parts, k);
    SliceAt(entries, Start(parts, k), Start(parts, k + 1), parts[k]);
  }

  /** The greedy part and the entry after it are too large together. */
  lemma GreedyOverflow(parts: seq<seq<Entry>>, entries: seq<Entry>, k: nat)
    requires Flatten(parts) == entries && Greedy(parts) && k + 1 < |parts|
    ensures Start(parts, k) < Start(parts, k + 1) < |entries|
    ensures Bytes(entries[Start(parts, k)..Start(parts, k + 1) + 1]) > MAX_DATA_FILE_BYTES
  {
    hide Bytes, Estimate, Flatten, Start;
    assert Tight(parts, k);
    PartAt(parts, entries, k);
    PartAt(parts, entries, k + 1);
    BytesExtend(entries, Start(parts, k), Start(parts, k + 1));
  }

  /** A stretch that fits and starts no later than one with too many bytes ends before it does. */
  lemma FitsEndsEarlier(entries: seq<Entry>, a: nat, from: nat, to: nat, b: nat)
    requires a <= from < to < |entries| && a <= b <= |entries| && Fits(entries[a..b])
    requires Bytes(entries[from..to + 1]) > MAX_DATA_FILE_BYTES
    ensures b <= to
  {
    hide Bytes;
    if b > to { BytesInside(entries, a, from, to + 1, b); }
  }

  lemma CutPart(other: seq<seq<Entry>>, entries: seq<Entry>, k: nat)
    requires Cuts(other, entries) && k < |other|
    ensures Start(other, k) <= Start(other, k + 1) <= |entries|
    ensures Fits(entries[Start(other, k)..Start(other, k + 1)])
  {
    hide Bytes, Flatten, Start;
    PartIsSlice(other, k);
  }

  /** A part that fits and starts no later than a greedy part ends no later either. */
  lemma GreedyReaches(parts: seq<seq<Entry>>, other: seq<seq<Entry>>, entries: seq<Entry>, k: nat)
    requires Flatten(parts) == entries && Greedy(parts) && Cuts(other, entries)
    requires k + 1 < |parts| && k < |other| && Start(other, k) <= Start(parts, k)
    ensures Start(other, k + 1) <= Start(parts, k + 1)
  {
    hide Bytes, Estimate, Flatten, Start;
    CutPart(other, entries, k);
    GreedyOverflow(parts, entries, k);
    FitsEndsEarlier(entries, Start(other, k), Start(parts, k), Start(parts, k + 1), Start(other, k + 1));
  }

  lemma {:induction false} GreedyIsAhead(parts: seq<seq<Entry>>, other: seq<seq<Entry>>, entries: seq<Entry>, k: nat)
    requires Flatten(parts) == entries && Greedy(parts) && Cuts(other, entries)
    requires k < |parts| && k <= |other|
    ensures Start(other, k) <= Start(parts, k)
    decreases k
  {
    if k > 0 {
      GreedyIsAhead(parts, other, entries, k - 1);
      GreedyReaches(parts, other, entries, k - 1);
    }
  }

  lemma PartsNonempty(parts: seq<seq<Entry>>, k: nat)
    requires Greedy(parts) && k < |parts| && parts[|parts| - 1] != []
    ensures parts[k] != []
  {
    if k < |parts| - 1 { assert Tight(parts, k); }
  }

  /** A greedy cut of a nonempty table has the fewest parts of all cuts into parts that fit. */
  lemma GreedyIsShortest(parts: seq<seq<Entry>>, other: seq<seq<Entry>>, entries: seq<Entry>)
    requires entries != [] && Flatten(parts) == entries && Greedy(parts) && parts != [] && parts[|parts| - 1] != []
    requires Cuts(other, entries)
    ensures |parts| <= |other|
  {
    if |other| < |parts| {
      PartsNonempty(parts, |other|);
      PartIsSlice(parts, |other|);
      StartsEnd(other);
      GreedyIsAhead(parts, other, entries, |other|);
    }
  }
}
