/** Size arithmetic in machine integers (sdk/go/simulation.go, rng.go and rng_sequence.go).

    `int` is 32 or 64 bits wide; products wrap. Doubles are reals, NaN or infinite. */
module Dimensions {
  import opened Wrappers

  datatype Width = W32 | W64

  function MaxInt(w: Width): int {
    match w
    case W32 => 0x7FFF_FFFF
    case W64 => 0x7FFF_FFFF_FFFF_FFFF
  }

  /** The value of an `int` after two's complement wrap-around. */
  function Wrap(w: Width, x: int): int {
    var half := MaxInt(w) + 1;
    (x + half) % (2 * half) - half
  }

  predicate IsInt(w: Width, x: int) {
    -MaxInt(w) - 1 <= x <= MaxInt(w)
  }

  lemma WrapKeeps(w: Width, x: int)
    requires IsInt(w, x)
    ensures Wrap(w, x) == x
  {
  }

  /** A size_t that does not fit an `int` turns negative when converted. */
  lemma WrapOfSize(w: Width, x: int)
    requires 0 <= x <= 2 * MaxInt(w) + 1
    ensures x <= MaxInt(w) ==> Wrap(w, x) == x
    ensures x > MaxInt(w) ==> Wrap(w, x) < 0
  {
    var half := MaxInt(w) + 1;
    if x > MaxInt(w) {
      assert (x + half) % (2 * half) == x + half - 2 * half;
    }
  }

  lemma Spread(a: int, b: int, c: int)
    ensures a * (b + c) == a * b + a * c
  {
  }

  lemma NonNegativeProduct(a: int, b: int)
    requires a >= 0 && b >= 0
    ensures a * b >= 0
  {
  }

  lemma ProductGrows(a: int, b: int, c: int)
    requires a >= 0
    ensures b <= c ==> a * b <= a * c
  {
    if b <= c {
      Spread(a, b, c - b);
      NonNegativeProduct(a, c - b);
    }
  }

  lemma QuotientBounds(a: int, max: int)
    requires a > 0 && max >= 0
    ensures a * (max / a) <= max < a * (max / a) + a
  {
  }

  lemma DivisionBound(a: int, b: int, max: int)
    requires a > 0 && max >= 0
    ensures b > max / a <==> a * b > max
  {
    var q := max / a;
    QuotientBounds(a, max);
    ProductGrows(a, b, q);
    ProductGrows(a, q + 1, b);
    Spread(a, q, 1);
  }

  function CheckedProduct(w: Width, a: int, b: int): Option<int> {
    if a < 0 || b < 0 || (a != 0 && b > MaxInt(w) / a) then None else Some(Wrap(w, a * b))
  }

  /** checkedProduct succeeds exactly when both factors are nonnegative and the product fits an
      `int`, and then the wrapping multiplication gives the true product. */
  lemma ProductIsExact(w: Width, a: int, b: int)
    ensures CheckedProduct(w, a, b) == if a >= 0 && b >= 0 && a * b <= MaxInt(w) then Some(a * b) else None
  {
    if a > 0 && b >= 0 {
      DivisionBound(a, b, MaxInt(w));
      NonNegativeProduct(a, b);
    }
    if a >= 0 && b >= 0 && a * b <= MaxInt(w) {
      NonNegativeProduct(a, b);
      WrapKeeps(w, a * b);
    }
  }

  // ---- SimulateGBM ----

  datatype Double = Finite(value: real) | NaN | Infinite

  const DEFAULT_MAX_OUTPUT_VALUES := 16 * 1024 * 1024

  datatype GBMConfig = GBMConfig(
    initial: seq<Double>, drift: seq<Double>, volatility: seq<Double>, correlation: Option<seq<Double>>,
    horizon: Double, steps: int, paths: int, seed: int, terminalOnly: bool, maxOutputValues: int)

  datatype Simulation = Simulation(values: seq<Double>, paths: int, times: int, assets: int, terminalOnly: bool)

  predicate AssetOk(c: GBMConfig, i: nat)
    requires i < |c.initial| == |c.drift| == |c.volatility|
  {
    && c.initial[i].Finite? && c.initial[i].value > 0.0
    && c.drift[i].Finite?
    && c.volatility[i].Finite? && c.volatility[i].value >= 0.0
  }

  predicate InputsOk(c: GBMConfig) {
    && 1 <= |c.initial| <= 1024 && |c.drift| == |c.initial| && |c.volatility| == |c.initial|
    && c.steps > 0 && c.paths > 0 && c.seed != 0
    && c.horizon.Finite? && c.horizon.value >= 0.0
    && forall i :: 0 <= i < |c.initial| ==> AssetOk(c, i)
  }

  /** Rows per path, and all values, as unbounded integers. */
  function Times(c: GBMConfig): int { if c.terminalOnly then 1 else c.steps + 1 }

  function Cells(c: GBMConfig): int { c.paths * Times(c) * |c.initial| }

  function Limit(c: GBMConfig): int {
    if c.maxOutputValues == 0 then DEFAULT_MAX_OUTPUT_VALUES else c.maxOutputValues
  }

  predicate SizeOk(w: Width, c: GBMConfig) {
    Cells(c) <= Limit(c) && Cells(c) <= MaxInt(w) / 8
  }

  predicate CorrelationOk(c: GBMConfig) {
    c.correlation.None? || |c.correlation.value| == |c.initial| * |c.initial|
  }

  predicate IsIdentity(m: seq<Double>, n: nat) {
    && |m| == n * n
    && forall i, j :: 0 <= i < n && 0 <= j < n ==> Cell(m, n, i, j) == Finite(if i == j then 1.0 else 0.0)
  }

  /** Row i, column j of a row-major n by n matrix. */
  function Cell(m: seq<Double>, n: nat, i: nat, j: nat): Double
    requires |m| == n * n && i < n && j < n
  {
    CellInRange(n, i, j);
    m[i * n + j]
  }

  lemma CellInRange(n: nat, i: nat, j: nat)
    requires i < n && j < n
    ensures 0 <= i * n + j < n * n
  {
    NonNegativeProduct(i, n);
    LaterRow(i, n, n);
  }

  lemma CellsApart(n: nat, i: nat, j: nat, k: nat, l: nat)
    requires j < n && l < n && i * n + j == k * n + l
    ensures i == k && j == l
  {
    LaterRow(i, k, n);
    LaterRow(k, i, n);
  }

  lemma LaterRow(i: nat, k: nat, n: nat)
    ensures i < k ==> i * n + n <= k * n
  {
    ProductGrows(n, i + 1, k);
    Spread(n, i, 1);
  }

  /** The first `k` diagonal cells are set, the others are still zero. */
  ghost predicate Diagonal(m: seq<Double>, n: nat, k: nat) {
    && |m| == n * n
    && forall i, j :: 0 <= i < n && 0 <= j < n ==> Cell(m, n, i, j) == Finite(if i == j && i < k then 1.0 else 0.0)
  }

  lemma DiagonalNext(m: seq<Double>, n: nat, k: nat)
    requires Diagonal(m, n, k) && k < n
    ensures 0 <= k * n + k < n * n && Diagonal(m[k * n + k := Finite(1.0)], n, k + 1)
  {
    CellInRange(n, k, k);
    var next := m[k * n + k := Finite(1.0)];
    forall i, j | 0 <= i < n && 0 <= j < n
      ensures Cell(next, n, i, j) == Finite(if i == j && i < k + 1 then 1.0 else 0.0)
    {
      CellInRange(n, i, j);
      if i * n + j == k * n + k {
        CellsApart(n, i, j, k, k);
      } else {
        assert Cell(next, n, i, j) == Cell(m, n, i, j);
      }
    }
  }

  /** The correlation used when none is given. */
  method DefaultCorrelation(n: nat) returns (corr: seq<Double>)
    ensures IsIdentity(corr, n)
  {
    NonNegativeProduct(n, n);
    var m := new Double[n * n](_ => Finite(0.0));
    assert Diagonal(m[..], n, 0) by {
      forall i, j | 0 <= i < n && 0 <= j < n ensures Cell(m[..], n, i, j) == Finite(0.0) {
        CellInRange(n, i, j);
      }
    }
    for i := 0 to n
      invariant Diagonal(m[..], n, i)
    {
      DiagonalNext(m[..], n, i);
      m[i * n + i] := Finite(1.0);
    }
    corr := m[..];
  }

  method CheckAssets(c: GBMConfig) returns (ok: bool)
    requires |c.drift| == |c.initial| && |c.volatility| == |c.initial|
    ensures ok == forall i :: 0 <= i < |c.initial| ==> AssetOk(c, i)
  {
    for i := 0 to |c.initial|
      invariant forall j :: 0 <= j < i ==> AssetOk(c, j)
    {
      if !(c.initial[i].Finite? && c.initial[i].value > 0.0) || !c.drift[i].Finite?
         || !(c.volatility[i].Finite? && c.volatility[i].value >= 0.0) {
        assert !AssetOk(c, i);
        return false;
      }
    }
    ok := true;
  }

  /** The inputs that are refused before any size is computed, and no others. */
  lemma BadInputs(c: GBMConfig)
    ensures !InputsOk(c) <==>
              || |c.initial| == 0 || |c.initial| > 1024
              || |c.drift| != |c.initial| || |c.volatility| != |c.initial|
              || c.steps <= 0 || c.paths <= 0 || c.seed == 0
              || !c.horizon.Finite? || c.horizon.value < 0.0
              || exists i :: 0 <= i < |c.initial| && BadAsset(c, i)
  {
    if |c.drift| == |c.volatility| == |c.initial| {
      forall i | 0 <= i < |c.initial| ensures BadAsset(c, i) <==> !AssetOk(c, i) {
      }
    }
  }

  /** A start that is not a positive number, a drift that is no number, or a volatility that is not a
      number from zero on. */
  predicate BadAsset(c: GBMConfig, i: nat)
    requires i < |c.initial| == |c.drift| == |c.volatility|
  {
    || c.initial[i].NaN? || c.initial[i].Infinite? || c.initial[i].value <= 0.0
    || c.drift[i].NaN? || c.drift[i].Infinite?
    || c.volatility[i].NaN? || c.volatility[i].Infinite? || c.volatility[i].value < 0.0
  }

  /** The sizes and shapes that are refused: more values than the limit, given or default, more bytes
      than an `int` counts, or a correlation that is not n by n. */
  lemma BadSizes(w: Width, c: GBMConfig)
    ensures var rows, n := if c.terminalOnly then 1 else c.steps + 1, |c.initial|;
      !(SizeOk(w, c) && CorrelationOk(c)) <==>
        || c.paths * rows * n > (if c.maxOutputValues == 0 then 16_777_216 else c.maxOutputValues)
        || 8 * (c.paths * rows * n) > (if w.W32? then 0x7FFF_FFFF else 0x7FFF_FFFF_FFFF_FFFF)
        || (c.correlation.Some? && |c.correlation.value| != n * n)
  {
    var rows := if c.terminalOnly then 1 else c.steps + 1;
    EightBytes(c.paths * rows * |c.initial|, MaxInt(w));
  }

  lemma EightBytes(count: int, max: nat)
    ensures count > max / 8 <==> 8 * count > max
  {
  }

  /** The number of output values, by the code's own sequence of checks. */
  method OutputCount(w: Width, c: GBMConfig) returns (times: int, count: Option<int>)
    requires InputsOk(c)
    requires IsInt(w, c.steps) && IsInt(w, c.paths) && IsInt(w, c.maxOutputValues)
    ensures count == if SizeOk(w, c) then Some(Cells(c)) else None
    ensures count.Some? ==> times == Times(c)
  {
    CellsGrow(w, c);
    times := 1;
    if !c.terminalOnly {
      if c.steps == MaxInt(w) {
        return times, None;
      }
      times := Wrap(w, c.steps + 1);
    }
    assert times == Times(c);
    count := TwoProducts(w, c.paths, times, |c.initial|);
    if count.None? {
      return;
    }
    var limit := if c.maxOutputValues == 0 then DEFAULT_MAX_OUTPUT_VALUES else c.maxOutputValues;
    if limit < 0 || count.value > limit || count.value > MaxInt(w) / 8 {
      count := None;
    }
  }

  method TwoProducts(w: Width, a: int, b: int, n: int) returns (count: Option<int>)
    requires 0 < a * b <= a * b * n && a > 0 && b > 0
    ensures count == if a * b * n <= MaxInt(w) then Some(a * b * n) else None
  {
    ProductIsExact(w, a, b);
    count := CheckedProduct(w, a, b);
    if count.None? {
      return;
    }
    ProductIsExact(w, count.value, n);
    count := CheckedProduct(w, count.value, n);
  }

  /** No partial product exceeds the whole, so a size that fits never meets an overflow check. */
  lemma CellsGrow(w: Width, c: GBMConfig)
    requires InputsOk(c)
    ensures 0 < c.paths * Times(c) <= Cells(c) && Times(c) <= Cells(c)
  {
    var rows, n := c.paths * Times(c), |c.initial|;
    assert rows >= Times(c) by {
      assert (c.paths - 1) * Times(c) >= 0;
    }
    assert rows * n >= rows by {
      assert rows * (n - 1) >= 0;
    }
  }

  /** SimulateGBM. `native` stands for the library: whether it accepts the input, and the values it
      writes for an output buffer of the given length. */
  method SimulateGBM(w: Width, c: GBMConfig, native: (GBMConfig, nat) -> Option<nat -> Double>)
    returns (r: Option<Simulation>)
    requires IsInt(w, c.steps) && IsInt(w, c.paths) && IsInt(w, c.maxOutputValues)
    ensures r.Some? ==>
              && InputsOk(c) && SizeOk(w, c) && CorrelationOk(c)
              && r.value.paths == c.paths && r.value.assets == |c.initial| && r.value.times == Times(c)
              && |r.value.values| == r.value.paths * r.value.times * r.value.assets <= Limit(c)
              && exists corr :: Answered(c, corr, native, r.value.values)
    ensures r.Some? ==>
              && 1 <= |c.initial| <= 1024 && |c.drift| == |c.volatility| == |c.initial|
              && c.steps > 0 && c.paths > 0 && c.seed != 0 && c.horizon.Finite? && c.horizon.value >= 0.0
              && (forall i :: 0 <= i < |c.initial| ==> !BadAsset(c, i))
              && r.value.times == (if c.terminalOnly then 1 else c.steps + 1)
              && |r.value.values| <= (if c.maxOutputValues == 0 then 16_777_216 else c.maxOutputValues)
              && (c.correlation.Some? ==> |c.correlation.value| == |c.initial| * |c.initial|)
    ensures r.None? ==>
              || !(InputsOk(c) && SizeOk(w, c) && CorrelationOk(c))
              || exists corr :: Refused(c, corr, native)
  {
    var n := |c.initial|;
    if n < 1 || n > 1024 || |c.drift| != n || |c.volatility| != n || c.steps <= 0 || c.paths <= 0 || c.seed == 0 {
      return None;
    }
    if !c.horizon.Finite? || c.horizon.value < 0.0 {
      return None;
    }
    var assets := CheckAssets(c);
    if !assets {
      return None;
    }
    BadInputs(c);
    var times, count := OutputCount(w, c);
    if count.None? {
      return None;
    }
    var corr: seq<Double>;
    if c.correlation.None? {
      corr := DefaultCorrelation(n);
    } else {
      corr := c.correlation.value;
    }
    if |corr| != n * n {
      return None;
    }
    CellsGrow(w, c);
    var input := c.(correlation := Some(corr));
    var out := native(input, count.value);
    if out.None? {
      assert Refused(c, corr, native);
      return None;
    }
    var values := seq(count.value, i requires 0 <= i < count.value => out.value(i));
    assert Answered(c, corr, native, values);
    r := Some(Simulation(values, c.paths, times, n, c.terminalOnly));
  }

  /** The correlation handed to the library: the caller's, or the identity. */
  ghost predicate Used(c: GBMConfig, corr: seq<Double>) {
    if c.correlation.Some? then corr == c.correlation.value else IsIdentity(corr, |c.initial|)
  }

  ghost predicate Answered(
    c: GBMConfig, corr: seq<Double>, native: (GBMConfig, nat) -> Option<nat -> Double>, values: seq<Double>)
  {
    && Used(c, corr)
    && var out := native(c.(correlation := Some(corr)), |values|);
       out.Some? && forall i :: 0 <= i < |values| ==> values[i] == out.value(i)
  }

  ghost predicate Refused(c: GBMConfig, corr: seq<Double>, native: (GBMConfig, nat) -> Option<nat -> Double>) {
    Used(c, corr) && Cells(c) >= 0 && native(c.(correlation := Some(corr)), Cells(c)).None?
  }

  // ---- Drawing from a random sequence ----

  /** draw, inside one session task: the generator's dimension is a size_t, the request an int. */
  method Draw(w: Width, count: int, dimension: nat, native: (int, nat) -> Option<nat -> Double>)
    returns (r: Option<seq<Double>>)
    requires IsInt(w, count) && dimension <= 2 * MaxInt(w) + 1
    ensures r.Some? <==>
            && count >= 0 && dimension <= MaxInt(w) && count * dimension <= DEFAULT_MAX_OUTPUT_VALUES
            && native(count, count * dimension).Some?
    ensures r.Some? ==> |r.value| == count * dimension
    ensures r.Some? ==> forall i :: 0 <= i < |r.value| ==> r.value[i] == native(count, |r.value|).value(i)
  {
    WrapOfSize(w, dimension);
    ProductIsExact(w, count, Wrap(w, dimension));
    var size := CheckedProduct(w, count, Wrap(w, dimension));
    if size.None? {
      return None;
    }
    if size.value < 0 || size.value > DEFAULT_MAX_OUTPUT_VALUES {
      return None;
    }
    var out := native(count, size.value);
    if out.None? {
      return None;
    }
    r := Some(seq(size.value, i requires 0 <= i < size.value => out.value(i)));
  }
}
