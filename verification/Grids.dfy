/** Row-major grids handed to the native library (sdk/go/volgrid.go, volcube.go and
    inflation_volgrid.go). A grid is a slice of row slices, possibly ragged. */
module Grids {
  import opened Wrappers
  import opened Dimensions

  // ---- Row-major buffers ----

  predicate Rectangular<T>(grid: seq<seq<T>>, rows: nat, cols: nat) {
    |grid| == rows && forall i :: 0 <= i < |grid| ==> |grid[i]| == cols
  }

  lemma InBuffer(rows: nat, cols: nat, i: nat, j: nat)
    requires i < rows && j < cols
    ensures 0 <= i * cols + j < rows * cols
  {
    LaterRow(i, rows, cols);
  }

  /** Row i, column j of a buffer of `rows` rows. */
  function At<T>(flat: seq<T>, rows: nat, cols: nat, i: nat, j: nat): T
    requires |flat| == rows * cols && i < rows && j < cols
  {
    InBuffer(rows, cols, i, j);
    flat[i * cols + j]
  }

  /** `flat` lists the grid row by row: its length is the cell count, and cell (i, j) is at i*cols+j. */
  ghost predicate RowMajor<T>(grid: seq<seq<T>>, rows: nat, cols: nat, flat: seq<T>) {
    && Rectangular(grid, rows, cols)
    && |flat| == rows * cols
    && forall i, j :: 0 <= i < rows && 0 <= j < cols ==> At(flat, rows, cols, i, j) == grid[i][j]
  }

  /** Reading a buffer back as rows. */
  function Reshape<T>(flat: seq<T>, rows: nat, cols: nat): seq<seq<T>>
    requires |flat| == rows * cols
  {
    seq(rows, i requires 0 <= i < rows => seq(cols, j requires 0 <= j < cols => At(flat, rows, cols, i, j)))
  }

  /** Reshaping undoes flattening, so a buffer determines its grid and a grid its buffer. */
  lemma ReshapeUndoes<T>(grid: seq<seq<T>>, rows: nat, cols: nat, flat: seq<T>)
    ensures RowMajor(grid, rows, cols, flat) <==> |flat| == rows * cols && Reshape(flat, rows, cols) == grid
  {
    if RowMajor(grid, rows, cols, flat) {
      var back := Reshape(flat, rows, cols);
      forall i | 0 <= i < rows ensures back[i] == grid[i] {
        forall j | 0 <= j < cols ensures back[i][j] == grid[i][j] {
          assert At(flat, rows, cols, i, j) == grid[i][j];
        }
      }
      assert back == grid;
    }
  }

  lemma OneBuffer<T>(grid: seq<seq<T>>, rows: nat, cols: nat, a: seq<T>, b: seq<T>)
    requires RowMajor(grid, rows, cols, a) && RowMajor(grid, rows, cols, b)
    ensures a == b
  {
    if cols == 0 {
      assert rows * cols == 0;
    } else {
      forall k | 0 <= k < rows * cols ensures a[k] == b[k] {
        var i, j := k / cols, k % cols;
        assert k == i * cols + j;
        RowOf(rows, cols, i, j);
        assert At(a, rows, cols, i, j) == At(b, rows, cols, i, j);
      }
    }
  }

  lemma RowOf(rows: nat, cols: nat, i: nat, j: nat)
    requires i * cols + j < rows * cols
    ensures i < rows
  {
    FewerRows(rows, i, cols);
  }

  lemma FewerRows(rows: nat, i: nat, cols: nat)
    ensures rows <= i ==> rows * cols <= i * cols
  {
    if rows <= i {
      assert (i - rows) * cols >= 0;
    }
  }

  /** A further row, appended value by value or as a whole, keeps a buffer row-major. */
  lemma AppendRow<T>(grid: seq<seq<T>>, k: nat, cols: nat, flat: seq<T>)
    requires k < |grid| && |grid[k]| == cols && RowMajor(grid[..k], k, cols, flat)
    ensures RowMajor(grid[..k + 1], k + 1, cols, flat + grid[k])
  {
    var next, n, grown := flat + grid[k], k + 1, grid[..k + 1];
    assert |next| == n * cols;
    forall i, j | 0 <= i < n && 0 <= j < cols ensures At(next, n, cols, i, j) == grown[i][j] {
      InBuffer(n, cols, i, j);
      if i < k {
        InBuffer(k, cols, i, j);
        assert At(flat, k, cols, i, j) == grid[..k][i][j];
      }
    }
  }

  // ---- Numeric grids ----

  /** volGrid's flatten. */
  method Flatten<T>(grid: seq<seq<T>>, rows: nat, cols: nat) returns (r: Option<seq<T>>)
    ensures r.Some? <==> Rectangular(grid, rows, cols)
    ensures r.Some? ==> RowMajor(grid, rows, cols, r.value)
  {
    if |grid| != rows {
      return None;
    }
    var result: seq<T> := [];
    for k := 0 to |grid|
      invariant RowMajor(grid[..k], k, cols, result)
    {
      if |grid[k]| != cols {
        return None;
      }
      ghost var before := result;
      for j := 0 to |grid[k]|
        invariant result == before + grid[k][..j]
      {
        result := result + [grid[k][j]];
      }
      assert grid[k][..|grid[k]|] == grid[k];
      AppendRow(grid, k, cols, before);
    }
    assert grid[..|grid|] == grid;
    r := Some(result);
  }

  /** inflationMatrix, which also refuses an empty matrix. */
  method InflationMatrix<T>(rows: seq<seq<T>>, expectedRows: nat, expectedColumns: nat) returns (r: Option<seq<T>>)
    ensures r.Some? <==> Rectangular(rows, expectedRows, expectedColumns) && expectedRows != 0 && expectedColumns != 0
    ensures r.Some? ==> RowMajor(rows, expectedRows, expectedColumns, r.value)
  {
    if |rows| != expectedRows || expectedRows == 0 || expectedColumns == 0 {
      return None;
    }
    var flat: seq<T> := [];
    for k := 0 to |rows|
      invariant RowMajor(rows[..k], k, expectedColumns, flat)
    {
      if |rows[k]| != expectedColumns {
        return None;
      }
      AppendRow(rows, k, expectedColumns, flat);
      flat := flat + rows[k];
    }
    assert rows[..|rows|] == rows;
    r := Some(flat);
  }

  // ---- Quote grids ----

  /** A wrapper by its handle; a cell may be nil. */
  datatype Quote = Quote(session: nat, id: nat)

  predicate NoNil(row: seq<Option<Quote>>) {
    forall j :: 0 <= j < |row| ==> row[j].Some?
  }

  predicate NoNils(grid: seq<seq<Option<Quote>>>) {
    forall i :: 0 <= i < |grid| ==> NoNil(grid[i])
  }

  function Quotes(row: seq<Option<Quote>>): seq<Quote>
    requires NoNil(row)
  {
    seq(|row|, j requires 0 <= j < |row| => row[j].value)
  }

  function QuoteRows(grid: seq<seq<Option<Quote>>>): seq<seq<Quote>>
    requires NoNils(grid)
  {
    seq(|grid|, i requires 0 <= i < |grid| => Quotes(grid[i]))
  }

  function IdsOf(quotes: seq<Quote>): seq<nat> {
    seq(|quotes|, i requires 0 <= i < |quotes| => quotes[i].id)
  }

  ghost predicate QuoteBuffer(grid: seq<seq<Option<Quote>>>, rows: nat, cols: nat, flat: seq<Quote>) {
    NoNils(grid) && RowMajor(QuoteRows(grid), rows, cols, flat)
  }

  /** The inner loop: one row's handles, and its quotes as further dependencies. */
  method AppendQuoteRow(row: seq<Option<Quote>>, ids: seq<nat>, deps: seq<Quote>)
    returns (ok: bool, moreIds: seq<nat>, moreDeps: seq<Quote>)
    ensures ok == NoNil(row)
    ensures ok ==> moreIds == ids + IdsOf(Quotes(row)) && moreDeps == deps + Quotes(row)
  {
    moreIds, moreDeps := ids, deps;
    for j := 0 to |row|
      invariant NoNil(row[..j])
      invariant moreDeps == deps + Quotes(row[..j])
      invariant moreIds == ids + IdsOf(Quotes(row[..j]))
    {
      if row[j].None? {
        return false, moreIds, moreDeps;
      }
      assert NoNil(row[..j + 1]);
      assert Quotes(row[..j + 1]) == Quotes(row[..j]) + [row[j].value];
      assert IdsOf(Quotes(row[..j + 1])) == IdsOf(Quotes(row[..j])) + [row[j].value.id];
      moreDeps := moreDeps + [row[j].value];
      moreIds := moreIds + [row[j].value.id];
    }
    assert row[..|row|] == row;
    ok := true;
  }

  /** The quote loop of volGrid and the flatten of volCube: the handles in row-major order, and
      every quote appended to the dependencies whose session is checked afterwards. */
  method FlattenQuotes(grid: seq<seq<Option<Quote>>>, rows: nat, cols: nat, deps: seq<Quote>)
    returns (ids: Option<seq<nat>>, all: seq<Quote>)
    ensures ids.Some? <==> Rectangular(grid, rows, cols) && NoNils(grid)
    ensures ids.Some? ==>
      exists flat :: QuoteBuffer(grid, rows, cols, flat) && ids.value == IdsOf(flat) && all == deps + flat
  {
    all := deps;
    if |grid| != rows {
      return None, all;
    }
    var result: seq<nat> := [];
    ghost var flat: seq<Quote> := [];
    for k := 0 to |grid|
      invariant QuoteBuffer(grid[..k], k, cols, flat)
      invariant result == IdsOf(flat) && all == deps + flat
    {
      if |grid[k]| != cols {
        assert !Rectangular(grid, rows, cols);
        return None, all;
      }
      var ok: bool;
      ok, result, all := AppendQuoteRow(grid[k], result, all);
      if !ok {
        assert !NoNils(grid);
        return None, all;
      }
      AppendQuotes(grid, k, cols, flat);
      assert IdsOf(flat + Quotes(grid[k])) == IdsOf(flat) + IdsOf(Quotes(grid[k]));
      flat := flat + Quotes(grid[k]);
    }
    assert grid[..|grid|] == grid;
    assert forall i :: 0 <= i < |grid| ==> |grid[i]| == |QuoteRows(grid)[i]|;
    ids := Some(result);
  }

  lemma AppendQuotes(grid: seq<seq<Option<Quote>>>, k: nat, cols: nat, flat: seq<Quote>)
    requires k < |grid| && NoNil(grid[k]) && |grid[k]| == cols && QuoteBuffer(grid[..k], k, cols, flat)
    ensures QuoteBuffer(grid[..k + 1], k + 1, cols, flat + Quotes(grid[k]))
  {
    var rows := QuoteRows(grid[..k + 1]);
    assert rows[..k] == QuoteRows(grid[..k]);
    assert rows[..k + 1] == rows;
    AppendRow(rows, k, cols, flat);
  }

  // ---- volGrid ----

  /** What volGrid is given: the axis lengths, the option dates if any, and the grids. */
  datatype GridConfig<!T> = GridConfig(
    optionTenors: nat, swapTenors: nat, strikes: nat, optionDates: Option<nat>, swaption: bool, settings: bool,
    volatilities: seq<seq<T>>, shifts: Option<seq<seq<T>>>, quotes: Option<seq<seq<Option<Quote>>>>)

  /** What it passes on: the shape, a size_t count, and the buffers; empty ones are passed as nil. */
  datatype Buffers<T> = Buffers(rows: nat, cols: nat, count: nat, values: seq<T>, quotes: seq<nat>, shifts: seq<T>)

  function Rows<T>(x: GridConfig<T>): nat { if x.optionDates.Some? then x.optionDates.value else x.optionTenors }

  function Cols<T>(x: GridConfig<T>): nat { if x.swaption then x.swapTenors else x.strikes }

  /** Both axes are nonempty; option dates come with a swaption grid of fixed numbers, without option
      tenors. Every grid has a row per option and a column per swap tenor or strike, and no nil quote. */
  ghost predicate Admissible<T>(x: GridConfig<T>) {
    var rows := if x.optionDates.Some? then x.optionDates.value else x.optionTenors;
    var cols := if x.swaption then x.swapTenors else x.strikes;
    && rows > 0 && cols > 0
    && (x.optionDates.Some? ==> x.swaption && x.optionTenors == 0 && !x.settings && x.quotes.None?)
    && (x.quotes.None? ==> Rectangular(x.volatilities, rows, cols))
    && (x.quotes.Some? ==>
          && Rectangular(x.quotes.value, rows, cols)
          && forall i, j :: 0 <= i < rows && 0 <= j < cols ==> x.quotes.value[i][j].Some?)
    && (x.shifts.Some? ==> Rectangular(x.shifts.value, rows, cols))
  }

  /** Either live quotes or numbers fill the grid, never both; shifts come with either. */
  ghost predicate Filled<T>(x: GridConfig<T>, b: Buffers<T>, fixed: seq<Quote>, deps: seq<Quote>) {
    && b.rows == Rows(x) && b.cols == Cols(x)
    && (if x.quotes.Some? then
          && b.values == []
          && exists flat ::
            QuoteBuffer(x.quotes.value, b.rows, b.cols, flat) && b.quotes == IdsOf(flat) && deps == fixed + flat
        else RowMajor(x.volatilities, b.rows, b.cols, b.values) && b.quotes == [] && deps == fixed)
    && (if x.shifts.Some? then RowMajor(x.shifts.value, b.rows, b.cols, b.shifts) else b.shifts == [])
  }

  /** A size_t product. */
  function SizeProduct(w: Width, rows: nat, cols: nat): nat {
    (rows * cols) % (2 * (MaxInt(w) + 1))
  }

  /** volGrid up to the session check. The count passed on is the length of the buffer that is
      passed beside it, for any buffer that fits a Go slice. */
  method VolGrid<T>(w: Width, x: GridConfig<T>, fixed: seq<Quote>) returns (b: Option<Buffers<T>>, deps: seq<Quote>)
    ensures b.Some? <==> Admissible(x)
    ensures b.Some? ==> Filled(x, b.value, fixed, deps)
    ensures b.Some? ==>
              && b.value.rows == (if x.optionDates.Some? then x.optionDates.value else x.optionTenors) != 0
              && b.value.cols == (if x.swaption then x.swapTenors else x.strikes) != 0
    ensures b.Some? && Rows(x) * Cols(x) <= MaxInt(w) ==>
              b.value.count == if x.quotes.Some? then |b.value.quotes| else |b.value.values|
  {
    deps := fixed;
    var rows, cols := x.optionTenors, x.strikes;
    if x.optionDates.Some? {
      if !x.swaption || x.optionTenors != 0 || x.settings || x.quotes.Some? {
        return None, deps;
      }
      rows := x.optionDates.value;
    }
    if x.swaption {
      cols := x.swapTenors;
    }
    if rows == 0 || cols == 0 {
      return None, deps;
    }
    var values: seq<T>, quotes: seq<nat>, shifts: seq<T> := [], [], [];
    if x.quotes.Some? {
      var ids;
      ids, deps := FlattenQuotes(x.quotes.value, rows, cols, deps);
      if ids.None? {
        return None, deps;
      }
      quotes := ids.value;
    } else {
      var flat := Flatten(x.volatilities, rows, cols);
      if flat.None? {
        return None, deps;
      }
      values := flat.value;
    }
    if x.shifts.Some? {
      var flat := Flatten(x.shifts.value, rows, cols);
      if flat.None? {
        return None, deps;
      }
      shifts := flat.value;
    }
    CountFits(w, rows, cols);
    b := Some(Buffers(rows, cols, SizeProduct(w, rows, cols), values, quotes, shifts));
  }

  lemma CountFits(w: Width, rows: nat, cols: nat)
    ensures rows * cols <= MaxInt(w) ==> SizeProduct(w, rows, cols) == rows * cols
  {
    NonNegativeProduct(rows, cols);
  }

  // ---- volCube ----

  /** volCube's dimension check: the node count is exact, never wrapped. */
  method CubeNodes(w: Width, options: nat, swaps: nat, strikes: nat) returns (nodes: Option<int>)
    ensures nodes == if options > 0 && swaps > 0 && strikes > 0 && options * swaps <= MaxInt(w)
                     then Some(options * swaps) else None
  {
    if options == 0 || swaps == 0 || strikes == 0 {
      return None;
    }
    DivisionBound(swaps, options, MaxInt(w));
    if options > MaxInt(w) / swaps {
      return None;
    }
    WrapKeeps(w, options * swaps);
    nodes := Some(Wrap(w, options * swaps));
  }

  /** The buffers of a cube: spreads, and for the SABR cube four parameters a row. */
  ghost predicate CubeBuffers(
    nodes: nat, strikes: nat, sabr: bool, volSpreads: seq<seq<Option<Quote>>>, guesses: seq<seq<Option<Quote>>>,
    spreads: seq<Quote>, parameters: seq<Quote>)
  {
    && QuoteBuffer(volSpreads, nodes, strikes, spreads)
    && (if sabr then QuoteBuffer(guesses, nodes, 4, parameters) else parameters == [])
  }

  /** volCube up to the session check: one row per tenor pair in each grid. The dependencies are
      the fixed ones, then all quotes in the order of their buffers. */
  method VolCube(w: Width, options: nat, swaps: nat, strikes: nat, sabr: bool, fixed: seq<Quote>,
                 volSpreads: seq<seq<Option<Quote>>>, guesses: seq<seq<Option<Quote>>>)
    returns (vols: Option<seq<nat>>, params: seq<nat>, deps: seq<Quote>)
    ensures vols.Some? <==>
              && options > 0 && swaps > 0 && strikes > 0 && options * swaps <= MaxInt(w)
              && Rectangular(volSpreads, options * swaps, strikes) && NoNils(volSpreads)
              && (sabr ==> Rectangular(guesses, options * swaps, 4) && NoNils(guesses))
    ensures vols.Some? ==>
              exists a, b :: CubeBuffers(options * swaps, strikes, sabr, volSpreads, guesses, a, b)
                && vols.value == IdsOf(a) && params == IdsOf(b) && deps == fixed + a + b
  {
    params, deps := [], fixed;
    var nodes := CubeNodes(w, options, swaps, strikes);
    if nodes.None? {
      return None, params, deps;
    }
    vols, deps := FlattenQuotes(volSpreads, nodes.value, strikes, deps);
    if vols.None? {
      return;
    }
    ghost var a :| QuoteBuffer(volSpreads, nodes.value, strikes, a) && vols.value == IdsOf(a) && deps == fixed + a;
    ghost var b: seq<Quote> := [];
    if sabr {
      var ids;
      ids, deps := FlattenQuotes(guesses, nodes.value, 4, deps);
      if ids.None? {
        return None, params, deps;
      }
      params := ids.value;
      b :| QuoteBuffer(guesses, nodes.value, 4, b) && params == IdsOf(b) && deps == fixed + a + b;
    }
    assert CubeBuffers(nodes.value, strikes, sabr, volSpreads, guesses, a, b);
    assert params == IdsOf(b);
    assert deps == fixed + a + b;
  }
}
