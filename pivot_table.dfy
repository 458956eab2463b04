/** A pivot table as the chain holds it, and the steps of `pivot_format`:
    null fill, the "Grand Total" column of row sums, the "Grand Total" row
    of column sums, and currency text formatting. */
module PivotTable {
  import opened Wrappers
  import Currency

  /** The label of the synthesized total column and total row. */
  const GrandTotal := "Grand Total"

  /** The column types the model distinguishes: the library's `Int64`
      columns, whose values the model keeps unbounded, and text. */
  datatype DType = Int64 | Utf8

  datatype Cell = Null | Int(value: int) | Text(text: string)

  datatype Column = Column(name: string, dtype: DType)

  /** A row: its key in the index (group) column, then one cell per value column. */
  datatype Row = Row(key: string, cells: seq<Cell>)

  /** A table: the name of its first (index) column, its value columns in
      schema order, and its rows. */
  datatype Frame = Frame(index: string, columns: seq<Column>, rows: seq<Row>)

  /** Errors the data frame library raises in the modelled steps. */
  datatype LibraryError =
    | TypeError
    | ColumnNotFound(name: string)
    | InvalidOperation(column: string)
    | SchemaMismatch
    | DecodeFailure(message: string)

  /** A cell fits a column type when it is null or of that type. */
  predicate Fits(c: Cell, t: DType) {
    match c
    case Null => true
    case Int(_) => t == Int64
    case Text(_) => t == Utf8
  }

  predicate WellTyped(rows: seq<Row>, columns: seq<Column>) {
    && (forall i :: 0 <= i < |rows| ==> |rows[i].cells| == |columns|)
    && (forall i, j :: 0 <= i < |rows| && 0 <= j < |rows[i].cells| && j < |columns| ==>
          Fits(rows[i].cells[j], columns[j].dtype))
  }

  predicate DistinctNames(index: string, columns: seq<Column>) {
    && (forall j :: 0 <= j < |columns| ==> columns[j].name != index)
    && (forall j, k :: 0 <= j < k < |columns| ==> columns[j].name != columns[k].name)
  }

  /** Every row has one cell per column, each cell fits its column, and the
      column names are unique. */
  predicate WellFormed(f: Frame) {
    WellTyped(f.rows, f.columns) && DistinctNames(f.index, f.columns)
  }

  type Table = f: Frame | WellFormed(f) witness Frame("index", [], [])

  /** The column names in schema order; the first is the index column. */
  function ColumnNames(t: Table): (names: seq<string>)
    ensures |names| == |t.columns| + 1 && names[0] == t.index
    ensures forall j :: 0 <= j < |t.columns| ==> names[j + 1] == t.columns[j].name
  {
    [t.index] + seq(|t.columns|, j requires 0 <= j < |t.columns| => t.columns[j].name)
  }

  // ---------------------------------------------------------------------------
  // Null fill (`df.fill_null(value)` with an integer value).

  /** An integer fill value replaces nulls in integer columns only. */
  function FillCell(c: Cell, t: DType, v: int): Cell {
    if c.Null? && t == Int64 then Int(v) else c
  }

  function FillRow(r: Row, columns: seq<Column>, v: int): (r': Row)
    requires |r.cells| == |columns|
    ensures r'.key == r.key && |r'.cells| == |columns|
    ensures forall j :: 0 <= j < |columns| ==> r'.cells[j] == FillCell(r.cells[j], columns[j].dtype, v)
  {
    Row(r.key, seq(|columns|, j requires 0 <= j < |columns| => FillCell(r.cells[j], columns[j].dtype, v)))
  }

  function FillNull(t: Table, v: int): (r: Table)
    ensures r.index == t.index && r.columns == t.columns && |r.rows| == |t.rows|
    ensures forall i :: 0 <= i < |t.rows| ==>
      r.rows[i].key == t.rows[i].key && |r.rows[i].cells| == |t.columns| &&
      forall j :: 0 <= j < |t.columns| ==>
        r.rows[i].cells[j] == FillCell(t.rows[i].cells[j], t.columns[j].dtype, v)
  {
    var rows := seq(|t.rows|, i requires 0 <= i < |t.rows| => FillRow(t.rows[i], t.columns, v));
    assert WellTyped(rows, t.columns);
    Frame(t.index, t.columns, rows)
  }

  /** After the fill no integer cell is null, and every cell that was not null is kept. */
  lemma FillNullLeavesNoNull(t: Table, v: int)
    ensures var r := FillNull(t, v);
      forall i, j :: 0 <= i < |r.rows| && 0 <= j < |r.columns| && r.columns[j].dtype == Int64 ==>
        r.rows[i].cells[j] != Null && (t.rows[i].cells[j] != Null ==> r.rows[i].cells[j] == t.rows[i].cells[j])
  {
  }

  /** Filling a second time with the same value changes nothing. */
  lemma FillNullIdempotent(t: Table, v: int)
    ensures FillNull(FillNull(t, v), v) == FillNull(t, v)
  {
    var once := FillNull(t, v);
    var twice := FillNull(once, v);
    assert forall i :: 0 <= i < |t.rows| ==> twice.rows[i].cells == once.rows[i].cells;
    assert forall i :: 0 <= i < |t.rows| ==> twice.rows[i] == once.rows[i];
    assert twice.rows == once.rows;
  }

  // ---------------------------------------------------------------------------
  // Sums. The library's sums skip nulls, so a null counts as 0.

  function CellInt(c: Cell): int {
    if c.Int? then c.value else 0
  }

  function Ints(cells: seq<Cell>): (xs: seq<int>)
    ensures |xs| == |cells| && forall j :: 0 <= j < |cells| ==> xs[j] == CellInt(cells[j])
  {
    seq(|cells|, j requires 0 <= j < |cells| => CellInt(cells[j]))
  }

  function Sum(xs: seq<int>): int {
    if |xs| == 0 then 0 else xs[0] + Sum(xs[1..])
  }

  /** `pl.sum_horizontal` over the value cells of one row. */
  function RowSum(cells: seq<Cell>): int {
    Sum(Ints(cells))
  }

  /** `pl.sum(col)` over the j-th value column. */
  function ColumnSum(rows: seq<Row>, j: nat): int {
    if |rows| == 0 then 0
    else (if j < |rows[0].cells| then CellInt(rows[0].cells[j]) else 0) + ColumnSum(rows[1..], j)
  }

  /** The sum of every value cell, row by row. */
  function SumOfRowSums(rows: seq<Row>): int {
    if |rows| == 0 then 0 else RowSum(rows[0].cells) + SumOfRowSums(rows[1..])
  }

  /** Sums of pointwise sums. */
  lemma {:induction false} SumPointwise(a: seq<int>, b: seq<int>, c: seq<int>)
    requires |a| == |b| == |c| && forall j :: 0 <= j < |c| ==> c[j] == a[j] + b[j]
    ensures Sum(c) == Sum(a) + Sum(b)
  {
    if |c| > 0 {
      SumPointwise(a[1..], b[1..], c[1..]);
    }
  }

  lemma {:induction false} SumOfZeros(xs: seq<int>)
    requires forall j :: 0 <= j < |xs| ==> xs[j] == 0
    ensures Sum(xs) == 0
  {
    if |xs| > 0 {
      SumOfZeros(xs[1..]);
    }
  }

  /** Column sums, then their total, equal row sums, then their total. */
  lemma {:induction false} SumsInterchange(rows: seq<Row>, w: nat)
    requires forall i :: 0 <= i < |rows| ==> |rows[i].cells| == w
    ensures Sum(seq(w, j requires 0 <= j < w => ColumnSum(rows, j))) == SumOfRowSums(rows)
  {
    var totals := seq(w, j requires 0 <= j < w => ColumnSum(rows, j));
    if |rows| == 0 {
      SumOfZeros(totals);
    } else {
      var rest := seq(w, j requires 0 <= j < w => ColumnSum(rows[1..], j));
      SumsInterchange(rows[1..], w);
      SumPointwise(Ints(rows[0].cells), rest, totals);
    }
  }

  /** A column whose every cell is the row sum of another table's row sums to
      that table's total. */
  lemma {:induction false} ColumnOfRowSums(rows: seq<Row>, source: seq<Row>, k: nat)
    requires |rows| == |source|
    requires forall i :: 0 <= i < |rows| ==> k < |rows[i].cells| && rows[i].cells[k] == Int(RowSum(source[i].cells))
    ensures ColumnSum(rows, k) == SumOfRowSums(source)
  {
    if |rows| > 0 {
      ColumnOfRowSums(rows[1..], source[1..], k);
    }
  }

  /** Filling nulls with 0 keeps every total. */
  lemma {:induction false} FillZeroKeepsSums(rows: seq<Row>, filled: seq<Row>)
    requires |rows| == |filled|
    requires forall i :: 0 <= i < |rows| ==> Ints(filled[i].cells) == Ints(rows[i].cells)
    ensures SumOfRowSums(filled) == SumOfRowSums(rows)
  {
    if |rows| > 0 {
      FillZeroKeepsSums(rows[1..], filled[1..]);
    }
  }

  // ---------------------------------------------------------------------------
  // The total column and the total row.

  predicate AllInt64(t: Table) {
    forall j :: 0 <= j < |t.columns| ==> t.columns[j].dtype == Int64
  }

  /** The first value column that is not an integer column, if any. */
  function FirstNonInteger(columns: seq<Column>): (r: Option<string>)
    ensures r.None? <==> forall j :: 0 <= j < |columns| ==> columns[j].dtype == Int64
  {
    if |columns| == 0 then None
    else if columns[0].dtype != Int64 then Some(columns[0].name)
    else FirstNonInteger(columns[1..])
  }

  /** The position of the column with the given name, if any. */
  function Position(columns: seq<Column>, name: string): (k: Option<nat>)
    ensures k.None? ==> forall j :: 0 <= j < |columns| ==> columns[j].name != name
    ensures k.Some? ==> k.value < |columns| && columns[k.value].name == name
  {
    if |columns| == 0 then None
    else if columns[0].name == name then Some(0)
    else
      var k := Position(columns[1..], name);
      if k.Some? then Some(k.value + 1) else None
  }

  /** The row sums appended as a new last column named "Grand Total". */
  function AppendTotalColumn(t: Table): (r: Table)
    requires AllInt64(t) && t.index != GrandTotal && Position(t.columns, GrandTotal).None?
    ensures r.index == t.index && r.columns == t.columns + [Column(GrandTotal, Int64)] && |r.rows| == |t.rows|
    ensures forall i :: 0 <= i < |t.rows| ==>
      r.rows[i].key == t.rows[i].key && r.rows[i].cells == t.rows[i].cells + [Int(RowSum(t.rows[i].cells))]
  {
    var columns := t.columns + [Column(GrandTotal, Int64)];
    var rows := seq(|t.rows|, i requires 0 <= i < |t.rows| =>
      Row(t.rows[i].key, t.rows[i].cells + [Int(RowSum(t.rows[i].cells))]));
    assert WellTyped(rows, columns) by {
      forall i, j | 0 <= i < |rows| && 0 <= j < |rows[i].cells| && j < |columns|
        ensures Fits(rows[i].cells[j], columns[j].dtype)
      {
        if j < |t.columns| {
          assert rows[i].cells[j] == t.rows[i].cells[j];
        }
      }
    }
    assert DistinctNames(t.index, columns);
    Frame(t.index, columns, rows)
  }

  /** The row sums written over the existing integer column k. */
  function ReplaceTotalColumn(t: Table, k: nat): (r: Table)
    requires AllInt64(t) && k < |t.columns|
    ensures r.index == t.index && r.columns == t.columns && |r.rows| == |t.rows|
    ensures forall i :: 0 <= i < |t.rows| ==>
      r.rows[i].key == t.rows[i].key && r.rows[i].cells == t.rows[i].cells[k := Int(RowSum(t.rows[i].cells))]
  {
    var rows := seq(|t.rows|, i requires 0 <= i < |t.rows| =>
      Row(t.rows[i].key, t.rows[i].cells[k := Int(RowSum(t.rows[i].cells))]));
    assert WellTyped(rows, t.columns) by {
      forall i, j | 0 <= i < |rows| && 0 <= j < |rows[i].cells| && j < |t.columns|
        ensures Fits(rows[i].cells[j], t.columns[j].dtype)
      {
        if j != k {
          assert rows[i].cells[j] == t.rows[i].cells[j];
        }
      }
    }
    Frame(t.index, t.columns, rows)
  }

  /** `with_columns(pl.sum_horizontal(numeric_cols).alias("Grand Total"))`:
      every value column is summed into "Grand Total", which is appended
      last, or written in place when a column of that name already exists. */
  function AddTotalColumn(t: Table): (r: Table)
    requires AllInt64(t) && t.index != GrandTotal
    ensures r.index == t.index && AllInt64(r) && |r.rows| == |t.rows|
    ensures forall i :: 0 <= i < |t.rows| ==> r.rows[i].key == t.rows[i].key
    ensures Position(t.columns, GrandTotal).None? ==>
      r.columns == t.columns + [Column(GrandTotal, Int64)] &&
      forall i :: 0 <= i < |t.rows| ==> r.rows[i].cells == t.rows[i].cells + [Int(RowSum(t.rows[i].cells))]
    ensures Position(t.columns, GrandTotal).Some? ==>
      var k := Position(t.columns, GrandTotal).value;
      r.columns == t.columns &&
      forall i :: 0 <= i < |t.rows| ==> r.rows[i].cells == t.rows[i].cells[k := Int(RowSum(t.rows[i].cells))]
  {
    var k := Position(t.columns, GrandTotal);
    if k.None? then AppendTotalColumn(t) else ReplaceTotalColumn(t, k.value)
  }

  /** The cells of the total row: the sum of every value column. */
  function TotalCells(t: Table): (cells: seq<Cell>)
    ensures |cells| == |t.columns|
    ensures forall j :: 0 <= j < |t.columns| ==> cells[j] == Int(ColumnSum(t.rows, j))
  {
    seq(|t.columns|, j requires 0 <= j < |t.columns| => Int(ColumnSum(t.rows, j)))
  }

  /** `vstack` of the row labelled "Grand Total" holding every column's sum. */
  function AddTotalRow(t: Table): (r: Table)
    requires AllInt64(t)
    ensures r.index == t.index && r.columns == t.columns
    ensures r.rows == t.rows + [Row(GrandTotal, TotalCells(t))]
  {
    var rows := t.rows + [Row(GrandTotal, TotalCells(t))];
    assert WellTyped(rows, t.columns);
    Frame(t.index, t.columns, rows)
  }

  // ---------------------------------------------------------------------------
  // Currency formatting.

  /** `map_elements(lambda x: fmt.format(x))` skips nulls. */
  function FormatCell(c: Cell, decimals: nat): Cell {
    if c.Int? then Text(Currency.FormatCurrency(c.value, decimals)) else c
  }

  /** Rewrites the j-th value column, an integer column, into text. */
  function FormatColumn(t: Table, j: nat, decimals: nat): (r: Table)
    requires j < |t.columns| && t.columns[j].dtype == Int64
    ensures r.index == t.index && |r.columns| == |t.columns| && |r.rows| == |t.rows|
    ensures forall k :: 0 <= k < |t.columns| ==>
      r.columns[k] == if k == j then Column(t.columns[j].name, Utf8) else t.columns[k]
    ensures forall i :: 0 <= i < |t.rows| ==>
      r.rows[i].key == t.rows[i].key && |r.rows[i].cells| == |t.columns| &&
      forall k :: 0 <= k < |t.columns| ==>
        r.rows[i].cells[k] == if k == j then FormatCell(t.rows[i].cells[j], decimals) else t.rows[i].cells[k]
  {
    var columns := t.columns[j := Column(t.columns[j].name, Utf8)];
    var rows := seq(|t.rows|, i requires 0 <= i < |t.rows| =>
      Row(t.rows[i].key, t.rows[i].cells[j := FormatCell(t.rows[i].cells[j], decimals)]));
    assert WellTyped(rows, columns);
    assert DistinctNames(t.index, columns);
    Frame(t.index, columns, rows)
  }

  /** One turn of the loop over the schema: integer columns are rewritten. */
  function FormatStep(t: Table, j: nat, decimals: nat): (r: Table)
    requires j < |t.columns|
    ensures |r.columns| == |t.columns|
  {
    if t.columns[j].dtype == Int64 then FormatColumn(t, j, decimals) else t
  }

  /** The loop over the schema from column j on. */
  function FormatFrom(t: Table, j: nat, decimals: nat): Table
    requires j <= |t.columns|
    decreases |t.columns| - j
  {
    if j == |t.columns| then t else FormatFrom(FormatStep(t, j, decimals), j + 1, decimals)
  }

  /** The currency formatting of a whole table. */
  function CurrencyFormatted(t: Table, decimals: nat): Table {
    FormatFrom(t, 0, decimals)
  }

  /** One turn of the loop: column j becomes text with its integer cells
      rendered; a text column is already in that form. */
  lemma FormatStepEffect(t: Table, j: nat, decimals: nat)
    requires j < |t.columns|
    ensures var r := FormatStep(t, j, decimals);
      r.index == t.index && |r.columns| == |t.columns| && |r.rows| == |t.rows| &&
      (forall k :: 0 <= k < |t.columns| ==>
         r.columns[k] == if k == j then Column(t.columns[j].name, Utf8) else t.columns[k]) &&
      (forall i :: 0 <= i < |t.rows| ==>
         r.rows[i].key == t.rows[i].key &&
         forall k :: 0 <= k < |t.columns| ==>
           r.rows[i].cells[k] == if k == j then FormatCell(t.rows[i].cells[j], decimals) else t.rows[i].cells[k])
  {
    if t.columns[j].dtype != Int64 {
      forall i | 0 <= i < |t.rows| ensures FormatCell(t.rows[i].cells[j], decimals) == t.rows[i].cells[j] {
        assert Fits(t.rows[i].cells[j], t.columns[j].dtype);
      }
    }
  }

  /** What formatting from column j on does: the columns before j are kept,
      the others become text columns whose integer cells are rendered. */
  lemma {:induction false} FormatFromEffect(t: Table, j: nat, decimals: nat)
    requires j <= |t.columns|
    ensures var r := FormatFrom(t, j, decimals);
      r.index == t.index && |r.columns| == |t.columns| && |r.rows| == |t.rows| &&
      (forall k :: 0 <= k < |t.columns| ==>
         r.columns[k] == if k < j then t.columns[k] else Column(t.columns[k].name, Utf8)) &&
      (forall i :: 0 <= i < |t.rows| ==>
         r.rows[i].key == t.rows[i].key &&
         forall k :: 0 <= k < |t.columns| ==>
           r.rows[i].cells[k] == if k < j then t.rows[i].cells[k] else FormatCell(t.rows[i].cells[k], decimals))
    decreases |t.columns| - j
  {
    if j < |t.columns| {
      var s := FormatStep(t, j, decimals);
      FormatStepEffect(t, j, decimals);
      FormatFromEffect(s, j + 1, decimals);
      var r := FormatFrom(t, j, decimals);
      assert r == FormatFrom(s, j + 1, decimals);
      forall k | 0 <= k < |t.columns|
        ensures r.columns[k] == if k < j then t.columns[k] else Column(t.columns[k].name, Utf8)
      {
        if k > j {
          assert r.columns[k] == Column(s.columns[k].name, Utf8);
        }
      }
      forall i, k | 0 <= i < |t.rows| && 0 <= k < |t.columns|
        ensures r.rows[i].cells[k] == if k < j then t.rows[i].cells[k] else FormatCell(t.rows[i].cells[k], decimals)
      {
        if k > j {
          assert r.rows[i].cells[k] == FormatCell(s.rows[i].cells[k], decimals);
        } else {
          assert r.rows[i].cells[k] == s.rows[i].cells[k];
        }
      }
    }
  }

  /** Currency formatting keeps the index column, the labels and the column
      names, turns every column into a text column, renders every integer
      cell as currency text and keeps nulls and text. */
  lemma CurrencyFormattedEffect(t: Table, decimals: nat)
    ensures var r := CurrencyFormatted(t, decimals);
      r.index == t.index && |r.columns| == |t.columns| && |r.rows| == |t.rows| &&
      (forall k :: 0 <= k < |t.columns| ==> r.columns[k] == Column(t.columns[k].name, Utf8)) &&
      (forall i :: 0 <= i < |t.rows| ==>
         r.rows[i].key == t.rows[i].key &&
         forall k :: 0 <= k < |t.columns| ==>
           r.rows[i].cells[k] == FormatCell(t.rows[i].cells[k], decimals) && !r.rows[i].cells[k].Int?)
  {
    FormatFromEffect(t, 0, decimals);
  }

  // ---------------------------------------------------------------------------
  // `pivot_format` as a whole, from a present table.

  /** What `pivot_format` leaves behind: the error it raised, if any, and the
      table, which keeps the steps done before the error. */
  datatype Steps = Steps(error: Option<LibraryError>, table: Table)

  function Filled(t: Table, fillNull: Option<int>): Table {
    if fillNull.Some? then FillNull(t, fillNull.value) else t
  }

  /** The steps after the null fill: totals, when asked for, then formatting. */
  function PivotFormatSteps(t: Table, format: string, decimals: nat, grandTotal: bool, fillNull: Option<int>): Steps {
    var filled := Filled(t, fillNull);
    if grandTotal && FirstNonInteger(filled.columns).Some? then
      Steps(Some(InvalidOperation(FirstNonInteger(filled.columns).value)), filled)
    else if grandTotal && filled.index == GrandTotal then
      Steps(Some(SchemaMismatch), filled)
    else
      var totalled := if grandTotal then AddTotalRow(AddTotalColumn(filled)) else filled;
      Steps(None, if format == "currency" then CurrencyFormatted(totalled, decimals) else totalled)
  }

  /** With `grand_total`, on an integer table without a "Grand Total" column:
      one column named "Grand Total" is appended last, holding each row's sum
      after the fill, and one row labelled "Grand Total" is appended at the
      bottom, holding every column's sum over the rows above it. */
  lemma GrandTotalsShape(t: Table, format: string, decimals: nat, fillNull: Option<int>)
    requires AllInt64(t) && t.index != GrandTotal && Position(t.columns, GrandTotal).None?
    requires format != "currency"
    ensures var s := PivotFormatSteps(t, format, decimals, true, fillNull);
      var filled := Filled(t, fillNull);
      var n, w := |t.rows|, |t.columns|;
      s.error.None? &&
      s.table.index == t.index &&
      s.table.columns == t.columns + [Column(GrandTotal, Int64)] &&
      |s.table.rows| == n + 1 &&
      (forall i :: 0 <= i < n ==>
         s.table.rows[i].key == t.rows[i].key &&
         s.table.rows[i].cells == filled.rows[i].cells + [Int(RowSum(filled.rows[i].cells))]) &&
      s.table.rows[n].key == GrandTotal &&
      |s.table.rows[n].cells| == w + 1 &&
      forall j :: 0 <= j <= w ==> s.table.rows[n].cells[j] == Int(ColumnSum(s.table.rows[..n], j))
  {
    var filled := Filled(t, fillNull);
    var withColumn := AddTotalColumn(filled);
    var s := PivotFormatSteps(t, format, decimals, true, fillNull);
    assert s.table == AddTotalRow(withColumn);
    assert s.table.rows[..|t.rows|] == withColumn.rows;
  }

  /** Appending a column under a name not yet used puts that name last. */
  lemma {:induction false} PositionOfAppended(columns: seq<Column>, c: Column)
    requires Position(columns, c.name).None?
    ensures Position(columns + [c], c.name) == Some(|columns|)
  {
    if |columns| > 0 {
      assert (columns + [c])[1..] == columns[1..] + [c];
      PositionOfAppended(columns[1..], c);
    }
  }

  /** Where a column stands depends only on the names, not on the types. */
  lemma {:induction false} PositionByNames(a: seq<Column>, b: seq<Column>, name: string)
    requires |a| == |b| && forall j :: 0 <= j < |a| ==> a[j].name == b[j].name
    ensures Position(a, name) == Position(b, name)
  {
    if |a| > 0 {
      PositionByNames(a[1..], b[1..], name);
    }
  }

  /** The cross-check: the corner cell (the total row at the "Grand Total"
      column, which is appended last or already stood where it stands) equals
      the sum of every value cell after the fill, whether the row sums or the
      column sums are totalled, so row totals and column totals agree. */
  lemma GrandTotalCorner(t: Table, format: string, decimals: nat, fillNull: Option<int>)
    requires AllInt64(t) && t.index != GrandTotal
    requires format != "currency"
    ensures var s := PivotFormatSteps(t, format, decimals, true, fillNull);
      var filled := Filled(t, fillNull);
      var n, w := |t.rows|, |t.columns|;
      var k := Position(s.table.columns, GrandTotal);
      s.error.None? && k.Some? &&
      (Position(t.columns, GrandTotal).None? ==> k.value == w) &&
      (Position(t.columns, GrandTotal).Some? ==> k == Position(t.columns, GrandTotal)) &&
      |s.table.rows| == n + 1 && k.value < |s.table.rows[n].cells| &&
      s.table.rows[n].cells[k.value] == Int(SumOfRowSums(filled.rows)) &&
      s.table.rows[n].cells[k.value] == Int(Sum(seq(w, j requires 0 <= j < w => ColumnSum(filled.rows, j))))
  {
    var filled := Filled(t, fillNull);
    TotalsOnly(t, format, decimals, fillNull);
    TotalCorner(filled);
  }

  /** Without "currency", a successful `grand_total` run is the two totals
      added to the filled table. */
  lemma TotalsOnly(t: Table, format: string, decimals: nat, fillNull: Option<int>)
    requires AllInt64(t) && t.index != GrandTotal && format != "currency"
    ensures var filled := Filled(t, fillNull);
      filled.columns == t.columns && |filled.rows| == |t.rows| && AllInt64(filled) &&
      PivotFormatSteps(t, format, decimals, true, fillNull) == Steps(None, AddTotalRow(AddTotalColumn(filled)))
  {
  }

  /** The corner of the two totals of one table. */
  lemma TotalCorner(f: Table)
    requires AllInt64(f) && f.index != GrandTotal
    ensures var r := AddTotalRow(AddTotalColumn(f));
      var n, w := |f.rows|, |f.columns|;
      var k := Position(r.columns, GrandTotal);
      k.Some? &&
      (Position(f.columns, GrandTotal).None? ==> k.value == w) &&
      (Position(f.columns, GrandTotal).Some? ==> k == Position(f.columns, GrandTotal)) &&
      |r.rows| == n + 1 && k.value < |r.rows[n].cells| &&
      r.rows[n].cells[k.value] == Int(SumOfRowSums(f.rows)) &&
      r.rows[n].cells[k.value] == Int(Sum(seq(w, j requires 0 <= j < w => ColumnSum(f.rows, j))))
  {
    var n, w := |f.rows|, |f.columns|;
    var withColumn := AddTotalColumn(f);
    var k := Position(f.columns, GrandTotal);
    var pos := if k.Some? then k.value else w;
    if k.None? {
      PositionOfAppended(f.columns, Column(GrandTotal, Int64));
    }
    assert forall i :: 0 <= i < n ==> withColumn.rows[i].cells[pos] == Int(RowSum(f.rows[i].cells));
    ColumnOfRowSums(withColumn.rows, f.rows, pos);
    SumsInterchange(f.rows, w);
  }

  /** With a fill of 0, or none, the corner is the sum of the original cells. */
  lemma GrandTotalCornerOriginal(t: Table, format: string, decimals: nat, fillNull: Option<int>)
    requires AllInt64(t) && t.index != GrandTotal
    requires format != "currency" && (fillNull.None? || fillNull == Some(0))
    ensures var s := PivotFormatSteps(t, format, decimals, true, fillNull);
      var k := Position(s.table.columns, GrandTotal);
      k.Some? && |s.table.rows| == |t.rows| + 1 && k.value < |s.table.rows[|t.rows|].cells| &&
      s.table.rows[|t.rows|].cells[k.value] == Int(SumOfRowSums(t.rows))
  {
    GrandTotalCorner(t, format, decimals, fillNull);
    FillZeroKeepsInts(t, fillNull);
    FillZeroKeepsSums(t.rows, Filled(t, fillNull).rows);
  }

  /** A fill of 0, or none, leaves every cell's integer value as it was. */
  lemma FillZeroKeepsInts(t: Table, fillNull: Option<int>)
    requires fillNull.None? || fillNull == Some(0)
    ensures var filled := Filled(t, fillNull);
      |filled.rows| == |t.rows| &&
      forall i :: 0 <= i < |t.rows| ==> Ints(filled.rows[i].cells) == Ints(t.rows[i].cells)
  {
    var filled := Filled(t, fillNull);
    forall i | 0 <= i < |t.rows| ensures Ints(filled.rows[i].cells) == Ints(t.rows[i].cells) {
    }
  }

  /** The call with every default (currency, totals, a fill of 0): the corner
      shows the sum of every value cell after the fill as currency text, and
      with a fill of 0, or none, the sum of the original cells. */
  lemma GrandTotalCornerCurrency(t: Table, decimals: nat, fillNull: Option<int>)
    requires AllInt64(t) && t.index != GrandTotal
    ensures var s := PivotFormatSteps(t, "currency", decimals, true, fillNull);
      var k := Position(s.table.columns, GrandTotal);
      var n := |t.rows|;
      s.error.None? && k.Some? && |s.table.rows| == n + 1 && k.value < |s.table.rows[n].cells| &&
      s.table.rows[n].cells[k.value] == Text(Currency.FormatCurrency(SumOfRowSums(Filled(t, fillNull).rows), decimals)) &&
      ((fillNull.None? || fillNull == Some(0)) ==>
         s.table.rows[n].cells[k.value] == Text(Currency.FormatCurrency(SumOfRowSums(t.rows), decimals)))
  {
    var s := PivotFormatSteps(t, "currency", decimals, true, fillNull);
    var before := PivotFormatSteps(t, "none", decimals, true, fillNull);
    GrandTotalCorner(t, "none", decimals, fillNull);
    CurrencyFormatEffect(t, decimals, true, fillNull);
    PositionByNames(s.table.columns, before.table.columns, GrandTotal);
    if fillNull.None? || fillNull == Some(0) {
      GrandTotalCornerOriginal(t, "none", decimals, fillNull);
    }
  }

  /** Without "currency" nothing is rendered: the result is the filled
      table, plus the totals when asked for, and every value cell outside a
      total keeps the type and the value it had after the fill. */
  lemma NoFormatKeepsTypes(t: Table, format: string, decimals: nat, grandTotal: bool, fillNull: Option<int>)
    requires format != "currency"
    ensures var s := PivotFormatSteps(t, format, decimals, grandTotal, fillNull);
      !grandTotal ==> s.error.None? && s.table == Filled(t, fillNull)
    ensures var s := PivotFormatSteps(t, format, decimals, grandTotal, fillNull);
      var filled := Filled(t, fillNull);
      s.error.None? ==>
        s.table.index == t.index &&
        |s.table.columns| >= |t.columns| && |s.table.rows| >= |t.rows| &&
        s.table.columns[..|t.columns|] == t.columns &&
        forall i, j :: 0 <= i < |t.rows| && 0 <= j < |t.columns| && t.columns[j].name != GrandTotal ==>
          s.table.rows[i].cells[j] == filled.rows[i].cells[j]
  {
    var s := PivotFormatSteps(t, format, decimals, grandTotal, fillNull);
    var filled := Filled(t, fillNull);
    if s.error.None? && grandTotal {
      var withColumn := AddTotalColumn(filled);
      assert s.table.rows[..|t.rows|] == withColumn.rows;
      forall i, j | 0 <= i < |t.rows| && 0 <= j < |t.columns| && t.columns[j].name != GrandTotal
        ensures s.table.rows[i].cells[j] == filled.rows[i].cells[j]
      {
        assert s.table.rows[i] == withColumn.rows[i];
        var k := Position(filled.columns, GrandTotal);
        if k.Some? {
          assert j != k.value;
        }
      }
    }
  }

  /** With "currency", the index column and the labels are untouched, every
      column becomes text, every integer cell is rendered with `decimals`
      places and nothing else changes. */
  lemma CurrencyFormatEffect(t: Table, decimals: nat, grandTotal: bool, fillNull: Option<int>)
    ensures var s := PivotFormatSteps(t, "currency", decimals, grandTotal, fillNull);
      var before := PivotFormatSteps(t, "none", decimals, grandTotal, fillNull);
      s.error == before.error &&
      (s.error.Some? ==> s.table == before.table) &&
      (s.error.None? ==>
        s.table.index == t.index &&
        |s.table.columns| == |before.table.columns| && |s.table.rows| == |before.table.rows| &&
        (forall k :: 0 <= k < |s.table.columns| ==>
           s.table.columns[k] == Column(before.table.columns[k].name, Utf8)) &&
        (forall i :: 0 <= i < |s.table.rows| ==>
           s.table.rows[i].key == before.table.rows[i].key &&
           forall k :: 0 <= k < |s.table.columns| ==>
             s.table.rows[i].cells[k] == FormatCell(before.table.rows[i].cells[k], decimals)))
  {
    var before := PivotFormatSteps(t, "none", decimals, grandTotal, fillNull);
    CurrencyFormattedEffect(before.table, decimals);
  }

  /** Formatting a second time with "currency" and no totals changes nothing:
      every column is already text, so neither the fill nor the formatting
      has anything left to rewrite. */
  lemma CurrencyReapplied(t: Table, decimals: nat, fillNull: Option<int>)
    ensures var once := PivotFormatSteps(t, "currency", decimals, false, fillNull);
      PivotFormatSteps(once.table, "currency", decimals, false, fillNull) == once
  {
    var once := PivotFormatSteps(t, "currency", decimals, false, fillNull);
    var u := once.table;
    CurrencyFormatEffect(t, decimals, false, fillNull);
    var filled := Filled(u, fillNull);
    assert filled == u by {
      if fillNull.Some? {
        assert forall i :: 0 <= i < |u.rows| ==> FillNull(u, fillNull.value).rows[i] == u.rows[i];
      }
    }
    CurrencyFormattedEffect(u, decimals);
    var again := CurrencyFormatted(u, decimals);
    assert forall i :: 0 <= i < |u.rows| ==> again.rows[i] == u.rows[i];
    assert again.columns == u.columns;
  }

  // The worked example: sales by region and year, pivoted, then formatted
  // with a fill of 0 and grand totals.

  const SalesPivot: Table :=
    Frame("region", [Column("2023", Int64), Column("2024", Int64)],
          [Row("E", [Int(10), Int(20)]), Row("W", [Int(5), Null])])

  const SalesFilled: Table :=
    Frame("region", [Column("2023", Int64), Column("2024", Int64)],
          [Row("E", [Int(10), Int(20)]), Row("W", [Int(5), Int(0)])])

  const SalesWithColumn: Table :=
    Frame("region", [Column("2023", Int64), Column("2024", Int64), Column(GrandTotal, Int64)],
          [Row("E", [Int(10), Int(20), Int(30)]), Row("W", [Int(5), Int(0), Int(5)])])

  const SalesTotals: Table :=
    Frame("region", [Column("2023", Int64), Column("2024", Int64), Column(GrandTotal, Int64)],
          [Row("E", [Int(10), Int(20), Int(30)]),
           Row("W", [Int(5), Int(0), Int(5)]),
           Row(GrandTotal, [Int(15), Int(20), Int(35)])])

  lemma SalesFill()
    ensures FillNull(SalesPivot, 0) == SalesFilled
  {
    var filled := FillNull(SalesPivot, 0);
    assert filled.rows[0].cells == [Int(10), Int(20)];
    assert filled.rows[1].cells == [Int(5), Int(0)];
    assert filled.rows == SalesFilled.rows;
  }

  lemma SalesTotalColumn()
    ensures AllInt64(SalesFilled) && AddTotalColumn(SalesFilled) == SalesWithColumn
  {
    assert Ints([Int(10), Int(20)]) == [10, 20];
    assert Ints([Int(5), Int(0)]) == [5, 0];
    assert Position(SalesFilled.columns, GrandTotal).None?;
    var withColumn := AddTotalColumn(SalesFilled);
    assert withColumn.rows[0].cells == [Int(10), Int(20), Int(30)];
    assert withColumn.rows[1].cells == [Int(5), Int(0), Int(5)];
    assert withColumn.rows == SalesWithColumn.rows;
  }

  lemma SalesTotalRow()
    ensures AllInt64(SalesWithColumn) && AddTotalRow(SalesWithColumn) == SalesTotals
  {
    var rows := SalesWithColumn.rows;
    assert rows[1..][1..] == [];
    assert ColumnSum(rows, 0) == 15;
    assert ColumnSum(rows, 1) == 20;
    assert ColumnSum(rows, 2) == 35;
    assert TotalCells(SalesWithColumn) == [Int(15), Int(20), Int(35)];
  }

  /** With a fill of 0 and grand totals, the missing W 2024 sale counts as 0,
      each region gets its row total and each year its column total, and the
      corner holds 35, the sum of all sales. */
  lemma SalesExample()
    ensures PivotFormatSteps(SalesPivot, "none", 0, true, Some(0)) == Steps(None, SalesTotals)
  {
    SalesFill();
    SalesTotalColumn();
    SalesTotalRow();
  }
}
