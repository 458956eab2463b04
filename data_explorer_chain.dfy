/** The fluent data explorer: a chain object that holds one table, loads it
    from a file chosen by its extension, and reshapes it step by step. The
    file readers and the library's select and pivot are parameters: what
    they return is taken as given. */
module DataExplorer {
  import opened Wrappers
  import opened PivotTable

  /** An Excel sheet, by position or by name. */
  datatype SheetName = SheetIndex(position: int) | SheetTitle(title: string)

  /** The exceptions the chain raises: its own, and those of the library. */
  datatype ChainError =
    | ValueError(message: string)
    | RuntimeError(message: string)
    | AttributeError
    | Library(error: LibraryError)

  /** The reader calls `load` can make. */
  datatype ReadCall =
    | ReadCsv(path: string)
    | ReadExcel(path: string, sheet: SheetName, readOptions: map<string, int>)
    | ReadExcelPandas(path: string, sheet: SheetName, skipRows: int)
    | ReadParquet(path: string)

  const HeaderRow := "header_row"
  const PivotFirst := "Call .pivot() before .pivot_format()"
  const Unsupported := "Unsupported file format: "

  /** `dict.get(key, default)`. */
  function Lookup(m: map<string, int>, key: string, default: int): int {
    if key in m then m[key] else default
  }

  /** The reader options for a number of rows to skip: `header_row` only when
      the number is not 0; reading it back with default 0 gives the number. */
  function ReadOptionsFor(skipRows: int): (m: map<string, int>)
    ensures m.Keys <= {HeaderRow}
    ensures HeaderRow in m <==> skipRows != 0
    ensures Lookup(m, HeaderRow, 0) == skipRows
  {
    if skipRows != 0 then map[HeaderRow := skipRows] else map[]
  }

  // ---------------------------------------------------------------------------
  // The file extension.

  /** The path without any trailing separators. */
  function StripTrailingSlashes(p: string): (q: string)
    ensures |q| <= |p| && q == p[..|q|]
    ensures |q| == 0 || q[|q| - 1] != '/'
  {
    if |p| > 0 && p[|p| - 1] == '/' then StripTrailingSlashes(p[..|p| - 1]) else p
  }

  /** The text after the last separator. */
  function AfterLastSlash(p: string): (name: string)
    ensures '/' !in name
    ensures |name| <= |p| && name == p[|p| - |name|..]
    ensures |name| < |p| ==> p[|p| - |name| - 1] == '/'
  {
    if |p| == 0 || p[|p| - 1] == '/' then ""
    else
      var front := AfterLastSlash(p[..|p| - 1]);
      assert p[..|p| - 1][|p| - 1 - |front|..] + [p[|p| - 1]] == p[|p| - |front| - 1..];
      front + [p[|p| - 1]]
  }

  /** The final component of a path (`Path.name`). */
  function Name(p: string): (name: string)
    ensures '/' !in name
  {
    AfterLastSlash(StripTrailingSlashes(p))
  }

  /** The position of the last occurrence of c, if any (`str.rfind`). */
  function LastIndexOf(s: string, c: char): (k: Option<nat>)
    ensures k.None? <==> c !in s
    ensures k.Some? ==> k.value < |s| && s[k.value] == c && forall j :: k.value < j < |s| ==> s[j] != c
  {
    if |s| == 0 then None
    else if s[|s| - 1] == c then Some(|s| - 1)
    else
      var k := LastIndexOf(s[..|s| - 1], c);
      assert s == s[..|s| - 1] + [s[|s| - 1]];
      k
  }

  /** `Path.suffix` of a file name: from its last dot on, unless that dot
      leads the name or ends it. */
  function Suffix(name: string): string {
    var k := LastIndexOf(name, '.');
    if k.Some? && 0 < k.value < |name| - 1 then name[k.value..] else ""
  }

  /** The name splits into the stem and the extension, and the extension is
      empty exactly when the name has no dot after its first character or
      ends with a dot; otherwise it is a dot and at least one further
      character, none of them a dot. */
  lemma SuffixSpec(name: string)
    ensures var ext := Suffix(name);
      && |ext| <= |name|
      && name[..|name| - |ext|] + ext == name
      && (ext != "" <==>
            |name| > 0 && name[|name| - 1] != '.' && exists k :: 0 < k < |name| && name[k] == '.')
      && (ext != "" ==> |ext| >= 2 && ext[0] == '.' && '.' !in ext[1..] && |ext| < |name|)
  {
    var ext := Suffix(name);
    var k := LastIndexOf(name, '.');
    if ext != "" {
      assert ext[1..] == name[k.value + 1..];
      assert '.' !in ext[1..] by {
        forall j | 0 <= j < |ext| - 1 ensures ext[1..][j] != '.' {
          assert ext[1..][j] == name[k.value + 1 + j];
        }
      }
    }
  }

  function LowerChar(c: char): char {
    if 'A' <= c <= 'Z' then (c as int - 'A' as int + 'a' as int) as char else c
  }

  /** `str.lower()` on the ASCII letters. */
  function Lower(s: string): (r: string)
    ensures |r| == |s| && forall k :: 0 <= k < |s| ==> r[k] == LowerChar(s[k])
  {
    seq(|s|, k requires 0 <= k < |s| => LowerChar(s[k]))
  }

  /** The extension `load` dispatches on. */
  function Extension(filepath: string): string {
    Lower(Suffix(Name(filepath)))
  }

  /** The extensions `load` can read. */
  predicate Supported(ext: string) {
    ext == ".csv" || ext == ".xls" || ext == ".xlsx" || ext == ".parquet"
  }

  /** The reader for an extension, or None when it is not supported. */
  function ReaderFor(ext: string, filepath: string, sheet: SheetName, readOptions: map<string, int>): (call: Option<ReadCall>)
    ensures call.None? <==> !Supported(ext)
  {
    if ext == ".csv" then Some(ReadCsv(filepath))
    else if ext == ".xls" || ext == ".xlsx" then Some(ReadExcel(filepath, sheet, readOptions))
    else if ext == ".parquet" then Some(ReadParquet(filepath))
    else None
  }

  // ---------------------------------------------------------------------------
  // `load`, as a function of the chain's settings and the readers.

  /** What a call leaves behind: the exception it raised, if any, and the table. */
  datatype After = After(outcome: Outcome<ChainError>, df: Option<Table>)

  /** A Python list is truthy when it is given and not empty. */
  predicate Truthy(columns: Option<seq<string>>) {
    columns.Some? && |columns.value| > 0
  }

  /** The read itself: the Excel TypeError falls back to the second reader,
      skipping the rows `header_row` asks for. */
  function Read(call: ReadCall, io: ReadCall -> Result<Table, LibraryError>): Result<Table, LibraryError> {
    match call
    case ReadExcel(path, sheet, options) =>
      var first := io(call);
      if first == Failure(TypeError) then io(ReadExcelPandas(path, sheet, Lookup(options, HeaderRow, 0))) else first
    case _ => io(call)
  }

  /** The read `load` makes for an extension, or None when the extension
      is not supported. */
  function ReadFor(ext: string, filepath: string, sheet: SheetName, readOptions: map<string, int>,
                   io: ReadCall -> Result<Table, LibraryError>): Option<Result<Table, LibraryError>>
  {
    var call := ReaderFor(ext, filepath, sheet, readOptions);
    if call.None? then None else Some(Read(call.value, io))
  }

  /** What follows the read: the projection on the requested columns. */
  function Project(read: Result<Table, LibraryError>, columns: Option<seq<string>>, df: Option<Table>,
                   select: (Table, seq<string>) -> Result<Table, LibraryError>): (a: After)
    ensures a.outcome.Fail? ==> a.outcome.error.Library?
  {
    if read.Failure? then After(Fail(Library(read.error)), df)
    else if !Truthy(columns) then After(Pass, Some(read.value))
    else
      var projected := select(read.value, columns.value);
      if projected.Failure? then After(Fail(Library(projected.error)), Some(read.value))
      else After(Pass, Some(projected.value))
  }

  function LoadFrom(filepath: string, columns: Option<seq<string>>, sheet: SheetName, readOptions: map<string, int>,
                    df: Option<Table>, io: ReadCall -> Result<Table, LibraryError>,
                    select: (Table, seq<string>) -> Result<Table, LibraryError>): After
  {
    var ext := Extension(filepath);
    var read := ReadFor(ext, filepath, sheet, readOptions, io);
    if read.None? then After(Fail(ValueError(Unsupported + ext)), df)
    else Project(read.value, columns, df, select)
  }

  /** The dispatch of `load` on the extension, with the Excel fallback. */
  method ReadFile(ext: string, filepath: string, sheet: SheetName, readOptions: map<string, int>,
                  io: ReadCall -> Result<Table, LibraryError>)
    returns (read: Option<Result<Table, LibraryError>>)
    ensures read == ReadFor(ext, filepath, sheet, readOptions, io)
  {
    if ext == ".csv" {
      read := Some(io(ReadCsv(filepath)));
    } else if ext == ".xls" || ext == ".xlsx" {
      var excel := io(ReadExcel(filepath, sheet, readOptions));
      if excel == Failure(TypeError) {
        var headerRow := Lookup(readOptions, HeaderRow, 0);
        excel := io(ReadExcelPandas(filepath, sheet, headerRow));
      }
      read := Some(excel);
    } else if ext == ".parquet" {
      read := Some(io(ReadParquet(filepath)));
    } else {
      read := None;
    }
  }

  /** `load` raises ValueError exactly when the extension is not one of the
      four supported ones; the error names the extension, and the table is
      left as it was. */
  lemma LoadUnsupported(filepath: string, columns: Option<seq<string>>, sheet: SheetName, readOptions: map<string, int>,
                        df: Option<Table>, io: ReadCall -> Result<Table, LibraryError>,
                        select: (Table, seq<string>) -> Result<Table, LibraryError>)
    ensures var a := LoadFrom(filepath, columns, sheet, readOptions, df, io, select);
      a.outcome.Fail? && a.outcome.error.ValueError? <==> !Supported(Extension(filepath))
    ensures !Supported(Extension(filepath)) ==>
      LoadFrom(filepath, columns, sheet, readOptions, df, io, select) ==
        After(Fail(ValueError(Unsupported + Extension(filepath))), df)
  {
  }

  /** Lowering letters keeps every dot where it was. */
  lemma {:induction false} LastDotOfLower(s: string)
    ensures LastIndexOf(Lower(s), '.') == LastIndexOf(s, '.')
  {
    if |s| > 0 {
      assert Lower(s)[..|s| - 1] == Lower(s[..|s| - 1]);
      LastDotOfLower(s[..|s| - 1]);
    }
  }

  /** The extension of the lowered name is the lowered extension. */
  lemma SuffixOfLower(name: string)
    ensures Suffix(Lower(name)) == Lower(Suffix(name))
  {
    LastDotOfLower(name);
    var k := LastIndexOf(name, '.');
    if k.Some? && 0 < k.value < |name| - 1 {
      assert Lower(name)[k.value..] == Lower(name[k.value..]);
    }
  }

  /** The dispatch ignores letter case: two paths whose file names differ
      only in the case of their letters have the same extension, so `load`
      picks the same reader for both. */
  lemma LoadIgnoresCase(p: string, q: string)
    ensures Lower(Name(p)) == Lower(Name(q)) ==> Extension(p) == Extension(q)
  {
    SuffixOfLower(Name(p));
    SuffixOfLower(Name(q));
    assert Extension(p) == Suffix(Lower(Name(p)));
  }

  /** The Excel fallback: when the first reader raises TypeError, the second
      reader is called with the same path and sheet, skipping exactly the
      rows given to the chain, or none. */
  lemma ExcelFallback(path: string, sheet: SheetName, skipRows: int, io: ReadCall -> Result<Table, LibraryError>)
    ensures var options := ReadOptionsFor(skipRows);
      Read(ReadExcel(path, sheet, options), io) ==
        if io(ReadExcel(path, sheet, options)) == Failure(TypeError)
        then io(ReadExcelPandas(path, sheet, skipRows))
        else io(ReadExcel(path, sheet, options))
  {
  }

  // ---------------------------------------------------------------------------
  // Filtering rows.

  /** The rows the predicate keeps, in their order. */
  function FilterRows(rows: seq<Row>, keep: Row -> bool): (r: seq<Row>)
    ensures |r| <= |rows|
    ensures forall i :: 0 <= i < |r| ==> keep(r[i]) && r[i] in rows
  {
    if |rows| == 0 then []
    else (if keep(rows[0]) then [rows[0]] else []) + FilterRows(rows[1..], keep)
  }

  /** `df.filter(expr)`: the same columns, only the rows the predicate keeps. */
  function FilterTable(t: Table, keep: Row -> bool): (r: Table)
    ensures r.index == t.index && r.columns == t.columns && r.rows == FilterRows(t.rows, keep)
  {
    var rows := FilterRows(t.rows, keep);
    assert forall i :: 0 <= i < |rows| ==> rows[i] in t.rows;
    Frame(t.index, t.columns, rows)
  }

  /** Every row the predicate keeps survives, and filtering again changes nothing. */
  lemma {:induction false} FilterKeepsMatches(rows: seq<Row>, keep: Row -> bool)
    ensures forall row :: row in rows && keep(row) ==> row in FilterRows(rows, keep)
    ensures FilterRows(FilterRows(rows, keep), keep) == FilterRows(rows, keep)
  {
    if |rows| > 0 {
      FilterKeepsMatches(rows[1..], keep);
      var rest := FilterRows(rows[1..], keep);
      if keep(rows[0]) {
        assert ([rows[0]] + rest)[1..] == rest;
      } else {
        assert [] + rest == rest;
      }
    }
  }

  // ---------------------------------------------------------------------------
  // The chain object.

  class DataExplorerChain {
    const filepath: string
    const columns: Option<seq<string>>
    const sheetName: SheetName
    const readOptions: map<string, int>
    /** The table the chain holds; None until a load. */
    var df: Option<Table>

    /** A chain for one file; the skip count becomes the Excel reader's
        `header_row` option. Python's defaults are no columns, sheet 0 and
        no rows skipped. */
    constructor(filepath: string, columns: Option<seq<string>>, sheetName: SheetName, skipRows: int)
      ensures this.filepath == filepath && this.columns == columns && this.sheetName == sheetName
      ensures readOptions == ReadOptionsFor(skipRows)
      ensures df == None
    {
      this.filepath := filepath;
      this.columns := columns;
      this.sheetName := sheetName;
      this.readOptions := ReadOptionsFor(skipRows);
      this.df := None;
    }

    /** `load`: read by extension, then project when columns were given. */
    method Load(io: ReadCall -> Result<Table, LibraryError>, select: (Table, seq<string>) -> Result<Table, LibraryError>)
      returns (r: Outcome<ChainError>)
      modifies this
      ensures var a := LoadFrom(filepath, columns, sheetName, readOptions, old(df), io, select);
        r == a.outcome && df == a.df
    {
      var ext := Extension(filepath);
      var read := ReadFile(ext, filepath, sheetName, readOptions, io);
      ghost var d0 := df;
      assert LoadFrom(filepath, columns, sheetName, readOptions, d0, io, select) ==
        if read.None? then After(Fail(ValueError(Unsupported + ext)), d0) else Project(read.value, columns, d0, select);
      if read.None? {
        return Fail(ValueError(Unsupported + ext));
      }
      if read.value.Failure? {
        return Fail(Library(read.value.error));
      }
      df := Some(read.value.value);
      if columns.Some? && |columns.value| > 0 {
        var projected := select(df.value, columns.value);
        if projected.Failure? {
          return Fail(Library(projected.error));
        }
        df := Some(projected.value);
      }
      r := Pass;
    }

    /** `select_columns`: the library's projection of the held table; with
        no table, the attribute lookup on None fails. */
    method SelectColumns(names: seq<string>, select: (Table, seq<string>) -> Result<Table, LibraryError>)
      returns (r: Outcome<ChainError>)
      modifies this
      ensures old(df).None? ==> r == Fail(AttributeError) && df == old(df)
      ensures old(df).Some? && select(old(df).value, names).Failure? ==>
        r == Fail(Library(select(old(df).value, names).error)) && df == old(df)
      ensures old(df).Some? && select(old(df).value, names).Success? ==>
        r == Pass && df == Some(select(old(df).value, names).value)
    {
      if df.None? {
        return Fail(AttributeError);
      }
      var projected := select(df.value, names);
      if projected.Failure? {
        return Fail(Library(projected.error));
      }
      df := Some(projected.value);
      r := Pass;
    }

    /** `pivot`: the library's pivot of the held table, its index, columns,
        values and aggregate taken into `pivotBy`. */
    method Pivot(pivotBy: Table -> Result<Table, LibraryError>) returns (r: Outcome<ChainError>)
      modifies this
      ensures old(df).None? ==> r == Fail(AttributeError) && df == old(df)
      ensures old(df).Some? && pivotBy(old(df).value).Failure? ==>
        r == Fail(Library(pivotBy(old(df).value).error)) && df == old(df)
      ensures old(df).Some? && pivotBy(old(df).value).Success? ==>
        r == Pass && df == Some(pivotBy(old(df).value).value)
    {
      if df.None? {
        return Fail(AttributeError);
      }
      var pivoted := pivotBy(df.value);
      if pivoted.Failure? {
        return Fail(Library(pivoted.error));
      }
      df := Some(pivoted.value);
      r := Pass;
    }

    /** `pivot_format`: with no table, RuntimeError and nothing changes;
        otherwise the fill, the totals and the formatting of `PivotFormatSteps`,
        the table keeping the steps done before any error. */
    method PivotFormat(format: string, decimals: nat, grandTotal: bool, fillNull: Option<int>)
      returns (r: Outcome<ChainError>)
      modifies this
      ensures old(df).None? ==> r == Fail(RuntimeError(PivotFirst)) && df == None
      ensures old(df).Some? ==>
        var s := PivotFormatSteps(old(df).value, format, decimals, grandTotal, fillNull);
        df == Some(s.table) && r == (if s.error.Some? then Fail(Library(s.error.value)) else Pass)
    {
      if df.None? {
        return Fail(RuntimeError(PivotFirst));
      }
      ghost var s := PivotFormatSteps(df.value, format, decimals, grandTotal, fillNull);
      var groupCol := df.value.index;
      if fillNull.Some? {
        df := Some(FillNull(df.value, fillNull.value));
      }
      ghost var filled := df.value;
      if grandTotal {
        var nonInteger := FirstNonInteger(df.value.columns);
        if nonInteger.Some? {
          assert s == Steps(Some(InvalidOperation(nonInteger.value)), filled);
          return Fail(Library(InvalidOperation(nonInteger.value)));
        }
        if groupCol == GrandTotal {
          assert s == Steps(Some(SchemaMismatch), filled);
          return Fail(Library(SchemaMismatch));
        }
        df := Some(AddTotalColumn(df.value));
        df := Some(AddTotalRow(df.value));
      }
      ghost var totalled := df.value;
      assert s.error == None;
      assert s.table == if format == "currency" then CurrencyFormatted(totalled, decimals) else totalled;
      if format == "currency" {
        var schema := df.value.columns;
        for j := 0 to |schema|
          invariant df.Some? && |df.value.columns| == |schema|
          invariant FormatFrom(df.value, j, decimals) == CurrencyFormatted(totalled, decimals)
        {
          if df.value.columns[j].dtype == Int64 {
            df := Some(FormatColumn(df.value, j, decimals));
          }
        }
      }
      r := Pass;
    }

    /** `filter`: keeps the rows the predicate holds for. */
    method Filter(keep: Row -> bool) returns (r: Outcome<ChainError>)
      modifies this
      ensures old(df).None? ==> r == Fail(AttributeError) && df == old(df)
      ensures old(df).Some? ==> r == Pass && df == Some(FilterTable(old(df).value, keep))
    {
      if df.None? {
        return Fail(AttributeError);
      }
      var rows: seq<Row> := [];
      var t := df.value;
      for i := 0 to |t.rows|
        invariant rows == FilterRows(t.rows[..i], keep)
      {
        FilterRowsAppend(t.rows[..i], t.rows[i], keep);
        assert t.rows[..i + 1] == t.rows[..i] + [t.rows[i]];
        if keep(t.rows[i]) {
          rows := rows + [t.rows[i]];
        }
      }
      assert t.rows[..|t.rows|] == t.rows;
      assert Frame(t.index, t.columns, rows) == FilterTable(t, keep);
      df := Some(Frame(t.index, t.columns, rows));
      r := Pass;
    }

    /** `get`: the held table. */
    method Get() returns (t: Option<Table>)
      ensures t == df
    {
      t := df;
    }
  }

  /** Filtering one more row at the end keeps or drops only that row. */
  lemma {:induction false} FilterRowsAppend(rows: seq<Row>, row: Row, keep: Row -> bool)
    ensures FilterRows(rows + [row], keep) == FilterRows(rows, keep) + (if keep(row) then [row] else [])
  {
    if |rows| == 0 {
      assert [row][1..] == [];
    } else {
      assert (rows + [row])[1..] == rows[1..] + [row];
      FilterRowsAppend(rows[1..], row, keep);
    }
  }
}
