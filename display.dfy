/** The report viewer (`display` in OptionsWheel/display_results.py): it
    reads the `results` array of a saved snapshot, orders PASS rows before
    all others and each status group by `DiffPct`, and shows a fixed set of
    columns. Reading the JSON file and the text rendering are not modelled. */
module Display {
  import opened Wrappers
  import opened Sorting

  /** One element of the snapshot's `results` array. The keys `Name`,
      `Status` and `Failed Criterion` may be missing or hold `null`: both give
      a missing value in the row, but only a key that no row carries leaves the
      frame without that column. */
  datatype Row = Row(
    symbol: string,
    name: Field<string>,
    status: Field<string>,
    price: real,
    ema50: real,
    diffPct: real,
    adx: real,
    rsi: real,
    rvi: real,
    macd: real,
    failedCriterion: Field<string>)

  /** The derived `StatusOrder` column: 0 for `'PASS'`, 1 for anything else,
      a missing status included. */
  function StatusOrder(status: Field<string>): (o: int)
    ensures o == 0 <==> status == Present("PASS")
    ensures o == 1 <==> status != Present("PASS")
  {
    if status == Present("PASS") then 0 else 1
  }

  function StatusKey(r: Row): real
  {
    StatusOrder(r.status) as real
  }

  function DiffKey(r: Row): real
  {
    r.diffPct
  }

  /** `sort_values(['StatusOrder', 'DiffPct'])`. pandas sorts on several keys
      with a stable lexicographic sort, which is the same as a stable sort on
      the minor key followed by a stable sort on the major key. */
  function Ordered(rows: seq<Row>): (r: seq<Row>)
    ensures multiset(r) == multiset(rows)
    ensures |r| == |rows|
  {
    SortBy(SortBy(rows, DiffKey), StatusKey)
  }

  predicate IsPass(r: Row)
  {
    StatusOrder(r.status) == 0
  }

  /** The ordering is lexicographic on `(StatusOrder, DiffPct)`: every PASS
      row comes before every other row, and within the PASS rows and within
      the others `DiffPct` does not decrease. */
  lemma OrderedByStatusThenDiff(rows: seq<Row>)
    ensures var r := Ordered(rows);
      forall i, j :: 0 <= i < j < |r| ==>
        (IsPass(r[j]) ==> IsPass(r[i])) &&
        (IsPass(r[i]) == IsPass(r[j]) ==> r[i].diffPct <= r[j].diffPct)
  {
    var r := Ordered(rows);
    ThenBySorted(rows, StatusKey, DiffKey);
    forall i, j | 0 <= i < j < |r|
      ensures IsPass(r[j]) ==> IsPass(r[i])
      ensures IsPass(r[i]) == IsPass(r[j]) ==> r[i].diffPct <= r[j].diffPct
    {
      var major: Row -> real := StatusKey;
      var minor: Row -> real := DiffKey;
      assert r == SortBy(SortBy(rows, minor), major);
      assert major(r[i]) < major(r[j]) || (major(r[i]) == major(r[j]) && minor(r[i]) <= minor(r[j]));
    }
  }

  /** Rows with the same status order and the same `DiffPct` keep the order
      they had in the file. */
  lemma OrderedKeepsTies(rows: seq<Row>, status: real, diff: real)
    ensures WithKey(WithKey(Ordered(rows), StatusKey, status), DiffKey, diff)
         == WithKey(WithKey(rows, StatusKey, status), DiffKey, diff)
  {
    var t := SortBy(rows, DiffKey);
    SortByStable(t, StatusKey, status);
    SortByStable(rows, DiffKey, diff);
    GroupsCommute(rows, StatusKey, DiffKey, status, diff);
    GroupsCommute(t, StatusKey, DiffKey, status, diff);
  }

  /** The columns shown, in this order. */
  const Columns: seq<string> :=
    ["Symbol", "Name", "Status", "Price", "EMA50", "DiffPct", "ADX", "RSI", "RVI", "MACD", "Failed Criterion"]

  /** A shown value; `Blank` is pandas' NaN for a row without the key. */
  datatype Cell = Text(text: string) | Number(x: real) | Blank

  /** A missing key and a `null` both show as a blank cell. */
  function OptText(v: Field<string>): Cell
  {
    if v.Present? then Text(v.value) else Blank
  }

  /** The frame's column `col` at row `r`, `None` for a column the frame does
      not have. */
  function Column(r: Row, col: string): (cell: Option<Cell>)
    ensures cell.Some? <==> col in Columns || col == "StatusOrder"
  {
    match col
    case "Symbol" => Some(Text(r.symbol))
    case "Name" => Some(OptText(r.name))
    case "Status" => Some(OptText(r.status))
    case "StatusOrder" => Some(Number(StatusOrder(r.status) as real))
    case "Price" => Some(Number(r.price))
    case "EMA50" => Some(Number(r.ema50))
    case "DiffPct" => Some(Number(r.diffPct))
    case "ADX" => Some(Number(r.adx))
    case "RSI" => Some(Number(r.rsi))
    case "RVI" => Some(Number(r.rvi))
    case "MACD" => Some(Number(r.macd))
    case "Failed Criterion" => Some(OptText(r.failedCriterion))
    case _ => None
  }

  /** `results[cols]` for one row: the cells of `Columns`, in order. */
  function Cells(r: Row): (cells: seq<Cell>)
    ensures |cells| == |Columns|
    ensures forall j :: 0 <= j < |Columns| ==> Column(r, Columns[j]) == Some(cells[j])
  {
    [Text(r.symbol), OptText(r.name), OptText(r.status), Number(r.price), Number(r.ema50),
     Number(r.diffPct), Number(r.adx), Number(r.rsi), Number(r.rvi), Number(r.macd),
     OptText(r.failedCriterion)]
  }

  /** Whether row `r` carries the key `col` (holding `null` counts).
      `Symbol` and the seven numeric keys are in every row; `Name`, `Status`
      and `Failed Criterion` may be missing; a row carries no other key. */
  predicate HasKey(r: Row, col: string)
  {
    match col
    case "Symbol" => true
    case "Price" => true
    case "EMA50" => true
    case "DiffPct" => true
    case "ADX" => true
    case "RSI" => true
    case "RVI" => true
    case "MACD" => true
    case "Name" => !r.name.Missing?
    case "Status" => !r.status.Missing?
    case "Failed Criterion" => !r.failedCriterion.Missing?
    case _ => false
  }

  /** A frame built from records has a column for a modelled key exactly
      when at least one record carries it. */
  predicate HasColumn(rows: seq<Row>, col: string)
  {
    exists i :: 0 <= i < |rows| && HasKey(rows[i], col)
  }

  /** The names of `cols` the frame has no column for, in order: the list
      pandas reports as "not in index" for `results[cols]`. */
  function MissingColumns(rows: seq<Row>, cols: seq<string>): (r: seq<string>)
    ensures forall c :: c in r <==> c in cols && !HasColumn(rows, c)
  {
    if cols == [] then []
    else if HasColumn(rows, cols[0]) then MissingColumns(rows, cols[1..])
    else [cols[0]] + MissingColumns(rows, cols[1..])
  }

  /** What `display` shows: the table, or the columns whose lookup raises
      `KeyError`. `results['Status']` fails first when no row carries a
      status (an empty `results` among them); otherwise `results[cols]`
      fails on every column of `Columns` no row carries. */
  datatype Shown = Table(header: seq<string>, body: seq<seq<Cell>>) | KeyError(columns: seq<string>)

  function Show(rows: seq<Row>): (s: Shown)
    ensures s == KeyError(["Status"]) <==> !HasColumn(rows, "Status")
    ensures s.KeyError? && HasColumn(rows, "Status") ==>
      forall c :: c in s.columns <==> c in Columns && !HasColumn(rows, c)
    ensures s.Table? <==> forall c :: c in Columns ==> HasColumn(rows, c)
    ensures s.Table? ==> s.header == Columns && |s.body| == |rows|
    ensures s.Table? ==> forall i :: 0 <= i < |s.body| ==> |s.body[i]| == |Columns|
    ensures s.Table? ==> forall i, j :: 0 <= i < |rows| && 0 <= j < |Columns| ==>
      Column(Ordered(rows)[i], Columns[j]) == Some(s.body[i][j])
  {
    if !HasColumn(rows, "Status") then KeyError(["Status"])
    else
      var missing := MissingColumns(rows, Columns);
      if missing != [] then
        assert missing[0] in missing;
        KeyError(missing)
      else
        var ordered := Ordered(rows);
        Table(Columns, seq(|ordered|, i requires 0 <= i < |ordered| => Cells(ordered[i])))
  }

  /** A single row that carries the keys `Name`, `Status` and
      `Failed Criterion`, with values or `null`, gives every shown column. */
  lemma OneFullRowHasAllColumns(r: Row)
    requires !r.name.Missing? && !r.status.Missing? && !r.failedCriterion.Missing?
    ensures forall c :: c in Columns ==> HasColumn([r], c)
  {
    forall c | c in Columns ensures HasColumn([r], c) {
      assert HasKey([r][0], c);
    }
  }

  /** A key that is present with `null` still makes a column: a PASS row with
      a `null` failed criterion, and a row with a `null` status, are shown. */
  lemma NullKeysMakeColumns()
    ensures Show([Row("AAA", Present("Alpha"), Present("PASS"), 10.0, 9.0, 11.11, 20.0, 40.0, 50.0, 0.1, Null)]).Table?
    ensures Show([Row("BBB", Present("Beta"), Null, 10.0, 9.0, 11.11, 20.0, 40.0, 50.0, 0.1, Null)]).Table?
  {
    OneFullRowHasAllColumns(Row("AAA", Present("Alpha"), Present("PASS"), 10.0, 9.0, 11.11, 20.0, 40.0, 50.0, 0.1, Null));
    OneFullRowHasAllColumns(Row("BBB", Present("Beta"), Null, 10.0, 9.0, 11.11, 20.0, 40.0, 50.0, 0.1, Null));
  }

  /** A key that no row carries makes no column: rows without `Name` give a
      `KeyError` for `Name` alone. */
  lemma MissingNameColumn()
    ensures var s := Show([Row("CCC", Missing, Present("PASS"), 10.0, 9.0, 11.11, 20.0, 40.0, 50.0, 0.1, Null)]);
      s.KeyError? && forall c :: c in s.columns <==> c == "Name"
  {
    var r := Row("CCC", Missing, Present("PASS"), 10.0, 9.0, 11.11, 20.0, 40.0, 50.0, 0.1, Null);
    assert HasKey([r][0], "Status");
    assert !HasColumn([r], "Name");
    forall c | c in Columns && c != "Name" ensures HasColumn([r], c) {
      assert HasKey([r][0], c);
    }
  }
}
