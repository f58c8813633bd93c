/**
 * `long_format_timeseries` (frontend/etl/transform_utils.py): a wide table
 * whose rows are dates and whose columns are countries becomes a sequence of
 * (date, country, iso3, metric) records, one per resolved column and parsed
 * row, column by column. A row is parsed when `normalize_date` does not
 * return `None` for its date cell; a `NaT` date counts as parsed.
 */
module Reshaper {
  import opened Wrappers
  import opened Calendar
  import DateNormalizer
  import Iso3Mapping

  /**
   * The two lookups the reshaper applies: a column name to its code, and the
   * text of a date cell to a date. `Standard()` holds the ones the pipeline uses.
   */
  datatype Parsers = Parsers(iso3: string -> Option<string>, date: string -> DateNormalizer.Normalized)

  /** `get_iso3_code` and `normalize_date`. */
  function Standard(): Parsers {
    Parsers(name => Iso3Mapping.GetIso3Code(Some(name)), text => DateNormalizer.NormalizeDate(Some(text)))
  }

  /**
   * A cell of the wide table: missing (NaN), or present with its text and the
   * number `float()` makes of it, if it makes one.
   */
  datatype Cell = Missing | Present(text: string, number: Option<real>)

  /** A labelled column of the wide table. */
  datatype Column = Column(name: string, cells: seq<Cell>)

  /** The wide table, its columns in header order. */
  datatype WideFrame = WideFrame(columns: seq<Column>)

  /**
   * One output row. `country` is the column name as written in the header;
   * `date` is `None` where the cell normalized to `NaT`.
   */
  datatype LongRecord = LongRecord(date: Option<CalendarDate>, country: string, iso3: string, value: Option<real>)

  const DateName := "date"

  /** `str(value)` of a date cell; pandas prints a missing value as `"nan"`. */
  function CellText(c: Cell): string {
    if c.Missing? then "nan" else c.text
  }

  /** What `normalize_date` makes of a date cell. */
  function CellDate(p: Parsers, c: Cell): DateNormalizer.Normalized {
    p.date(CellText(c))
  }

  /**
   * The metric of a cell: a missing cell stays absent, and a present cell that
   * does not convert to a number, or converts to a negative one, becomes absent.
   */
  function Metric(c: Cell): (v: Option<real>)
    ensures v.Some? ==> v.value >= 0.0 && c.Present? && v == c.number
  {
    if c.Present? && c.number.Some? && c.number.value >= 0.0 then c.number else None
  }

  // ----- Which column holds the dates -----

  /** Position of the first column labelled `"date"` at or after `from`, or `|cols|`. */
  function FirstDateColumn(cols: seq<Column>, from: nat): (k: nat)
    requires from <= |cols|
    ensures from <= k <= |cols|
    ensures k < |cols| ==> cols[k].name == DateName
    ensures forall j :: from <= j < k ==> cols[j].name != DateName
    decreases |cols| - from
  {
    if from == |cols| || cols[from].name == DateName then from
    else FirstDateColumn(cols, from + 1)
  }

  /** `df.drop(columns=["date"])`: the columns not labelled `"date"`, in order. */
  function WithoutDate(cols: seq<Column>): (r: seq<Column>)
    ensures forall c :: c in r <==> c in cols && c.name != DateName
  {
    if cols == [] then []
    else
      var rest := WithoutDate(cols[..|cols| - 1]);
      assert cols == cols[..|cols| - 1] + [cols[|cols| - 1]];
      if cols[|cols| - 1].name == DateName then rest else rest + [cols[|cols| - 1]]
  }

  /** The date column and the country columns of a frame. */
  datatype Layout = Layout(dates: seq<Cell>, countries: seq<Column>)

  /**
   * With a column labelled `"date"`, the first such column holds the dates and
   * every other column is a country; without one, the first column holds the
   * dates and the rest are countries. A frame without columns has no first
   * column, which the source reports by raising.
   */
  function SplitLayout(f: WideFrame): (r: Option<Layout>)
    ensures r.None? <==> f.columns == []
    ensures r.Some? ==> exists k :: 0 <= k < |f.columns| && r.value.dates == f.columns[k].cells
    ensures r.Some? ==> forall c :: c in r.value.countries ==> c in f.columns
  {
    var k := FirstDateColumn(f.columns, 0);
    if k < |f.columns| then Some(Layout(f.columns[k].cells, WithoutDate(f.columns)))
    else if f.columns == [] then None
    else Some(Layout(f.columns[0].cells, f.columns[1..]))
  }

  // ----- The records, as functions -----

  function Min(a: int, b: int): int {
    if a < b then a else b
  }

  /** The records of the first `n` rows of one resolved column. */
  function RowRecords(p: Parsers, name: string, iso3: string, dates: seq<Cell>, cells: seq<Cell>, n: nat): seq<LongRecord>
    requires n <= |dates| && n <= |cells|
  {
    if n == 0 then []
    else
      var before := RowRecords(p, name, iso3, dates, cells, n - 1);
      var d := CellDate(p, dates[n - 1]);
      if d.Unparsed? then before
      else before + [LongRecord(d.AsDate(), name, iso3, Metric(cells[n - 1]))]
  }

  /** The records of one column: none when its name does not resolve. */
  function ColumnRecords(p: Parsers, dates: seq<Cell>, col: Column): seq<LongRecord> {
    match p.iso3(col.name)
    case None => []
    case Some(iso3) => RowRecords(p, col.name, iso3, dates, col.cells, Min(|dates|, |col.cells|))
  }

  /** The records of a run of columns, column by column. */
  function ColumnsRecords(p: Parsers, dates: seq<Cell>, cols: seq<Column>): seq<LongRecord> {
    if cols == [] then []
    else ColumnsRecords(p, dates, cols[..|cols| - 1]) + ColumnRecords(p, dates, cols[|cols| - 1])
  }

  /** The output of the reshaper, or `None` when it raises. */
  function LongFormat(p: Parsers, f: WideFrame): Option<seq<LongRecord>> {
    match SplitLayout(f)
    case None => None
    case Some(l) => Some(ColumnsRecords(p, l.dates, l.countries))
  }

  // ----- The loops -----

  /** The inner loop of `long_format_timeseries`: the rows of one resolved column. */
  method AppendRows(p: Parsers, name: string, iso3: string, dates: seq<Cell>, cells: seq<Cell>,
                    records: seq<LongRecord>) returns (out: seq<LongRecord>)
    ensures out == records + RowRecords(p, name, iso3, dates, cells, Min(|dates|, |cells|))
  {
    out := records;
    var n := Min(|dates|, |cells|);
    var j := 0;
    while j < n
      invariant 0 <= j <= n
      invariant out == records + RowRecords(p, name, iso3, dates, cells, j)
    {
      var d := CellDate(p, dates[j]);
      if !d.Unparsed? {
        out := out + [LongRecord(d.AsDate(), name, iso3, Metric(cells[j]))];
      }
      j := j + 1;
    }
  }

  /** The outer loop of `long_format_timeseries`, over the country columns. */
  method LongFormatTimeseries(p: Parsers, f: WideFrame) returns (r: Option<seq<LongRecord>>)
    ensures r == LongFormat(p, f)
  {
    var layout := SplitLayout(f);
    if layout.None? {
      return None;
    }
    var dates := layout.value.dates;
    var countries := layout.value.countries;
    var records: seq<LongRecord> := [];
    var k := 0;
    while k < |countries|
      invariant 0 <= k <= |countries|
      invariant records == ColumnsRecords(p, dates, countries[..k])
    {
      var column := countries[k];
      var iso3 := p.iso3(column.name);
      if iso3.Some? {
        records := AppendRows(p, column.name, iso3.value, dates, column.cells, records);
      }
      assert countries[..k + 1][..k] == countries[..k];
      k := k + 1;
    }
    assert countries[..k] == countries;
    return Some(records);
  }

  // ----- What the records are -----

  /** `rec` is the record of row `j` of column `col`. */
  predicate IsRecordOf(p: Parsers, dates: seq<Cell>, col: Column, j: int, rec: LongRecord)
    requires 0 <= j < |dates| && j < |col.cells|
  {
    && p.iso3(col.name) == Some(rec.iso3)
    && !CellDate(p, dates[j]).Unparsed?
    && rec.date == CellDate(p, dates[j]).AsDate()
    && rec.country == col.name
    && rec.value == Metric(col.cells[j])
  }

  lemma {:induction false} RowRecordsMember(p: Parsers, name: string, iso3: string, dates: seq<Cell>, cells: seq<Cell>, n: nat, rec: LongRecord)
    requires n <= |dates| && n <= |cells|
    ensures rec in RowRecords(p, name, iso3, dates, cells, n) <==>
      exists j :: 0 <= j < n && !CellDate(p, dates[j]).Unparsed?
                  && rec == LongRecord(CellDate(p, dates[j]).AsDate(), name, iso3, Metric(cells[j]))
  {
    if n > 0 {
      RowRecordsMember(p, name, iso3, dates, cells, n - 1, rec);
    }
  }

  lemma ColumnRecordsMember(p: Parsers, dates: seq<Cell>, col: Column, rec: LongRecord)
    ensures rec in ColumnRecords(p, dates, col) <==>
      exists j :: 0 <= j < |dates| && j < |col.cells| && IsRecordOf(p, dates, col, j, rec)
  {
    var iso3 := p.iso3(col.name);
    if iso3.Some? {
      var n := Min(|dates|, |col.cells|);
      RowRecordsMember(p, col.name, iso3.value, dates, col.cells, n, rec);
      if rec in ColumnRecords(p, dates, col) {
        var j :| 0 <= j < n && !CellDate(p, dates[j]).Unparsed?
                 && rec == LongRecord(CellDate(p, dates[j]).AsDate(), col.name, iso3.value, Metric(col.cells[j]));
        assert IsRecordOf(p, dates, col, j, rec);
      }
    }
  }

  /**
   * A record is in the output of a run of columns exactly when it is the record
   * of some parsed row, in some column whose name resolves: its
   * country is that column's raw name, its code the name's code, and its
   * value the cell's metric.
   */
  lemma {:induction false} ColumnsRecordsMember(p: Parsers, dates: seq<Cell>, cols: seq<Column>, rec: LongRecord)
    ensures rec in ColumnsRecords(p, dates, cols) <==>
      exists k, j :: 0 <= k < |cols| && 0 <= j < |dates| && j < |cols[k].cells|
                     && IsRecordOf(p, dates, cols[k], j, rec)
  {
    if cols != [] {
      var init := cols[..|cols| - 1];
      var last := cols[|cols| - 1];
      ColumnsRecordsMember(p, dates, init, rec);
      ColumnRecordsMember(p, dates, last, rec);
      if rec in ColumnsRecords(p, dates, cols) {
        if rec in ColumnsRecords(p, dates, init) {
          var k, j :| 0 <= k < |init| && 0 <= j < |dates| && j < |init[k].cells|
                      && IsRecordOf(p, dates, init[k], j, rec);
          assert cols[k] == init[k];
        } else {
          var j :| 0 <= j < |dates| && j < |last.cells| && IsRecordOf(p, dates, last, j, rec);
          assert cols[|cols| - 1] == last;
        }
      } else {
        forall k, j | 0 <= k < |cols| && 0 <= j < |dates| && j < |cols[k].cells|
          ensures !IsRecordOf(p, dates, cols[k], j, rec)
        {
          if k < |init| {
            assert cols[k] == init[k];
          }
        }
      }
    }
  }

  /** No record carries a negative value. */
  lemma NoNegativeValues(p: Parsers, f: WideFrame, rec: LongRecord)
    requires LongFormat(p, f).Some? && rec in LongFormat(p, f).value
    ensures rec.value.None? || rec.value.value >= 0.0
  {
    var l := SplitLayout(f).value;
    ColumnsRecordsMember(p, l.dates, l.countries, rec);
  }

  /** `normalize_date` reads the `"nan"` of a blank cell as `NaT`. */
  lemma StandardBlankIsNaT()
    ensures Standard().date(CellText(Missing)).NaT?
  {
    DateNormalizer.NatStringsGiveNaT("nan");
  }

  /**
   * With a date lookup that reads a blank cell as `NaT`, as `Standard()`
   * does, a row with a blank date cell is kept, with a missing date, in
   * every country column whose name resolves.
   */
  lemma BlankDateRowKept(p: Parsers, f: WideFrame, k: int, j: int)
    requires p.date(CellText(Missing)).NaT? && SplitLayout(f).Some?
    requires var l := SplitLayout(f).value;
      && 0 <= k < |l.countries| && 0 <= j < |l.dates| && j < |l.countries[k].cells|
      && l.dates[j].Missing? && p.iso3(l.countries[k].name).Some?
    ensures var col := SplitLayout(f).value.countries[k];
      LongRecord(None, col.name, p.iso3(col.name).value, Metric(col.cells[j])) in LongFormat(p, f).value
  {
    var l := SplitLayout(f).value;
    var col := l.countries[k];
    var rec := LongRecord(None, col.name, p.iso3(col.name).value, Metric(col.cells[j]));
    assert IsRecordOf(p, l.dates, col, j, rec);
    ColumnsRecordsMember(p, l.dates, l.countries, rec);
  }

  // ----- How many records -----

  /** How many of the first `n` date cells are parsed (a day or `NaT`). */
  function ParsedRows(p: Parsers, dates: seq<Cell>, n: nat): (c: nat)
    requires n <= |dates|
    ensures c <= n
  {
    if n == 0 then 0
    else ParsedRows(p, dates, n - 1) + (if !CellDate(p, dates[n - 1]).Unparsed? then 1 else 0)
  }

  /** The number of (resolved column, parsed row) pairs in a run of columns. */
  function PairCount(p: Parsers, dates: seq<Cell>, cols: seq<Column>): nat {
    if cols == [] then 0
    else
      var last := cols[|cols| - 1];
      PairCount(p, dates, cols[..|cols| - 1])
      + (if p.iso3(last.name).Some? then ParsedRows(p, dates, Min(|dates|, |last.cells|)) else 0)
  }

  lemma {:induction false} RowRecordsCount(p: Parsers, name: string, iso3: string, dates: seq<Cell>, cells: seq<Cell>, n: nat)
    requires n <= |dates| && n <= |cells|
    ensures |RowRecords(p, name, iso3, dates, cells, n)| == ParsedRows(p, dates, n)
  {
    if n > 0 {
      RowRecordsCount(p, name, iso3, dates, cells, n - 1);
    }
  }

  /** Exactly one record per resolved column and parsed row. */
  lemma {:induction false} ColumnsRecordsCount(p: Parsers, dates: seq<Cell>, cols: seq<Column>)
    ensures |ColumnsRecords(p, dates, cols)| == PairCount(p, dates, cols)
  {
    if cols != [] {
      var last := cols[|cols| - 1];
      ColumnsRecordsCount(p, dates, cols[..|cols| - 1]);
      var iso3 := p.iso3(last.name);
      if iso3.Some? {
        RowRecordsCount(p, last.name, iso3.value, dates, last.cells, Min(|dates|, |last.cells|));
      }
    }
  }

  /** Every date cell normalizes to a day or to `NaT`. */
  predicate AllDatesParse(p: Parsers, dates: seq<Cell>) {
    forall j :: 0 <= j < |dates| ==> !CellDate(p, dates[j]).Unparsed?
  }

  lemma {:induction false} AllParsedRows(p: Parsers, dates: seq<Cell>, n: nat)
    requires n <= |dates| && AllDatesParse(p, dates)
    ensures ParsedRows(p, dates, n) == n
  {
    if n > 0 {
      AllParsedRows(p, dates, n - 1);
    }
  }

  /** Every column name resolves and no column is shorter than the dates. */
  predicate FullGrid(p: Parsers, dates: seq<Cell>, cols: seq<Column>) {
    forall k :: 0 <= k < |cols| ==> p.iso3(cols[k].name).Some? && |cols[k].cells| >= |dates|
  }

  lemma {:induction false} FullGridPairs(p: Parsers, dates: seq<Cell>, cols: seq<Column>)
    requires AllDatesParse(p, dates) && FullGrid(p, dates, cols)
    ensures PairCount(p, dates, cols) == |cols| * |dates|
  {
    if cols != [] {
      var init := cols[..|cols| - 1];
      assert FullGrid(p, dates, init) by {
        forall k | 0 <= k < |init| ensures init[k] == cols[k] { }
      }
      FullGridPairs(p, dates, init);
      AllParsedRows(p, dates, |dates|);
      var last := cols[|cols| - 1];
      assert p.iso3(last.name).Some? && Min(|dates|, |last.cells|) == |dates|;
      calc {
        PairCount(p, dates, cols);
        PairCount(p, dates, init) + |dates|;
        (|cols| - 1) * |dates| + |dates|;
        { assert (|cols| - 1) * |dates| + |dates| == |cols| * |dates|; }
        |cols| * |dates|;
      }
    }
  }

  /**
   * When every row is parsed, every name resolves and no column is shorter than
   * the date column, the output has one record per date and country column.
   */
  lemma FullGridCount(p: Parsers, dates: seq<Cell>, cols: seq<Column>)
    requires AllDatesParse(p, dates) && FullGrid(p, dates, cols)
    ensures |ColumnsRecords(p, dates, cols)| == |cols| * |dates|
  {
    ColumnsRecordsCount(p, dates, cols);
    FullGridPairs(p, dates, cols);
  }

  // ----- The layout, checked -----

  /** With a `"date"` column, every other column is a country column, in header order. */
  lemma DateColumnLayout(f: WideFrame, k: int)
    requires 0 <= k < |f.columns| && f.columns[k].name == DateName
    requires forall j :: 0 <= j < k ==> f.columns[j].name != DateName
    ensures SplitLayout(f) == Some(Layout(f.columns[k].cells, WithoutDate(f.columns)))
  {
    var i := FirstDateColumn(f.columns, 0);
    assert !(i < k) && !(i > k);
  }

  /** Without a `"date"` column, the first column holds the dates. */
  lemma FirstColumnLayout(f: WideFrame)
    requires f.columns != [] && forall j :: 0 <= j < |f.columns| ==> f.columns[j].name != DateName
    ensures SplitLayout(f) == Some(Layout(f.columns[0].cells, f.columns[1..]))
  {
  }

  // ----- Negative values -----

  /** Every cell of `c` holds a number below zero. */
  predicate AllNegative(c: Column) {
    forall cell :: cell in c.cells ==> cell.Present? && cell.number.Some? && cell.number.value < 0.0
  }

  /**
   * A country whose every column holds only negative numbers gets records
   * without a value: `-5` in a `"US"` column is dropped, not kept.
   */
  lemma NegativeValueDropped(p: Parsers, f: WideFrame, name: string)
    requires f.columns != []
    requires forall c :: c in f.columns && c.name == name ==> AllNegative(c)
    ensures LongFormat(p, f).Some?
    ensures forall rec :: rec in LongFormat(p, f).value && rec.country == name ==> rec.value.None?
  {
    var l := SplitLayout(f).value;
    forall rec | rec in LongFormat(p, f).value && rec.country == name
      ensures rec.value.None?
    {
      ColumnsRecordsMember(p, l.dates, l.countries, rec);
      var k, j :| 0 <= k < |l.countries| && 0 <= j < |l.dates| && j < |l.countries[k].cells|
                  && IsRecordOf(p, l.dates, l.countries[k], j, rec);
      assert l.countries[k] in f.columns;
      assert l.countries[k].cells[j] in l.countries[k].cells;
    }
  }
}
