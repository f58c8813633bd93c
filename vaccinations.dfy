/**
 * The transform part of `load_and_transform_vaccinations`
 * (frontend/etl/transform_utils.py): dates are normalized, each row's country
 * is resolved to a code, rows without a code are dropped, the rest sorted by
 * (iso3, date), and each of the four vaccination columns forward-filled
 * within each code, with no back-fill.
 */
module Vaccinations {
  import opened Wrappers
  import opened Calendar
  import opened Text
  import opened Monotonicity
  import opened Sorting
  import opened Groups
  import opened Reshaper
  import DateNormalizer

  /** The four vaccination columns, in the order the fill loop visits them. */
  datatype Field = TotalVaccinations | PeopleVaccinated | PeopleFullyVaccinated | DailyVaccinations

  const FieldOrder: seq<Field> := [TotalVaccinations, PeopleVaccinated, PeopleFullyVaccinated, DailyVaccinations]

  /** The four vaccination figures of one row; NaN is `None`. */
  datatype Metrics = Metrics(total: Option<real>, people: Option<real>, fully: Option<real>, daily: Option<real>)
  {
    function Get(f: Field): Option<real> {
      match f
      case TotalVaccinations => total
      case PeopleVaccinated => people
      case PeopleFullyVaccinated => fully
      case DailyVaccinations => daily
    }

    function Set(f: Field, v: Option<real>): (m: Metrics)
      ensures m.Get(f) == v
      ensures forall g :: g != f ==> m.Get(g) == Get(g)
    {
      match f
      case TotalVaccinations => this.(total := v)
      case PeopleVaccinated => this.(people := v)
      case PeopleFullyVaccinated => this.(fully := v)
      case DailyVaccinations => this.(daily := v)
    }
  }

  /** A row as read: its `country` and `date` cells (NaN is `None`) and its figures. */
  datatype RawRow = RawRow(country: Option<string>, date: Option<string>, metrics: Metrics)

  /** The table as read: its column names and its rows. */
  datatype VaccTable = VaccTable(columns: set<string>, rows: seq<RawRow>)

  /** A row of the stage's output. `date` is `None` (NaT) where the date did not normalize to a day. */
  datatype VaccRecord = VaccRecord(date: Option<CalendarDate>, country: string, iso3: string, metrics: Metrics)

  /** The six columns the stage reads; a missing one raises `KeyError`. */
  const RequiredColumns: set<string> := {"country", "date", "total_vaccinations", "people_vaccinated",
                                         "people_fully_vaccinated", "daily_vaccinations"}

  // ----- Dates and codes -----

  /** `normalize_date` of a cell; NaN gives `None` (`Unparsed`). */
  function DateOutcome(p: Parsers, raw: RawRow): DateNormalizer.Normalized {
    if raw.date.None? then DateNormalizer.Unparsed else p.date(raw.date.value)
  }

  /** The cell's date after `.dt.date`: `None` and `NaT` both become NaT (`None`). */
  function RowDate(p: Parsers, raw: RawRow): Option<CalendarDate> {
    DateOutcome(p, raw).AsDate()
  }

  /** `get_iso3_code` of a cell; NaN gives `None`. */
  function RowCode(p: Parsers, raw: RawRow): Option<string> {
    if raw.country.None? then None else p.iso3(raw.country.value)
  }

  /**
   * Some date normalizes to a day or to `NaT`. When none does, the column
   * `apply(normalize_date)` builds holds only `None` and is not a datetime
   * column, so `.dt.date` raises.
   */
  predicate SomeDateParses(p: Parsers, rows: seq<RawRow>) {
    exists i :: 0 <= i < |rows| && !DateOutcome(p, rows[i]).Unparsed?
  }

  /** `dropna(subset=["iso3"])` over the annotated rows, in order. */
  function Resolved(p: Parsers, rows: seq<RawRow>): (r: seq<VaccRecord>)
    ensures |r| <= |rows|
  {
    if rows == [] then []
    else
      var n := |rows| - 1;
      var raw := rows[n];
      var code := RowCode(p, raw);
      Resolved(p, rows[..n])
      + (if code.Some? then [VaccRecord(RowDate(p, raw), raw.country.value, code.value, raw.metrics)] else [])
  }

  // ----- sort_values(["iso3", "date"]) -----

  /** Rows ordered by code, then by date with `NaT` last. */
  predicate KeyLe(a: VaccRecord, b: VaccRecord) {
    CodeDateLe(a.iso3, a.date, b.iso3, b.date)
  }

  lemma KeyLeTotalPreorder()
    ensures TotalPreorder(KeyLe)
  {
    forall a, b ensures KeyLe(a, b) || KeyLe(b, a) {
      CodeDateLeTotal(a.iso3, a.date, b.iso3, b.date);
    }
    forall a, b, c | KeyLe(a, b) && KeyLe(b, c) ensures KeyLe(a, c) {
      CodeDateLeTransitive(a.iso3, a.date, b.iso3, b.date, c.iso3, c.date);
    }
  }

  // ----- The per-code forward fill -----

  function Code(r: VaccRecord): string {
    r.iso3
  }

  /** The `iso3` column. */
  function Keys(rows: seq<VaccRecord>): seq<string> {
    KeyColumn(rows, Code)
  }

  /** Column `f` of the table. */
  function FieldColumn(rows: seq<VaccRecord>, f: Field): (s: Series)
    ensures |s| == |rows| && forall i :: 0 <= i < |rows| ==> s[i] == rows[i].metrics.Get(f)
  {
    seq(|rows|, i requires 0 <= i < |rows| => rows[i].metrics.Get(f))
  }

  lemma ForwardFillLengthPreserving()
    ensures LengthPreserving(ForwardFill)
  {
  }

  /** `vacc_df[f] = vacc_df.groupby("iso3")[f].transform(ffill)`. */
  function FillField(rows: seq<VaccRecord>, f: Field): (r: seq<VaccRecord>)
    ensures |r| == |rows|
    ensures forall i :: 0 <= i < |rows| ==> r[i].date == rows[i].date && r[i].country == rows[i].country && r[i].iso3 == rows[i].iso3
  {
    ForwardFillLengthPreserving();
    var filled := PerGroup(Keys(rows), FieldColumn(rows, f), ForwardFill);
    seq(|rows|, i requires 0 <= i < |rows| => rows[i].(metrics := rows[i].metrics.Set(f, filled[i])))
  }

  /** The fill applied to the columns `fs`, one after the other. */
  function FillFields(rows: seq<VaccRecord>, fs: seq<Field>): (r: seq<VaccRecord>)
    ensures |r| == |rows|
  {
    if fs == [] then rows else FillField(FillFields(rows, fs[..|fs| - 1]), fs[|fs| - 1])
  }

  /**
   * What the stage returns, or `None` when it raises: a missing column, or no
   * date that normalizes to a day or to `NaT`.
   */
  function Stage(p: Parsers, t: VaccTable): Option<seq<VaccRecord>> {
    if !(RequiredColumns <= t.columns) || !SomeDateParses(p, t.rows) then None
    else Some(FillFields(SortBy(Resolved(p, t.rows), KeyLe), FieldOrder))
  }

  /** The loop over the four columns, reassigning each in turn. */
  method FillByGroup(rows: seq<VaccRecord>) returns (out: seq<VaccRecord>)
    ensures out == FillFields(rows, FieldOrder)
  {
    out := rows;
    var k := 0;
    while k < |FieldOrder|
      invariant 0 <= k <= |FieldOrder|
      invariant out == FillFields(rows, FieldOrder[..k])
    {
      assert FieldOrder[..k + 1][..k] == FieldOrder[..k];
      out := FillField(out, FieldOrder[k]);
      k := k + 1;
    }
    assert FieldOrder[..k] == FieldOrder;
  }

  /** `load_and_transform_vaccinations` after the CSV read. */
  method TransformVaccinations(p: Parsers, t: VaccTable) returns (r: Option<seq<VaccRecord>>)
    ensures r == Stage(p, t)
  {
    if !(RequiredColumns <= t.columns) {
      return None;
    }
    if !SomeDateParses(p, t.rows) {
      return None;
    }
    var sorted := SortBy(Resolved(p, t.rows), KeyLe);
    var filled := FillByGroup(sorted);
    return Some(filled);
  }

  // ----- What the stage promises -----

  lemma {:induction false} ResolvedMember(p: Parsers, rows: seq<RawRow>, rec: VaccRecord)
    ensures rec in Resolved(p, rows) <==>
      exists i :: 0 <= i < |rows| && RowCode(p, rows[i]) == Some(rec.iso3)
                  && rec == VaccRecord(RowDate(p, rows[i]), rows[i].country.value, rec.iso3, rows[i].metrics)
  {
    if rows != [] {
      ResolvedMember(p, rows[..|rows| - 1], rec);
    }
  }

  /** Filling one column leaves every other column and the codes alone. */
  lemma FillFieldOthers(rows: seq<VaccRecord>, f: Field, g: Field)
    requires g != f
    ensures FieldColumn(FillField(rows, f), g) == FieldColumn(rows, g)
    ensures Keys(FillField(rows, f)) == Keys(rows)
  {
  }

  /** Filling column `f` forward-fills each code's series of `f`. */
  lemma FillFieldGroups(rows: seq<VaccRecord>, f: Field, c: string)
    ensures Group(Keys(FillField(rows, f)), FieldColumn(FillField(rows, f), f), c)
      == ForwardFill(Group(Keys(rows), FieldColumn(rows, f), c))
  {
    ForwardFillLengthPreserving();
    var r := FillField(rows, f);
    assert Keys(r) == Keys(rows);
    assert FieldColumn(r, f) == PerGroup(Keys(rows), FieldColumn(rows, f), ForwardFill);
    PerGroupGroup(Keys(rows), FieldColumn(rows, f), ForwardFill, c);
  }

  /** Codes and every column other than those in `fs` are untouched by filling `fs`. */
  lemma {:induction false} FillFieldsOthers(rows: seq<VaccRecord>, fs: seq<Field>, g: Field)
    requires g !in fs
    ensures FieldColumn(FillFields(rows, fs), g) == FieldColumn(rows, g)
    ensures Keys(FillFields(rows, fs)) == Keys(rows)
  {
    if fs != [] {
      FillFieldsOthers(rows, fs[..|fs| - 1], g);
      FillFieldOthers(FillFields(rows, fs[..|fs| - 1]), fs[|fs| - 1], g);
    }
  }

  /** Filling `pre`, then `f`, then `post` forward-fills each code's series of `f` when `f` occurs once. */
  lemma FillFieldsGroup(rows: seq<VaccRecord>, pre: seq<Field>, f: Field, post: seq<Field>, c: string)
    requires f !in pre && f !in post
    ensures var out := FillFields(rows, pre + [f] + post);
      Keys(out) == Keys(rows)
      && Group(Keys(out), FieldColumn(out, f), c) == ForwardFill(Group(Keys(rows), FieldColumn(rows, f), c))
  {
    var before := FillFields(rows, pre);
    FillFieldsOthers(rows, pre, f);
    FillFieldGroups(before, f, c);
    var mid := FillField(before, f);
    assert (pre + [f])[..|pre|] == pre;
    assert FillFields(rows, pre + [f]) == mid;
    FillFieldsOthers(mid, post, f);
    FillFieldsConcat(rows, pre + [f], post);
  }

  /** The fill loop forward-fills each code's series of each column. */
  lemma FillAllGroups(rows: seq<VaccRecord>, f: Field, c: string)
    ensures var out := FillFields(rows, FieldOrder);
      Keys(out) == Keys(rows)
      && Group(Keys(out), FieldColumn(out, f), c) == ForwardFill(Group(Keys(rows), FieldColumn(rows, f), c))
  {
    var a, b, d, e := TotalVaccinations, PeopleVaccinated, PeopleFullyVaccinated, DailyVaccinations;
    match f
    case TotalVaccinations =>
      assert FieldOrder == [] + [a] + [b, d, e];
      FillFieldsGroup(rows, [], a, [b, d, e], c);
    case PeopleVaccinated =>
      assert FieldOrder == [a] + [b] + [d, e];
      FillFieldsGroup(rows, [a], b, [d, e], c);
    case PeopleFullyVaccinated =>
      assert FieldOrder == [a, b] + [d] + [e];
      FillFieldsGroup(rows, [a, b], d, [e], c);
    case DailyVaccinations =>
      assert FieldOrder == [a, b, d] + [e] + [];
      FillFieldsGroup(rows, [a, b, d], e, [], c);
  }

  /**
   * In the output, each code's series of each vaccination column is the
   * forward fill of that code's series in the sorted rows: a value is carried
   * forward only within its own code, and never backward.
   */
  lemma StageFillsEachGroup(p: Parsers, t: VaccTable, f: Field, c: string)
    requires Stage(p, t).Some?
    ensures var sorted := SortBy(Resolved(p, t.rows), KeyLe); var out := Stage(p, t).value;
      Keys(out) == Keys(sorted)
      && Group(Keys(out), FieldColumn(out, f), c) == ForwardFill(Group(Keys(sorted), FieldColumn(sorted, f), c))
  {
    FillAllGroups(SortBy(Resolved(p, t.rows), KeyLe), f, c);
  }

  lemma {:induction false} FillFieldsConcat(rows: seq<VaccRecord>, fs: seq<Field>, gs: seq<Field>)
    ensures FillFields(rows, fs + gs) == FillFields(FillFields(rows, fs), gs)
  {
    if gs == [] {
      assert fs + gs == fs;
    } else {
      var n := |gs| - 1;
      assert (fs + gs)[..|fs + gs| - 1] == fs + gs[..n];
      FillFieldsConcat(rows, fs, gs[..n]);
    }
  }

  /**
   * The output holds exactly the input rows whose country resolves, each
   * carrying its resolved code, its parsed date (or NaT) and its raw country.
   */
  lemma StageRows(p: Parsers, t: VaccTable, rec: VaccRecord)
    requires Stage(p, t).Some?
    ensures var sorted := SortBy(Resolved(p, t.rows), KeyLe);
      multiset(sorted) == multiset(Resolved(p, t.rows))
      && (rec in sorted <==>
          exists i :: 0 <= i < |t.rows| && RowCode(p, t.rows[i]) == Some(rec.iso3)
                      && rec == VaccRecord(RowDate(p, t.rows[i]), t.rows[i].country.value, rec.iso3, t.rows[i].metrics))
  {
    ResolvedMember(p, t.rows, rec);
    var sorted := SortBy(Resolved(p, t.rows), KeyLe);
    assert rec in sorted <==> rec in multiset(sorted);
  }

  /**
   * The stage's output has one row per input row whose country resolves, in
   * (iso3, date) order. A (date, country, code) key is in the output exactly
   * when some input row resolves to that code and has that date (after
   * `.dt.date`) and that raw country. The forward fill changes only figures.
   */
  lemma StageRowKeys(p: Parsers, t: VaccTable, d: Option<CalendarDate>, country: string, code: string)
    requires Stage(p, t).Some?
    ensures |Stage(p, t).value| == |Resolved(p, t.rows)|
    ensures var out := Stage(p, t).value;
      (exists k :: 0 <= k < |out| && out[k].date == d && out[k].country == country && out[k].iso3 == code)
      <==>
      (exists i :: 0 <= i < |t.rows| && RowCode(p, t.rows[i]) == Some(code)
                   && RowDate(p, t.rows[i]) == d && t.rows[i].country.value == country)
  {
    var sorted := SortBy(Resolved(p, t.rows), KeyLe);
    var out := Stage(p, t).value;
    assert |sorted| == |Resolved(p, t.rows)| by {
      StageRows(p, t, VaccRecord(d, country, code, Metrics(None, None, None, None)));
      assert |multiset(sorted)| == |multiset(Resolved(p, t.rows))|;
    }
    if k :| 0 <= k < |out| && out[k].date == d && out[k].country == country && out[k].iso3 == code {
      FillFieldsKeepRows(sorted, FieldOrder, k);
      assert sorted[k] in sorted;
      StageRows(p, t, sorted[k]);
    }
    if i :| 0 <= i < |t.rows| && RowCode(p, t.rows[i]) == Some(code)
            && RowDate(p, t.rows[i]) == d && t.rows[i].country.value == country {
      var rec := VaccRecord(d, country, code, t.rows[i].metrics);
      StageRows(p, t, rec);
      var k :| 0 <= k < |sorted| && sorted[k] == rec;
      FillFieldsKeepRows(sorted, FieldOrder, k);
    }
  }

  /** Filling any run of columns keeps every row's date, country and code. */
  lemma {:induction false} FillFieldsKeepRows(rows: seq<VaccRecord>, fs: seq<Field>, i: int)
    requires 0 <= i < |rows|
    ensures var r := FillFields(rows, fs);
      r[i].date == rows[i].date && r[i].country == rows[i].country && r[i].iso3 == rows[i].iso3
  {
    if fs != [] {
      FillFieldsKeepRows(rows, fs[..|fs| - 1], i);
    }
  }

  /** The output is sorted by (iso3, date), NaT last within a code. */
  lemma StageSorted(p: Parsers, t: VaccTable)
    requires Stage(p, t).Some?
    ensures SortedBy(Stage(p, t).value, KeyLe)
  {
    KeyLeTotalPreorder();
    var sorted := SortBy(Resolved(p, t.rows), KeyLe);
    SortBySorted(Resolved(p, t.rows), KeyLe);
    var out := Stage(p, t).value;
    forall i, j | 0 <= i < j < |out| ensures KeyLe(out[i], out[j]) {
      FillFieldsKeepRows(sorted, FieldOrder, i);
      FillFieldsKeepRows(sorted, FieldOrder, j);
      assert KeyLe(sorted[i], sorted[j]);
    }
  }
}
