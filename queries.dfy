/**
 * The read side (frontend/services/api/main.py): the four query endpoints
 * over the published table, held in memory. `None` stands for a table that
 * could not be loaded; every endpoint answers 503 for it and for an empty
 * table. The other failure is 404. Dates are calendar dates throughout (the
 * endpoints' conversion of an object-typed date column changes nothing
 * here).
 */
module Queries {
  import opened Wrappers
  import opened Calendar
  import opened Text
  import opened Sorting
  import Vaccinations
  import opened Merge

  /** An endpoint's answer: a body, or the status of the `HTTPException` it raises. */
  datatype Response<T> = Ok(body: T) | HttpError(status: int)

  const ServiceUnavailable := 503
  const NotFound := 404

  /** Not `df is None or df.empty`. */
  predicate Available(table: Option<seq<PublishedRow>>) {
    table.Some? && table.value != []
  }

  // ----- Selecting rows -----

  /** The elements of `s` that `keep` accepts, in order (a boolean mask). */
  function Filter<T>(s: seq<T>, keep: T -> bool): (r: seq<T>)
    ensures |r| <= |s|
  {
    if s == [] then []
    else Filter(s[..|s| - 1], keep) + (if keep(s[|s| - 1]) then [s[|s| - 1]] else [])
  }

  /** The mask keeps exactly the elements `keep` accepts. */
  lemma {:induction false} FilterMember<T>(s: seq<T>, keep: T -> bool, x: T)
    ensures x in Filter(s, keep) <==> x in s && keep(x)
  {
    if s != [] {
      var n := |s| - 1;
      assert s == s[..n] + [s[n]];
      FilterMember(s[..n], keep, x);
    }
  }

  function HasDate(d: CalendarDate): PublishedRow -> bool {
    (r: PublishedRow) => r.date == d
  }

  function HasCode(code: string): PublishedRow -> bool {
    (r: PublishedRow) => r.iso3 == code
  }

  /** `from_date <= date <= to_date`, a bound that is not given not applying. */
  predicate Within(d: CalendarDate, from: Option<CalendarDate>, to: Option<CalendarDate>) {
    (from.None? || Le(from.value, d)) && (to.None? || Le(d, to.value))
  }

  function InRange(from: Option<CalendarDate>, to: Option<CalendarDate>): PublishedRow -> bool {
    (r: PublishedRow) => Within(r.date, from, to)
  }

  // ----- list_countries -----

  datatype Country = Country(iso3: string, name: string)

  function PairOf(r: PublishedRow): Country {
    Country(r.iso3, r.country)
  }

  predicate Distinct<T(==)>(s: seq<T>) {
    forall i, j :: 0 <= i < j < |s| ==> s[i] != s[j]
  }

  /** `df[["iso3", "country"]].drop_duplicates()`: each pair once, where it first appears. */
  function DistinctPairs(rows: seq<PublishedRow>): (d: seq<Country>)
    ensures Distinct(d)
    ensures forall c :: c in d <==> exists r :: r in rows && PairOf(r) == c
  {
    if rows == [] then []
    else
      var n := |rows| - 1;
      var d := DistinctPairs(rows[..n]);
      assert rows == rows[..n] + [rows[n]];
      if PairOf(rows[n]) in d then d else d + [PairOf(rows[n])]
  }

  predicate ByName(a: Country, b: Country) {
    StrLe(a.name, b.name)
  }

  lemma ByNameTotalPreorder()
    ensures TotalPreorder(ByName)
  {
    forall a, b ensures ByName(a, b) || ByName(b, a) {
      StrLeTotal(a.name, b.name);
    }
    forall a, b, c | ByName(a, b) && ByName(b, c) ensures ByName(a, c) {
      StrLeTransitive(a.name, b.name, c.name);
    }
  }

  function ListCountries(table: Option<seq<PublishedRow>>): Response<seq<Country>> {
    if !Available(table) then HttpError(ServiceUnavailable)
    else Ok(SortBy(DistinctPairs(table.value), ByName))
  }

  /** A sequence without repeats holds each of its elements once. */
  lemma {:induction false} DistinctOnce<T>(s: seq<T>, x: T)
    requires Distinct(s)
    ensures multiset(s)[x] == if x in s then 1 else 0
  {
    if s != [] {
      var n := |s| - 1;
      assert s == s[..n] + [s[n]];
      DistinctOnce(s[..n], x);
    }
  }

  /**
   * The listing holds each (iso3, name) pair of the table exactly once, and
   * no other, ordered by name.
   */
  lemma ListCountriesContents(table: Option<seq<PublishedRow>>, c: Country)
    requires Available(table)
    ensures ListCountries(table).Ok?
    ensures SortedBy(ListCountries(table).body, ByName)
    ensures multiset(ListCountries(table).body)[c] == if exists r :: r in table.value && PairOf(r) == c then 1 else 0
  {
    ByNameTotalPreorder();
    var d := DistinctPairs(table.value);
    SortBySorted(d, ByName);
    DistinctOnce(d, c);
  }

  // ----- global_summary -----

  /** The latest date of a non-empty table (`df["date"].max()`). */
  function MaxDate(rows: seq<PublishedRow>): (d: CalendarDate)
    requires rows != []
    ensures exists r :: r in rows && r.date == d
    ensures forall r :: r in rows ==> Le(r.date, d)
  {
    if |rows| == 1 then rows[0].date
    else
      var m := MaxDate(rows[1..]);
      assert rows == [rows[0]] + rows[1..];
      if Le(rows[0].date, m) then m else rows[0].date
  }

  /** The earliest date of a non-empty table (`df["date"].min()`). */
  function MinDate(rows: seq<PublishedRow>): (d: CalendarDate)
    requires rows != []
    ensures exists r :: r in rows && r.date == d
    ensures forall r :: r in rows ==> Le(d, r.date)
  {
    if |rows| == 1 then rows[0].date
    else
      var m := MinDate(rows[1..]);
      assert rows == [rows[0]] + rows[1..];
      if Le(m, rows[0].date) then m else rows[0].date
  }

  /** The columns the summary adds up. */
  datatype Measure = ConfirmedCases | Deaths | TotalVaccinations | PeopleFullyVaccinated

  function ValueOf(r: PublishedRow, m: Measure): Option<real> {
    match m
    case ConfirmedCases => r.cases
    case Deaths => r.deaths
    case TotalVaccinations => r.vacc.total
    case PeopleFullyVaccinated => r.vacc.fully
  }

  /** `Series.sum()`: absent values are skipped, and a column of them adds up to zero. */
  function Sum(rows: seq<PublishedRow>, m: Measure): real {
    if rows == [] then 0.0
    else Sum(rows[..|rows| - 1], m) + ValueOf(rows[|rows| - 1], m).GetOr(0.0)
  }

  /** `(day_data["confirmed_cases"] > 0).sum()`: an absent figure is not above zero. */
  function Affected(rows: seq<PublishedRow>): (a: nat)
    ensures a <= |rows|
  {
    if rows == [] then 0
    else
      var last := rows[|rows| - 1];
      Affected(rows[..|rows| - 1]) + if last.cases.Some? && last.cases.value > 0.0 then 1 else 0
  }

  datatype Summary = Summary(date: CalendarDate, confirmedCases: real, deaths: real,
                             totalVaccinations: real, peopleFullyVaccinated: real, countriesAffected: nat)

  function GlobalSummary(table: Option<seq<PublishedRow>>, dateParam: Option<CalendarDate>): Response<Summary> {
    if !Available(table) then HttpError(ServiceUnavailable)
    else
      var d := if dateParam.Some? then dateParam.value else MaxDate(table.value);
      var day := Filter(table.value, HasDate(d));
      if day == [] then HttpError(NotFound)
      else Ok(Summary(d, Sum(day, ConfirmedCases), Sum(day, Deaths), Sum(day, TotalVaccinations),
                      Sum(day, PeopleFullyVaccinated), Affected(day)))
  }

  /** A date no row has gives 404, not a summary of zeros; any other date gives a summary. */
  lemma SummaryNotFound(table: Option<seq<PublishedRow>>, d: CalendarDate)
    requires Available(table)
    ensures GlobalSummary(table, Some(d)) == HttpError(NotFound) <==> forall r :: r in table.value ==> r.date != d
  {
    var day := Filter(table.value, HasDate(d));
    if day != [] {
      FilterMember(table.value, HasDate(d), day[0]);
    }
    if r :| r in table.value && r.date == d {
      FilterMember(table.value, HasDate(d), r);
    }
  }

  /** Without a date the summary is that of the latest date, which always has rows. */
  lemma DefaultDateIsLatest(table: Option<seq<PublishedRow>>)
    requires Available(table)
    ensures GlobalSummary(table, None) == GlobalSummary(table, Some(MaxDate(table.value)))
    ensures GlobalSummary(table, None).Ok?
    ensures forall r :: r in table.value ==> Le(r.date, GlobalSummary(table, None).body.date)
  {
    var d := MaxDate(table.value);
    var r :| r in table.value && r.date == d;
    FilterMember(table.value, HasDate(d), r);
  }

  /** A sum over two runs of rows is the sum of their sums. */
  lemma {:induction false} SumAppend(a: seq<PublishedRow>, b: seq<PublishedRow>, m: Measure)
    ensures Sum(a + b, m) == Sum(a, m) + Sum(b, m)
  {
    if b == [] {
      assert a + b == a;
    } else {
      var n := |b| - 1;
      assert (a + b)[..|a + b| - 1] == a + b[..n];
      assert (a + b)[|a + b| - 1] == b[n];
      SumAppend(a, b[..n], m);
    }
  }

  /** Rows whose figure is absent contribute nothing to a sum. */
  lemma {:induction false} SumSkipsAbsent(rows: seq<PublishedRow>, m: Measure)
    ensures Sum(rows, m) == Sum(Filter(rows, Reports(m)), m)
  {
    if rows != [] {
      var n := |rows| - 1;
      SumSkipsAbsent(rows[..n], m);
      assert rows == rows[..n] + [rows[n]];
      var kept := Filter(rows[..n], Reports(m));
      if ValueOf(rows[n], m).Some? {
        assert Filter(rows, Reports(m)) == kept + [rows[n]];
        SumAppend(kept, [rows[n]], m);
        assert [rows[n]][..0] == [];
      } else {
        assert Filter(rows, Reports(m)) == kept;
      }
    }
  }

  function Reports(m: Measure): PublishedRow -> bool {
    (r: PublishedRow) => ValueOf(r, m).Some?
  }

  /** The number of affected countries counts the rows with a positive case figure. */
  lemma {:induction false} AffectedCounts(rows: seq<PublishedRow>)
    ensures Affected(rows) == |Filter(rows, PositiveCases())|
  {
    if rows != [] {
      AffectedCounts(rows[..|rows| - 1]);
    }
  }

  function PositiveCases(): PublishedRow -> bool {
    (r: PublishedRow) => r.cases.Some? && r.cases.value > 0.0
  }

  // ----- country_timeseries -----

  /** One point of a country's series; an absent figure is null, not 0. */
  datatype Point = Point(date: CalendarDate, confirmedCases: Option<real>, deaths: Option<real>,
                         totalVaccinations: Option<real>, peopleVaccinated: Option<real>,
                         peopleFullyVaccinated: Option<real>, dailyVaccinations: Option<real>)

  function PointOf(r: PublishedRow): Point {
    Point(r.date, r.cases, r.deaths, r.vacc.total, r.vacc.people, r.vacc.fully, r.vacc.daily)
  }

  datatype CountrySeries = CountrySeries(iso3: string, country: string, data: seq<Point>)

  predicate ByDate(a: PublishedRow, b: PublishedRow) {
    Le(a.date, b.date)
  }

  lemma ByDateTotalPreorder()
    ensures TotalPreorder(ByDate)
  {
  }

  /** The rows of code `code` within the range, sorted by date. */
  function SeriesRows(rows: seq<PublishedRow>, code: string, from: Option<CalendarDate>,
                      to: Option<CalendarDate>): seq<PublishedRow>
  {
    SortBy(Filter(Filter(rows, HasCode(code)), InRange(from, to)), ByDate)
  }

  /**
   * The endpoint's answer. The name is that of the first row in the range;
   * when the range holds none, it is the code as the caller wrote it.
   */
  function CountryTimeseriesAnswer(table: Option<seq<PublishedRow>>, iso3: string, from: Option<CalendarDate>,
                                   to: Option<CalendarDate>): Response<CountrySeries>
  {
    if !Available(table) then HttpError(ServiceUnavailable)
    else
      var code := Upper(iso3);
      if Filter(table.value, HasCode(code)) == [] then HttpError(NotFound)
      else
        var rows := SeriesRows(table.value, code, from, to);
        Ok(CountrySeries(code, if rows != [] then rows[0].country else iso3,
                         seq(|rows|, i requires 0 <= i < |rows| => PointOf(rows[i]))))
  }

  /** The loop that builds the data points, one per row, in order. */
  method BuildPoints(rows: seq<PublishedRow>) returns (points: seq<Point>)
    ensures |points| == |rows|
    ensures forall i :: 0 <= i < |rows| ==> points[i] == PointOf(rows[i])
  {
    points := [];
    var i := 0;
    while i < |rows|
      invariant 0 <= i <= |rows|
      invariant |points| == i
      invariant forall j :: 0 <= j < i ==> points[j] == PointOf(rows[j])
    {
      points := points + [PointOf(rows[i])];
      i := i + 1;
    }
  }

  /** `country_timeseries`; the `metric` parameter is accepted and has no effect. */
  method CountryTimeseries(table: Option<seq<PublishedRow>>, iso3: string, metric: string,
                           from: Option<CalendarDate>, to: Option<CalendarDate>)
    returns (r: Response<CountrySeries>)
    ensures r == CountryTimeseriesAnswer(table, iso3, from, to)
  {
    if !Available(table) {
      return HttpError(ServiceUnavailable);
    }
    var code := Upper(iso3);
    var countryData := Filter(table.value, HasCode(code));
    if countryData == [] {
      return HttpError(NotFound);
    }
    var rows := SortBy(Filter(countryData, InRange(from, to)), ByDate);
    var name := if rows != [] then rows[0].country else iso3;
    var points := BuildPoints(rows);
    assert points == seq(|rows|, i requires 0 <= i < |rows| => PointOf(rows[i]));
    return Ok(CountrySeries(code, name, points));
  }

  /** An unknown code (after upper-casing) gives 404. */
  lemma TimeseriesNotFound(table: Option<seq<PublishedRow>>, iso3: string, from: Option<CalendarDate>,
                           to: Option<CalendarDate>)
    requires Available(table)
    ensures CountryTimeseriesAnswer(table, iso3, from, to) == HttpError(NotFound)
      <==> forall r :: r in table.value ==> r.iso3 != Upper(iso3)
  {
    var rows := Filter(table.value, HasCode(Upper(iso3)));
    if rows != [] {
      FilterMember(table.value, HasCode(Upper(iso3)), rows[0]);
    }
    if r :| r in table.value && r.iso3 == Upper(iso3) {
      FilterMember(table.value, HasCode(Upper(iso3)), r);
    }
  }

  /** The selected rows are sorted by date and are the rows the two masks keep. */
  lemma SeriesRowsSorted(rows: seq<PublishedRow>, code: string, from: Option<CalendarDate>, to: Option<CalendarDate>)
    ensures var out := SeriesRows(rows, code, from, to);
      (forall i, j :: 0 <= i < j < |out| ==> Le(out[i].date, out[j].date))
      && multiset(out) == multiset(Filter(Filter(rows, HasCode(code)), InRange(from, to)))
  {
    ByDateTotalPreorder();
    SortBySorted(Filter(Filter(rows, HasCode(code)), InRange(from, to)), ByDate);
  }

  /** A row is selected when it has code `code` and its date lies in the inclusive range. */
  lemma SeriesRowsMember(rows: seq<PublishedRow>, code: string, from: Option<CalendarDate>, to: Option<CalendarDate>,
                         r: PublishedRow)
    ensures r in SeriesRows(rows, code, from, to) <==> r in rows && r.iso3 == code && Within(r.date, from, to)
  {
    var selected := Filter(Filter(rows, HasCode(code)), InRange(from, to));
    var out := SeriesRows(rows, code, from, to);
    assert r in out <==> r in multiset(out);
    assert r in selected <==> r in multiset(selected);
    FilterMember(rows, HasCode(code), r);
    FilterMember(Filter(rows, HasCode(code)), InRange(from, to), r);
  }

  /**
   * The points are the selected rows in order, with their figures as they
   * are: an absent figure stays null.
   */
  lemma TimeseriesPoints(table: Option<seq<PublishedRow>>, iso3: string, from: Option<CalendarDate>,
                         to: Option<CalendarDate>)
    requires CountryTimeseriesAnswer(table, iso3, from, to).Ok?
    ensures var rows := SeriesRows(table.value, Upper(iso3), from, to);
      var answer := CountryTimeseriesAnswer(table, iso3, from, to).body;
      answer.iso3 == Upper(iso3) && |answer.data| == |rows|
      && (forall i :: 0 <= i < |rows| ==> answer.data[i] == PointOf(rows[i]))
      && (forall i, j :: 0 <= i < j < |rows| ==> Le(answer.data[i].date, answer.data[j].date))
  {
    SeriesRowsSorted(table.value, Upper(iso3), from, to);
  }

  /** Two spellings of a code that upper-case alike get the same answer, the name aside. */
  lemma TimeseriesCaseInsensitive(table: Option<seq<PublishedRow>>, a: string, b: string,
                                  from: Option<CalendarDate>, to: Option<CalendarDate>)
    requires Upper(a) == Upper(b)
    ensures var ra := CountryTimeseriesAnswer(table, a, from, to);
      var rb := CountryTimeseriesAnswer(table, b, from, to);
      ra.Ok? == rb.Ok? && (ra.HttpError? ==> ra == rb)
      && (ra.Ok? ==> ra.body.iso3 == rb.body.iso3 == Upper(a) && ra.body.data == rb.body.data
                     && (ra.body.data != [] ==> ra.body.country == rb.body.country))
  {
  }

  // ----- available_dates -----

  datatype DateRange = DateRange(minDate: CalendarDate, maxDate: CalendarDate, totalDays: nat)

  function Dates(rows: seq<PublishedRow>): set<CalendarDate> {
    set r | r in rows :: r.date
  }

  function AvailableDates(table: Option<seq<PublishedRow>>): Response<DateRange> {
    if !Available(table) then HttpError(ServiceUnavailable)
    else Ok(DateRange(MinDate(table.value), MaxDate(table.value), |Dates(table.value)|))
  }

  /** There are no more distinct dates than rows. */
  lemma {:induction false} DatesAtMostRows(rows: seq<PublishedRow>)
    ensures |Dates(rows)| <= |rows|
  {
    if rows != [] {
      var n := |rows| - 1;
      DatesAtMostRows(rows[..n]);
      assert rows == rows[..n] + [rows[n]];
      assert Dates(rows) == Dates(rows[..n]) + {rows[n].date};
    }
  }

  /**
   * The range runs from the earliest to the latest date of the table; the
   * day count is that of the distinct dates, one exactly when the two ends
   * meet.
   */
  lemma AvailableDatesRange(table: Option<seq<PublishedRow>>)
    requires Available(table)
    ensures var r := AvailableDates(table).body;
      r.minDate in Dates(table.value) && r.maxDate in Dates(table.value)
      && (forall d :: d in Dates(table.value) ==> Le(r.minDate, d) && Le(d, r.maxDate))
      && 1 <= r.totalDays <= |table.value|
      && (r.totalDays == 1 <==> r.minDate == r.maxDate)
  {
    var rows := table.value;
    var lo := MinDate(rows);
    var hi := MaxDate(rows);
    DatesAtMostRows(rows);
    assert lo in Dates(rows);
    assert hi in Dates(rows);
    if lo == hi {
      forall d | d in Dates(rows) ensures d == lo {
        LeAntisymmetric(lo, d);
      }
      assert Dates(rows) == {lo};
    }
    if |Dates(rows)| == 1 {
      var x :| x in Dates(rows);
      assert Dates(rows) - {x} == {} by {
        assert |Dates(rows) - {x}| == 0;
      }
    }
  }

  /** Every endpoint answers 503 for an absent or empty table, and only then. */
  lemma UnavailableEverywhere(table: Option<seq<PublishedRow>>, d: Option<CalendarDate>, iso3: string,
                              from: Option<CalendarDate>, to: Option<CalendarDate>)
    ensures ListCountries(table) == HttpError(ServiceUnavailable) <==> !Available(table)
    ensures GlobalSummary(table, d) == HttpError(ServiceUnavailable) <==> !Available(table)
    ensures CountryTimeseriesAnswer(table, iso3, from, to) == HttpError(ServiceUnavailable) <==> !Available(table)
    ensures AvailableDates(table) == HttpError(ServiceUnavailable) <==> !Available(table)
  {
  }

  // ----- The API tests' table -----

  function FixtureRow(day: int, country: string, iso3: string, cases: real, deaths: real): PublishedRow {
    PublishedRow(CalendarDate(2020, 3, day), country, iso3, Some(cases), Some(deaths), NoMetrics)
  }

  /** The test table: two countries on 2020-03-15 and 2020-03-16, without vaccination figures. */
  predicate IsFixture(t: seq<PublishedRow>) {
    t == [FixtureRow(15, "United States", "USA", 2000.0, 50.0), FixtureRow(16, "United States", "USA", 2500.0, 75.0),
          FixtureRow(15, "United Kingdom", "GBR", 1000.0, 30.0), FixtureRow(16, "United Kingdom", "GBR", 1200.0, 40.0)]
  }

  lemma FilterPrefix<T(!new)>(s: seq<T>, keep: T -> bool, n: int)
    requires 0 <= n < |s|
    ensures Filter(s[..n + 1], keep) == Filter(s[..n], keep) + if keep(s[n]) then [s[n]] else []
  {
    assert s[..n + 1][..n] == s[..n];
  }

  function KeepIf<T>(x: T, keep: T -> bool): seq<T> {
    if keep(x) then [x] else []
  }

  /** A mask over four rows, row by row. */
  lemma FilterFour<T(!new)>(t: seq<T>, keep: T -> bool)
    requires |t| == 4
    ensures Filter(t, keep) == KeepIf(t[0], keep) + KeepIf(t[1], keep) + KeepIf(t[2], keep) + KeepIf(t[3], keep)
  {
    assert t[..0] == [];
    FilterPrefix(t, keep, 0);
    var f1 := Filter(t[..1], keep);
    assert f1 == KeepIf(t[0], keep);
    FilterPrefix(t, keep, 1);
    var f2 := Filter(t[..2], keep);
    assert f2 == f1 + KeepIf(t[1], keep);
    FilterPrefix(t, keep, 2);
    var f3 := Filter(t[..3], keep);
    assert f3 == f2 + KeepIf(t[2], keep);
    FilterPrefix(t, keep, 3);
    assert t[..4] == t;
    assert Filter(t, keep) == f3 + KeepIf(t[3], keep);
  }

  /** A mask over two rows, row by row. */
  lemma FilterTwo<T(!new)>(t: seq<T>, keep: T -> bool)
    requires |t| == 2
    ensures Filter(t, keep) == KeepIf(t[0], keep) + KeepIf(t[1], keep)
  {
    assert t[..0] == [] && t[..2] == t;
    FilterPrefix(t, keep, 0);
    FilterPrefix(t, keep, 1);
  }

  /** The rows of a four-row table whose first and third rows are of date `d` and the others not. */
  lemma FilterFirstAndThird(t: seq<PublishedRow>, d: CalendarDate)
    requires |t| == 4 && t[0].date == d && t[1].date != d && t[2].date == d && t[3].date != d
    ensures Filter(t, HasDate(d)) == [t[0], t[2]]
  {
    FilterFour(t, HasDate(d));
  }

  /** Two rows add up to the sum of their figures, absent ones counting zero. */
  lemma SumTwo(a: PublishedRow, b: PublishedRow, m: Measure)
    ensures Sum([a, b], m) == ValueOf(a, m).GetOr(0.0) + ValueOf(b, m).GetOr(0.0)
  {
    assert [a, b][..1] == [a];
    assert [a][..0] == [];
    assert Sum([a], m) == Sum([], m) + ValueOf(a, m).GetOr(0.0);
    assert Sum([a, b], m) == Sum([a], m) + ValueOf(b, m).GetOr(0.0);
  }

  lemma AffectedTwo(a: PublishedRow, b: PublishedRow)
    requires a.cases.Some? && a.cases.value > 0.0 && b.cases.Some? && b.cases.value > 0.0
    ensures Affected([a, b]) == 2
  {
    assert [a, b][..1] == [a];
    assert [a][..0] == [];
    assert Affected([a]) == Affected([]) + 1;
    assert Affected([a, b]) == Affected([a]) + 1;
  }

  /** The summary of 2020-03-15 adds up both countries; 1999-01-01 has no rows. */
  lemma SummaryFixture(t: seq<PublishedRow>)
    requires IsFixture(t)
    ensures GlobalSummary(Some(t), Some(CalendarDate(2020, 3, 15)))
      == Ok(Summary(CalendarDate(2020, 3, 15), 3000.0, 80.0, 0.0, 0.0, 2))
    ensures GlobalSummary(Some(t), Some(CalendarDate(1999, 1, 1))) == HttpError(NotFound)
  {
    var d := CalendarDate(2020, 3, 15);
    FilterFirstAndThird(t, d);
    SumTwo(t[0], t[2], ConfirmedCases);
    SumTwo(t[0], t[2], Deaths);
    SumTwo(t[0], t[2], TotalVaccinations);
    SumTwo(t[0], t[2], PeopleFullyVaccinated);
    AffectedTwo(t[0], t[2]);
    SummaryNotFound(Some(t), CalendarDate(1999, 1, 1));
  }

  /** A four-row table whose rows alternate between dates `d` and `e` has those two dates. */
  lemma AlternatingDates(t: seq<PublishedRow>, d: CalendarDate, e: CalendarDate)
    requires |t| == 4 && t[0].date == d && t[1].date == e && t[2].date == d && t[3].date == e
    ensures Dates(t) == {d, e}
  {
    forall x | x in Dates(t) ensures x == d || x == e {
      var r :| r in t && r.date == x;
    }
    assert t[0] in t && t[1] in t;
  }

  /** The fixture spans 2020-03-15 to 2020-03-16. */
  lemma DatesFixture(t: seq<PublishedRow>)
    requires IsFixture(t)
    ensures AvailableDates(Some(t)) == Ok(DateRange(CalendarDate(2020, 3, 15), CalendarDate(2020, 3, 16), 2))
  {
    AlternatingRange(t, CalendarDate(2020, 3, 15), CalendarDate(2020, 3, 16));
  }

  /** A four-row table alternating between an earlier and a later date spans two days. */
  lemma AlternatingRange(t: seq<PublishedRow>, d: CalendarDate, e: CalendarDate)
    requires |t| == 4 && t[0].date == d && t[1].date == e && t[2].date == d && t[3].date == e
    requires Le(d, e) && d != e
    ensures AvailableDates(Some(t)) == Ok(DateRange(d, e, 2))
  {
    AlternatingDates(t, d, e);
    assert |Dates(t)| == 2 by {
      assert {d, e} == {d} + {e};
    }
    var lo, hi := MinDate(t), MaxDate(t);
    assert lo in Dates(t) && hi in Dates(t);
    assert Le(lo, t[0].date) && Le(t[1].date, hi);
    assert lo == d && hi == e;
  }

  /** The rows of a four-row table whose first two rows are of code `c` and the others not. */
  lemma FilterFirstTwo(t: seq<PublishedRow>, c: string)
    requires |t| == 4 && t[0].iso3 == c && t[1].iso3 == c && t[2].iso3 != c && t[3].iso3 != c
    ensures Filter(t, HasCode(c)) == [t[0], t[1]]
  {
    FilterFour(t, HasCode(c));
  }

  /** Two rows already in date order stay as they are. */
  lemma SortTwoInOrder(a: PublishedRow, b: PublishedRow)
    requires Le(a.date, b.date)
    ensures SortBy([a], ByDate) == [a]
    ensures SortBy([a, b], ByDate) == [a, b]
  {
    assert [a][..0] == [];
    assert [a, b][..1] == [a];
    assert Insert(b, [a], ByDate) == [a, b] by {
      assert [a][1..] == [];
    }
  }

  /** The answer for a code with rows, read off the rows the range keeps. */
  lemma AnswerOfRows(t: seq<PublishedRow>, iso3: string, from: Option<CalendarDate>, to: Option<CalendarDate>)
    requires t != [] && Filter(t, HasCode(Upper(iso3))) != []
    ensures var a := CountryTimeseriesAnswer(Some(t), iso3, from, to);
      var rows := SeriesRows(t, Upper(iso3), from, to);
      a.Ok? && |a.body.data| == |rows| && (rows != [] ==> a.body.country == rows[0].country)
      && forall i :: 0 <= i < |rows| ==> a.body.data[i].date == rows[i].date
  {
  }

  /** The two rows of the code, unbounded, in date order. */
  lemma TwoDayRowsAll(t: seq<PublishedRow>, code: string)
    requires |t| == 4 && t[0].iso3 == t[1].iso3 == code && t[2].iso3 != code && t[3].iso3 != code
    requires Le(t[0].date, t[1].date)
    ensures SeriesRows(t, code, None, None) == [t[0], t[1]]
  {
    var pair := [t[0], t[1]];
    FilterFirstTwo(t, code);
    FilterTwo(pair, InRange(None, None));
    SortTwoInOrder(t[0], t[1]);
  }

  /** The range from the later date to the later date keeps the second row alone. */
  lemma TwoDayRowsLast(t: seq<PublishedRow>, code: string)
    requires |t| == 4 && t[0].iso3 == t[1].iso3 == code && t[2].iso3 != code && t[3].iso3 != code
    requires Le(t[0].date, t[1].date) && t[0].date != t[1].date
    ensures SeriesRows(t, code, Some(t[1].date), Some(t[1].date)) == [t[1]]
  {
    var pair := [t[0], t[1]];
    var e := t[1].date;
    FilterFirstTwo(t, code);
    FilterTwo(pair, InRange(Some(e), Some(e)));
    assert !Le(e, t[0].date) by {
      if Le(e, t[0].date) {
        LeAntisymmetric(t[0].date, e);
      }
    }
    assert !InRange(Some(e), Some(e))(t[0]);
    SortTwoInOrder(t[1], t[1]);
  }

  /**
   * A code with two rows, on an earlier date `d` and a later date `e`, gets
   * both as points in date order; the range from `e` to `e` keeps the second.
   */
  lemma TwoDaySeries(t: seq<PublishedRow>, iso3: string, d: CalendarDate, e: CalendarDate)
    requires |t| == 4 && t[0].iso3 == t[1].iso3 == Upper(iso3) && t[2].iso3 != Upper(iso3) && t[3].iso3 != Upper(iso3)
    requires t[0].date == d && t[1].date == e && Le(d, e) && d != e
    ensures var all := CountryTimeseriesAnswer(Some(t), iso3, None, None);
      all.Ok? && all.body.country == t[0].country && |all.body.data| == 2
      && all.body.data[0].date == d && all.body.data[1].date == e
    ensures var one := CountryTimeseriesAnswer(Some(t), iso3, Some(e), Some(e));
      one.Ok? && |one.body.data| == 1 && one.body.data[0].date == e
  {
    FilterFirstTwo(t, Upper(iso3));
    TwoDayRowsAll(t, Upper(iso3));
    TwoDayRowsLast(t, Upper(iso3));
    AnswerOfRows(t, iso3, None, None);
    AnswerOfRows(t, iso3, Some(e), Some(e));
  }

  /** "USA" and "usa" both find the two United States rows; the range 2020-03-16 to 2020-03-16 keeps one. */
  lemma TimeseriesFixture(t: seq<PublishedRow>, iso3: string)
    requires IsFixture(t) && iso3 in ["USA", "usa"]
    ensures var all := CountryTimeseriesAnswer(Some(t), iso3, None, None);
      all.Ok? && all.body.iso3 == "USA" && all.body.country == "United States" && |all.body.data| == 2
    ensures var one := CountryTimeseriesAnswer(Some(t), iso3, Some(CalendarDate(2020, 3, 16)), Some(CalendarDate(2020, 3, 16)));
      one.Ok? && |one.body.data| == 1 && one.body.data[0].date == CalendarDate(2020, 3, 16)
  {
    assert Upper(iso3) == "USA";
    TwoDaySeries(t, iso3, CalendarDate(2020, 3, 15), CalendarDate(2020, 3, 16));
  }
}
