/**
 * The transform part of `load_and_transform_cases_deaths`
 * (frontend/etl/transform_utils.py): each wide table is reshaped, sorted by
 * (iso3, date), and its cumulative metric repaired with `fix_monotonicity`
 * separately for each iso3 code.
 */
module CasesDeaths {
  import opened Wrappers
  import opened Calendar
  import opened Text
  import opened Monotonicity
  import opened Sorting
  import opened Groups
  import opened Reshaper

  // ----- sort_values(["iso3", "date"]) -----

  /** Rows ordered by code, then by date with `NaT` last. */
  predicate KeyLe(a: LongRecord, b: LongRecord) {
    CodeDateLe(a.iso3, a.date, b.iso3, b.date)
  }

  lemma KeyLeTotalPreorder()
    ensures TotalPreorder(KeyLe)
  {
    forall a, b ensures KeyLe(a, b) || KeyLe(b, a) {
      CodeDateLeTotal(a.iso3, a.date, b.iso3, b.date);
    }
    forall a, b, c | KeyLe(a, b) && KeyLe(b, c) ensures KeyLe(a, c) {
      CodeDateLeTransitive(a.iso3, a.date, b.iso3, b.date, c.iso3, c.date);
    }
  }

  // ----- The metric column -----

  function Code(r: LongRecord): string {
    r.iso3
  }

  /** The `iso3` column. */
  function Keys(rows: seq<LongRecord>): seq<string> {
    KeyColumn(rows, Code)
  }

  function Values(rows: seq<LongRecord>): (v: Series)
    ensures |v| == |rows| && forall i :: 0 <= i < |rows| ==> v[i] == rows[i].value
  {
    seq(|rows|, i requires 0 <= i < |rows| => rows[i].value)
  }

  /** `rows` with its metric column replaced by `vals`. */
  function WithValues(rows: seq<LongRecord>, vals: Series): (r: seq<LongRecord>)
    requires |vals| == |rows|
    ensures |r| == |rows|
    ensures forall i :: 0 <= i < |rows| ==> r[i] == rows[i].(value := vals[i])
  {
    seq(|rows|, i requires 0 <= i < |rows| => rows[i].(value := vals[i]))
  }

  lemma RepairedLengthPreserving()
    ensures LengthPreserving(Repaired)
  {
  }

  /** `fix_monotonicity` applied to each group of a column. */
  function RepairPerGroup(keys: seq<string>, vals: Series): (r: Series)
    requires |keys| == |vals|
    ensures |r| == |vals|
  {
    RepairedLengthPreserving();
    PerGroup(keys, vals, Repaired)
  }

  /** Every iso3 group's metric series replaced by its repaired series. */
  function RepairedByGroup(rows: seq<LongRecord>): (r: seq<LongRecord>)
    ensures |r| == |rows|
  {
    WithValues(rows, RepairPerGroup(Keys(rows), Values(rows)))
  }

  /**
   * What the stage makes of one long table, or `None` when it raises: a
   * table without records has no `iso3` column to sort by.
   */
  function Stage(long: Option<seq<LongRecord>>): Option<seq<LongRecord>> {
    if long.None? || long.value == [] then None
    else Some(RepairedByGroup(SortBy(long.value, KeyLe)))
  }

  /** Both tables through the reshaper and the stage; `None` when either raises. */
  function CasesDeathsStage(p: Parsers, cases: WideFrame, deaths: WideFrame): Option<(seq<LongRecord>, seq<LongRecord>)> {
    var c := Stage(LongFormat(p, cases));
    var d := Stage(LongFormat(p, deaths));
    if c.Some? && d.Some? then Some((c.value, d.value)) else None
  }

  // ----- The loops -----

  /**
   * The loop over `unique()` codes: each code's values are read out through
   * the mask, repaired, and written back to the masked rows in order.
   */
  method RepairByGroup(keys: seq<string>, values: array<Option<real>>)
    requires values.Length == |keys|
    modifies values
    ensures values[..] == RepairPerGroup(keys, old(values[..]))
  {
    RepairedLengthPreserving();
    ghost var orig := values[..];
    ghost var target := RepairPerGroup(keys, orig);
    var codes := Unique(keys);
    var k := 0;
    while k < |codes|
      invariant 0 <= k <= |codes|
      invariant forall j :: 0 <= j < |keys| ==>
        values[j] == if keys[j] in codes[..k] then target[j] else orig[j]
    {
      var code := codes[k];
      assert code !in codes[..k];
      GroupAgree(keys, values[..], orig, code);
      var series := Group(keys, values[..], code);
      var fixed := FixMonotonicity(series);
      WriteBack(keys, code, fixed, values);
      assert codes[..k + 1] == codes[..k] + [code];
      k := k + 1;
    }
    assert codes[..k] == codes;
  }

  /** The masked assignment: the rows keyed `code` take the entries of `fixed` in order. */
  method WriteBack(keys: seq<string>, code: string, fixed: Series, values: array<Option<real>>)
    requires values.Length == |keys| && |fixed| == Count(keys, code, |keys|)
    modifies values
    ensures forall j :: 0 <= j < |keys| ==>
      values[j] == if keys[j] == code then GroupValueAt(keys, fixed, j) else old(values[j])
  {
    var i := 0;
    var r := 0;
    while i < values.Length
      invariant 0 <= i <= values.Length
      invariant r == Count(keys, code, i)
      invariant forall j :: 0 <= j < |keys| ==>
        values[j] == if j < i && keys[j] == code then GroupValueAt(keys, fixed, j) else old(values[j])
    {
      if keys[i] == code {
        CountBelowTotal(keys, code, i);
        values[i] := fixed[r];
        r := r + 1;
      }
      i := i + 1;
    }
  }

  /** One table through the stage: reshape, sort, repair per code. */
  method TransformLong(p: Parsers, wide: WideFrame) returns (r: Option<seq<LongRecord>>)
    ensures r == Stage(LongFormat(p, wide))
  {
    var long := LongFormatTimeseries(p, wide);
    if long.None? || long.value == [] {
      return None;
    }
    var sorted := SortBy(long.value, KeyLe);
    var values := new Option<real>[|sorted|](i requires 0 <= i < |sorted| => sorted[i].value);
    assert values[..] == Values(sorted);
    RepairByGroup(Keys(sorted), values);
    return Some(WithValues(sorted, values[..]));
  }

  /** `load_and_transform_cases_deaths` after the two CSV reads. */
  method TransformCasesDeaths(p: Parsers, cases: WideFrame, deaths: WideFrame)
    returns (r: Option<(seq<LongRecord>, seq<LongRecord>)>)
    ensures r == CasesDeathsStage(p, cases, deaths)
  {
    var c := TransformLong(p, cases);
    var d := TransformLong(p, deaths);
    if c.None? || d.None? {
      return None;
    }
    return Some((c.value, d.value));
  }

  // ----- What the stage promises -----

  /** A table the stage accepts gives as many rows as it had, so at least one. */
  lemma StageKeepsLength(long: Option<seq<LongRecord>>)
    requires Stage(long).Some?
    ensures |Stage(long).value| == |long.value| > 0
  {
    SortByLength(long.value, KeyLe);
  }

  /** Only the metric changes: row `i` keeps its date, country and code. */
  lemma StageKeepsKeys(long: Option<seq<LongRecord>>)
    requires Stage(long).Some?
    ensures var sorted := SortBy(long.value, KeyLe);
      forall i :: 0 <= i < |sorted| ==> Stage(long).value[i] == sorted[i].(value := Stage(long).value[i].value)
  {
  }

  /** The output is sorted by (iso3, date) and holds the input's rows, metrics aside. */
  lemma StageSorted(long: Option<seq<LongRecord>>)
    requires Stage(long).Some?
    ensures SortedBy(Stage(long).value, KeyLe)
    ensures multiset(SortBy(long.value, KeyLe)) == multiset(long.value)
  {
    KeyLeTotalPreorder();
    var sorted := SortBy(long.value, KeyLe);
    SortBySorted(long.value, KeyLe);
    var r := Stage(long).value;
    forall i, j | 0 <= i < j < |r| ensures KeyLe(r[i], r[j]) {
      assert KeyLe(sorted[i], sorted[j]);
    }
  }

  /**
   * A record dated `NaT` is kept by the sort and the repair, still dated
   * `NaT`, with its country and code.
   */
  lemma StageKeepsNaT(long: Option<seq<LongRecord>>, x: LongRecord)
    requires Stage(long).Some? && x in long.value && x.date.None?
    ensures exists y :: y in Stage(long).value && y.date.None? && y.country == x.country && y.iso3 == x.iso3
  {
    StageKeepsLength(long);
    StageSorted(long);
    SortByLength(long.value, KeyLe);
    var sorted := SortBy(long.value, KeyLe);
    assert x in multiset(sorted);
    var i :| 0 <= i < |sorted| && sorted[i] == x;
    StageKeepsKeys(long);
    assert Stage(long).value[i] in Stage(long).value;
  }

  /** Each code's series in the output is the repaired series of that code in the sorted input. */
  lemma StageRepairsEachGroup(long: Option<seq<LongRecord>>, c: string)
    requires Stage(long).Some?
    ensures var sorted := SortBy(long.value, KeyLe); var r := Stage(long).value;
      Group(Keys(r), Values(r), c) == Repaired(Group(Keys(sorted), Values(sorted), c))
  {
    RepairedLengthPreserving();
    var sorted := SortBy(long.value, KeyLe);
    var r := Stage(long).value;
    assert Keys(r) == Keys(sorted);
    assert Values(r) == RepairPerGroup(Keys(sorted), Values(sorted));
    PerGroupGroup(Keys(sorted), Values(sorted), Repaired, c);
  }

  /**
   * Within one code, in table (hence date) order, a present metric is never
   * followed by an absent or smaller one.
   */
  lemma StageNeverDecreases(long: Option<seq<LongRecord>>, i: int, j: int)
    requires Stage(long).Some?
    requires 0 <= i < j < |Stage(long).value|
    requires Stage(long).value[i].iso3 == Stage(long).value[j].iso3
    requires Stage(long).value[i].value.Some?
    ensures Stage(long).value[j].value.Some?
    ensures Stage(long).value[i].value.value <= Stage(long).value[j].value.value
  {
    var r := Stage(long).value;
    var sorted := SortBy(long.value, KeyLe);
    var s := Group(Keys(sorted), Values(sorted), r[i].iso3);
    StageRepairsEachGroup(long, r[i].iso3);
    if k :| 0 <= k < |s| && s[k].Some? {
      RepairedNonDecreasing(s, k);
    } else {
      RepairedAllAbsent(s);
    }
    GroupOrder(Keys(r), Values(r), i, j);
  }
}
