/**
 * `run_etl` (frontend/etl/run_etl.py): check that the three input files
 * exist, transform cases and deaths, outer-join them, transform
 * vaccinations, left-join them on, validate, and sort by (iso3, date). A
 * missing file, a read or transform that raises, or a failed validation ends
 * the run with `False`; otherwise the sorted table is what the run publishes.
 * The parquet writes themselves are not modelled, so neither is a run that
 * fails after writing the merged table but before writing the per-metric ones.
 */
module Pipeline {
  import opened Wrappers
  import opened Calendar
  import opened Text
  import opened Sorting
  import opened Reshaper
  import opened CasesDeaths
  import opened Vaccinations
  import opened Merge
  import opened Validation

  /** An input file: not there, there but unreadable as CSV, or read into a table. */
  datatype Source<T> = Absent | Unreadable | Loaded(content: T)

  /** The columns of the merged table: the key, the two JHU metrics, the four vaccination fields. */
  function MergedColumns(): seq<string> {
    ["date", "country", "iso3", "confirmed_cases", "deaths",
     "total_vaccinations", "people_vaccinated", "people_fully_vaccinated", "daily_vaccinations"]
  }

  /** `sort_values(["iso3", "date"])` on the merged table, `NaT` last. */
  predicate MergedLe(a: MergedRow, b: MergedRow) {
    CodeDateLe(a.iso3, a.date, b.iso3, b.date)
  }

  lemma MergedLeTotalPreorder()
    ensures TotalPreorder(MergedLe)
  {
    forall a, b ensures MergedLe(a, b) || MergedLe(b, a) {
      CodeDateLeTotal(a.iso3, a.date, b.iso3, b.date);
    }
    forall a, b, c | MergedLe(a, b) && MergedLe(b, c) ensures MergedLe(a, c) {
      CodeDateLeTransitive(a.iso3, a.date, b.iso3, b.date, c.iso3, c.date);
    }
  }

  predicate AllPresent<A, B, C>(cases: Source<A>, deaths: Source<B>, vacc: Source<C>) {
    !cases.Absent? && !deaths.Absent? && !vacc.Absent?
  }

  /** The table before validation: both merges, or `None` when a read or transform raises. */
  function Merged(p: Parsers, cases: Source<WideFrame>, deaths: Source<WideFrame>,
                  vacc: Source<VaccTable>): Option<seq<MergedRow>>
  {
    if !cases.Loaded? || !deaths.Loaded? then None
    else
      var cd := CasesDeathsStage(p, cases.content, deaths.content);
      if cd.None? || !vacc.Loaded? then None
      else
        var v := Vaccinations.Stage(p, vacc.content);
        if v.None? then None
        else Some(LeftJoin(OuterJoin(cd.value.0, cd.value.1), v.value))
  }

  /**
   * Whether pandas gets through the two joins and `validate_data` with this
   * date column, given the rows of the vaccination stage.
   * - Every date a day: the column holds `datetime.date` objects throughout.
   * - Every date `NaT`: the column is a datetime column. The left join
   *   refuses to match it with the vaccination table's column of objects,
   *   unless the vaccination table has no rows, in which case pandas skips
   *   that check. `min()` of an all-`NaT` column is `NaT`, with no error.
   * - A mix: the column holds objects, and `validate_data`'s
   *   `df["date"].min()` compares a date with a float and raises (or the
   *   outer join already refused to match a datetime column with one of
   *   objects).
   */
  predicate DatesAccepted(merged: seq<MergedRow>, vaccRows: seq<VaccRecord>) {
    AllDated(merged) || (NoneDated(merged) && vaccRows == [])
  }

  /** What the run publishes, or `None` when it returns `False`. */
  function Run(p: Parsers, cases: Source<WideFrame>, deaths: Source<WideFrame>,
               vacc: Source<VaccTable>): Option<seq<MergedRow>>
  {
    if !AllPresent(cases, deaths, vacc) then None
    else
      var merged := Merged(p, cases, deaths, vacc);
      if merged.None? || !ValidateData(Table(MergedColumns(), |merged.value|))
         || !DatesAccepted(merged.value, Vaccinations.Stage(p, vacc.content).value) then None
      else Some(SortBy(merged.value, MergedLe))
  }

  /**
   * The run step by step: the three presence checks, then the transforms
   * and merges, each of which may fail, then validation and the sort.
   */
  method RunEtl(p: Parsers, cases: Source<WideFrame>, deaths: Source<WideFrame>, vacc: Source<VaccTable>)
    returns (ok: bool, published: Option<seq<MergedRow>>)
    ensures published == Run(p, cases, deaths, vacc)
    ensures ok <==> published.Some?
  {
    if cases.Absent? || deaths.Absent? || vacc.Absent? {
      return false, None;
    }
    if cases.Unreadable? || deaths.Unreadable? {
      return false, None;
    }
    var cd := TransformCasesDeaths(p, cases.content, deaths.content);
    if cd.None? {
      return false, None;
    }
    var timeseries := OuterJoin(cd.value.0, cd.value.1);
    if vacc.Unreadable? {
      return false, None;
    }
    var v := TransformVaccinations(p, vacc.content);
    if v.None? {
      return false, None;
    }
    var merged := LeftJoin(timeseries, v.value);
    if !ValidateData(Table(MergedColumns(), |merged|)) {
      return false, None;
    }
    if !DatesAccepted(merged, v.value) {
      return false, None;
    }
    var sorted := SortBy(merged, MergedLe);
    return true, Some(sorted);
  }

  // ----- What the run promises -----

  /** A missing input file fails the run whatever the other inputs hold. */
  lemma MissingFileFails(p: Parsers, cases: Source<WideFrame>, deaths: Source<WideFrame>,
                         vacc: Source<VaccTable>)
    requires cases.Absent? || deaths.Absent? || vacc.Absent?
    ensures Run(p, cases, deaths, vacc).None?
  {
  }

  /** A transform that raises fails the run. */
  lemma TransformFailureFails(p: Parsers, cases: Source<WideFrame>, deaths: Source<WideFrame>,
                              vacc: Source<VaccTable>)
    requires Merged(p, cases, deaths, vacc).None?
    ensures Run(p, cases, deaths, vacc).None?
  {
  }

  /**
   * Once every transform has succeeded the merged table is never empty (the
   * cases stage fails on an empty table, and neither join drops a row), so
   * `validate_data` never returns `False`: whether the run publishes depends
   * only on its date column.
   */
  lemma ValidationNeverFails(p: Parsers, cases: Source<WideFrame>, deaths: Source<WideFrame>,
                             vacc: Source<VaccTable>)
    requires Merged(p, cases, deaths, vacc).Some?
    ensures var merged := Merged(p, cases, deaths, vacc).value;
      Run(p, cases, deaths, vacc) ==
        if DatesAccepted(merged, Vaccinations.Stage(p, vacc.content).value) then Some(SortBy(merged, MergedLe)) else None
  {
    var merged := Merged(p, cases, deaths, vacc);
    assert AllPresent(cases, deaths, vacc);
    MergedNonEmpty(p, cases, deaths, vacc);
    MergedColumnsValid(|merged.value|);
    assert ValidateData(Table(MergedColumns(), |merged.value|));
  }

  /** Every cases or deaths record lends its date to some row of the merged table. */
  lemma RecordReachesMerge(p: Parsers, cases: Source<WideFrame>, deaths: Source<WideFrame>,
                           vacc: Source<VaccTable>, x: LongRecord)
    requires Merged(p, cases, deaths, vacc).Some?
    requires var cd := CasesDeathsStage(p, cases.content, deaths.content).value; x in cd.0 + cd.1
    ensures var merged := Merged(p, cases, deaths, vacc).value;
      exists i :: 0 <= i < |merged| && merged[i].date == x.date
  {
    var cd := CasesDeathsStage(p, cases.content, deaths.content).value;
    var ts := OuterJoin(cd.0, cd.1);
    var vs := Vaccinations.Stage(p, vacc.content).value;
    var merged := LeftJoin(ts, vs);
    assert Merged(p, cases, deaths, vacc).value == merged;
    OuterJoinKeepsBothSides(cd.0, cd.1);
    var t: CasesDeathsRow :| t in ts && t.date == x.date;
    LeftJoinKeepsEachRow(ts, vs, t);
    var row: MergedRow :| row in merged && row.date == t.date;
    var i :| 0 <= i < |merged| && merged[i] == row;
  }

  /**
   * A cases or deaths record dated `NaT` fails the run, unless every date is
   * `NaT` and no vaccination row resolves: with a vaccination row to join,
   * or with a dated record beside it, pandas raises.
   */
  lemma NaTRecordFails(p: Parsers, cases: Source<WideFrame>, deaths: Source<WideFrame>,
                       vacc: Source<VaccTable>, x: LongRecord)
    requires Merged(p, cases, deaths, vacc).Some?
    requires var cd := CasesDeathsStage(p, cases.content, deaths.content).value;
      x in cd.0 + cd.1 && x.date.None?
    requires var cd := CasesDeathsStage(p, cases.content, deaths.content).value;
      Vaccinations.Stage(p, vacc.content).value != [] || exists y :: y in cd.0 + cd.1 && y.date.Some?
    ensures Run(p, cases, deaths, vacc).None?
  {
    var cd := CasesDeathsStage(p, cases.content, deaths.content).value;
    var merged := Merged(p, cases, deaths, vacc).value;
    RecordReachesMerge(p, cases, deaths, vacc, x);
    assert !AllDated(merged);
    if Vaccinations.Stage(p, vacc.content).value == [] {
      var y :| y in cd.0 + cd.1 && y.date.Some?;
      RecordReachesMerge(p, cases, deaths, vacc, y);
      assert !NoneDated(merged);
    }
  }

  /**
   * When every cases and deaths date is `NaT` and no vaccination row
   * resolves, the run publishes, and every published date is `NaT`.
   */
  lemma AllNaTPublishes(p: Parsers, cases: Source<WideFrame>, deaths: Source<WideFrame>,
                        vacc: Source<VaccTable>)
    requires Merged(p, cases, deaths, vacc).Some?
    requires Vaccinations.Stage(p, vacc.content).value == []
    requires var cd := CasesDeathsStage(p, cases.content, deaths.content).value;
      forall y :: y in cd.0 + cd.1 ==> y.date.None?
    ensures Run(p, cases, deaths, vacc).Some?
    ensures NoneDated(Run(p, cases, deaths, vacc).value)
  {
    var cd := CasesDeathsStage(p, cases.content, deaths.content).value;
    var merged := Merged(p, cases, deaths, vacc).value;
    forall i | 0 <= i < |merged| ensures merged[i].date.None? {
      MergeKeysFromInputs(cd.0, cd.1, Vaccinations.Stage(p, vacc.content).value, merged[i]);
    }
    ValidationNeverFails(p, cases, deaths, vacc);
    SortByPermutes(merged);
    PermutationKeepsDating(merged, SortBy(merged, MergedLe));
  }

  lemma SortByPermutes(rows: seq<MergedRow>)
    ensures multiset(SortBy(rows, MergedLe)) == multiset(rows)
  {
    MergedLeTotalPreorder();
    SortBySorted(rows, MergedLe);
  }

  /** Reordering rows keeps "every date is a day" and "every date is `NaT`". */
  lemma PermutationKeepsDating(a: seq<MergedRow>, b: seq<MergedRow>)
    requires multiset(a) == multiset(b)
    ensures AllDated(a) ==> AllDated(b)
    ensures NoneDated(a) ==> NoneDated(b)
  {
    forall i | 0 <= i < |b| ensures exists j :: 0 <= j < |a| && a[j] == b[i] {
      assert b[i] in multiset(b);
      assert b[i] in a;
    }
  }

  /**
   * A blank date cell in the cases table, in a column whose name resolves,
   * fails the run when some vaccination row resolves: `normalize_date`
   * (`Standard()`) keeps the row with a `NaT` date rather than skipping it.
   */
  lemma BlankCasesDateFails(p: Parsers, cases: Source<WideFrame>, deaths: Source<WideFrame>,
                            vacc: Source<VaccTable>, k: int, j: int)
    requires p.date(CellText(Missing)) == Standard().date(CellText(Missing))
    requires cases.Loaded? && SplitLayout(cases.content).Some?
    requires var l := SplitLayout(cases.content).value;
      && 0 <= k < |l.countries| && 0 <= j < |l.dates| && j < |l.countries[k].cells|
      && l.dates[j].Missing? && p.iso3(l.countries[k].name).Some?
    requires vacc.Loaded? ==> Vaccinations.Stage(p, vacc.content) != Some([])
    ensures Run(p, cases, deaths, vacc).None?
  {
    if Merged(p, cases, deaths, vacc).Some? {
      StandardBlankIsNaT();
      var col := SplitLayout(cases.content).value.countries[k];
      var rec := LongRecord(None, col.name, p.iso3(col.name).value, Metric(col.cells[j]));
      BlankDateRowKept(p, cases.content, k, j);
      StageKeepsNaT(LongFormat(p, cases.content), rec);
      var cd := CasesDeathsStage(p, cases.content, deaths.content).value;
      var y :| y in cd.0 && y.date.None?;
      assert y in cd.0 + cd.1;
      NaTRecordFails(p, cases, deaths, vacc, y);
    }
  }

  /** The cases stage fails on an empty table, and neither join drops a row. */
  lemma MergedNonEmpty(p: Parsers, cases: Source<WideFrame>, deaths: Source<WideFrame>,
                       vacc: Source<VaccTable>)
    requires Merged(p, cases, deaths, vacc).Some?
    ensures |Merged(p, cases, deaths, vacc).value| > 0
  {
    var cd := CasesDeathsStage(p, cases.content, deaths.content).value;
    StageKeepsLength(LongFormat(p, cases.content));
    JoinsKeepRows(cd.0, cd.1, Vaccinations.Stage(p, vacc.content).value);
  }

  /**
   * Neither join drops a cases row: each one reaches the merged table with
   * its key and its value, and the merged table is at least as long.
   */
  lemma JoinsKeepRows(ls: seq<LongRecord>, rs: seq<LongRecord>, vs: seq<VaccRecord>)
    ensures |LeftJoin(OuterJoin(ls, rs), vs)| >= |ls|
    ensures forall l :: l in ls ==> exists row :: (row in LeftJoin(OuterJoin(ls, rs), vs)
      && row.date == l.date && row.country == l.country && row.iso3 == l.iso3 && row.cases == l.value)
  {
    LeftSideKeepsRows(ls, rs);
    LeftJoinKeepsRows(OuterJoin(ls, rs), vs);
    var ts := OuterJoin(ls, rs);
    forall l | l in ls
      ensures exists row :: (row in LeftJoin(ts, vs)
        && row.date == l.date && row.country == l.country && row.iso3 == l.iso3 && row.cases == l.value)
    {
      OuterJoinKeepsBothSides(ls, rs);
      var t :| t in ts && t.date == l.date && t.country == l.country && t.iso3 == l.iso3 && t.cases == l.value;
      LeftJoinKeepsEachRow(ts, vs, t);
    }
  }

  /** The merged table has every required column, so only its row count can fail validation. */
  lemma MergedColumnsValid(rows: nat)
    ensures ValidateData(Table(MergedColumns(), rows)) <==> rows > 0
  {
    assert MergedColumns()[0] == "date" && MergedColumns()[1] == "country" && MergedColumns()[2] == "iso3";
  }

  /**
   * The published table is sorted by (iso3, date) and holds exactly the
   * merged rows; either every published date is a day, or every one is `NaT`.
   */
  lemma PublishedSorted(p: Parsers, cases: Source<WideFrame>, deaths: Source<WideFrame>,
                        vacc: Source<VaccTable>)
    requires Run(p, cases, deaths, vacc).Some?
    ensures Merged(p, cases, deaths, vacc).Some?
    ensures SortedBy(Run(p, cases, deaths, vacc).value, MergedLe)
    ensures multiset(Run(p, cases, deaths, vacc).value) == multiset(Merged(p, cases, deaths, vacc).value)
    ensures AllDated(Run(p, cases, deaths, vacc).value) || NoneDated(Run(p, cases, deaths, vacc).value)
  {
    var merged := Merged(p, cases, deaths, vacc).value;
    MergedLeTotalPreorder();
    SortBySorted(merged, MergedLe);
    PermutationKeepsDating(merged, SortBy(merged, MergedLe));
  }

  /** A cases or deaths record with the key (`date`, `country`, `iso3`). */
  predicate KeyFromInputs(date: Option<CalendarDate>, country: string, iso3: string,
                          ls: seq<LongRecord>, rs: seq<LongRecord>) {
    exists x :: (x in ls + rs && x.date == date && x.country == country && x.iso3 == iso3)
  }

  /**
   * Every row of the two merges has the key of a cases or deaths record:
   * the left join adds no key that only the vaccination table has.
   */
  lemma MergeKeysFromInputs(ls: seq<LongRecord>, rs: seq<LongRecord>, vs: seq<VaccRecord>, row: MergedRow)
    requires row in LeftJoin(OuterJoin(ls, rs), vs)
    ensures KeyFromInputs(row.date, row.country, row.iso3, ls, rs)
  {
    LeftJoinKeepsKey(OuterJoin(ls, rs), vs, row);
    var t :| t in OuterJoin(ls, rs) && t.date == row.date && t.country == row.country && t.iso3 == row.iso3;
    OuterJoinKeepsKey(ls, rs, t);
  }

  /** Every published row has the key of a record of the reshaped cases or deaths table. */
  lemma PublishedKeysFromInputs(p: Parsers, cases: Source<WideFrame>, deaths: Source<WideFrame>,
                                vacc: Source<VaccTable>, row: MergedRow)
    requires Run(p, cases, deaths, vacc).Some? && row in Run(p, cases, deaths, vacc).value
    ensures var cd := CasesDeathsStage(p, cases.content, deaths.content);
      cd.Some? && KeyFromInputs(row.date, row.country, row.iso3, cd.value.0, cd.value.1)
  {
    PublishedSorted(p, cases, deaths, vacc);
    var cd := CasesDeathsStage(p, cases.content, deaths.content).value;
    assert row in multiset(Merged(p, cases, deaths, vacc).value);
    MergeKeysFromInputs(cd.0, cd.1, Vaccinations.Stage(p, vacc.content).value, row);
  }
}
