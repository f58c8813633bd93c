/**
 * The two joins of `run_etl` (frontend/etl/run_etl.py) on the key
 * (date, country, iso3): cases with deaths as an outer join, then the result
 * with vaccinations as a left join. Rows meet only when all three key fields
 * are equal, the raw country label included; a key matched several times
 * yields one row per pair, as pandas does. A missing date (`NaT`, here
 * `None`) is a key value like any other: pandas matches `NaT` with `NaT`.
 */
module Merge {
  import opened Wrappers
  import opened Calendar
  import opened Reshaper
  import opened Vaccinations

  /** A row of the cases/deaths table; `date` is `None` for `NaT`. */
  datatype CasesDeathsRow = CasesDeathsRow(date: Option<CalendarDate>, country: string, iso3: string,
                                           cases: Option<real>, deaths: Option<real>)

  /** A row of the merged table; `date` is `None` for `NaT`. */
  datatype MergedRow = MergedRow(date: Option<CalendarDate>, country: string, iso3: string,
                                 cases: Option<real>, deaths: Option<real>, vacc: Metrics)

  /** A row of the table the endpoints read: its date is a real day. */
  datatype PublishedRow = PublishedRow(date: CalendarDate, country: string, iso3: string,
                                       cases: Option<real>, deaths: Option<real>, vacc: Metrics)

  /** Every row has a date (no `NaT`). */
  predicate AllDated(rows: seq<MergedRow>) {
    forall i :: 0 <= i < |rows| ==> rows[i].date.Some?
  }

  /** No row has a date (every date is `NaT`). */
  predicate NoneDated(rows: seq<MergedRow>) {
    forall i :: 0 <= i < |rows| ==> rows[i].date.None?
  }

  const NoMetrics := Metrics(None, None, None, None)

  /** The rows `f` gives for each element of `xs`, concatenated in order. */
  function FlatMap<A, B>(xs: seq<A>, f: A -> seq<B>): seq<B> {
    if xs == [] then [] else FlatMap(xs[..|xs| - 1], f) + f(xs[|xs| - 1])
  }

  lemma {:induction false} FlatMapMember<A, B>(xs: seq<A>, f: A -> seq<B>, y: B)
    ensures y in FlatMap(xs, f) <==> exists i :: 0 <= i < |xs| && y in f(xs[i])
  {
    if xs != [] {
      var n := |xs| - 1;
      FlatMapMember(xs[..n], f, y);
      if y !in FlatMap(xs, f) {
        forall i | 0 <= i < |xs| ensures y !in f(xs[i]) {
          if i < n {
            assert xs[..n][i] == xs[i];
          }
        }
      }
    }
  }

  /** Each element gives at least one row, so the result is no shorter than `xs`. */
  lemma {:induction false} FlatMapLength<A, B>(xs: seq<A>, f: A -> seq<B>)
    requires forall x :: x in xs ==> |f(x)| >= 1
    ensures |FlatMap(xs, f)| >= |xs|
  {
    if xs != [] {
      FlatMapLength(xs[..|xs| - 1], f);
    }
  }

  // ----- cases.merge(deaths, on=["date", "country", "iso3"], how="outer") -----

  predicate SameKey(a: LongRecord, b: LongRecord) {
    a.date == b.date && a.country == b.country && a.iso3 == b.iso3
  }

  /** The rows of `rs` whose key is that of `l`, in order. */
  function MatchesOf(l: LongRecord, rs: seq<LongRecord>): (m: seq<LongRecord>)
    ensures forall r :: r in m <==> r in rs && SameKey(l, r)
  {
    if rs == [] then []
    else
      var n := |rs| - 1;
      assert rs == rs[..n] + [rs[n]];
      MatchesOf(l, rs[..n]) + (if SameKey(l, rs[n]) then [rs[n]] else [])
  }

  function Both(l: LongRecord, r: LongRecord): CasesDeathsRow {
    CasesDeathsRow(l.date, l.country, l.iso3, l.value, r.value)
  }

  function LeftOnly(l: LongRecord): CasesDeathsRow {
    CasesDeathsRow(l.date, l.country, l.iso3, l.value, None)
  }

  function RightOnly(r: LongRecord): CasesDeathsRow {
    CasesDeathsRow(r.date, r.country, r.iso3, None, r.value)
  }

  /** `l` paired with each row of `m`, in order. */
  function PairAll(l: LongRecord, m: seq<LongRecord>): (r: seq<CasesDeathsRow>)
    ensures |r| == |m|
    ensures forall row :: row in r <==> exists x :: x in m && row == Both(l, x)
  {
    if m == [] then []
    else
      assert m == [m[0]] + m[1..];
      [Both(l, m[0])] + PairAll(l, m[1..])
  }

  /** The rows a cases row gives: one per matching deaths row, or one with no deaths. */
  function JoinOne(l: LongRecord, rs: seq<LongRecord>): seq<CasesDeathsRow> {
    var m := MatchesOf(l, rs);
    if m == [] then [LeftOnly(l)] else PairAll(l, m)
  }

  function JoinWith(rs: seq<LongRecord>): LongRecord -> seq<CasesDeathsRow> {
    l => JoinOne(l, rs)
  }

  /** The rows the cases side gives, cases row by cases row. */
  function LeftSide(ls: seq<LongRecord>, rs: seq<LongRecord>): seq<CasesDeathsRow> {
    FlatMap(ls, JoinWith(rs))
  }

  /** The deaths rows whose key no cases row has. */
  function Unmatched(rs: seq<LongRecord>, ls: seq<LongRecord>): (u: seq<LongRecord>)
    ensures forall r :: r in u <==> r in rs && MatchesOf(r, ls) == []
  {
    if rs == [] then []
    else
      var n := |rs| - 1;
      assert rs == rs[..n] + [rs[n]];
      Unmatched(rs[..n], ls) + (if MatchesOf(rs[n], ls) == [] then [rs[n]] else [])
  }

  function RightRows(u: seq<LongRecord>): (r: seq<CasesDeathsRow>)
    ensures |r| == |u|
    ensures forall row :: row in r <==> exists x :: x in u && row == RightOnly(x)
  {
    if u == [] then []
    else
      assert u == [u[0]] + u[1..];
      [RightOnly(u[0])] + RightRows(u[1..])
  }

  function OuterJoin(ls: seq<LongRecord>, rs: seq<LongRecord>): seq<CasesDeathsRow> {
    LeftSide(ls, rs) + RightRows(Unmatched(rs, ls))
  }

  // ----- timeseries.merge(vacc, on=["date", "country", "iso3"], how="left") -----

  /** A vaccination row with the key of `t`; `NaT` matches `NaT`. */
  predicate VaccKey(t: CasesDeathsRow, v: VaccRecord) {
    v.date == t.date && v.country == t.country && v.iso3 == t.iso3
  }

  function VaccMatchesOf(t: CasesDeathsRow, vs: seq<VaccRecord>): (m: seq<VaccRecord>)
    ensures forall v :: v in m <==> v in vs && VaccKey(t, v)
  {
    if vs == [] then []
    else
      var n := |vs| - 1;
      assert vs == vs[..n] + [vs[n]];
      VaccMatchesOf(t, vs[..n]) + (if VaccKey(t, vs[n]) then [vs[n]] else [])
  }

  function WithVacc(t: CasesDeathsRow, m: Metrics): MergedRow {
    MergedRow(t.date, t.country, t.iso3, t.cases, t.deaths, m)
  }

  /** `t` extended with the figures of each row of `m`, in order. */
  function AttachAll(t: CasesDeathsRow, m: seq<VaccRecord>): (r: seq<MergedRow>)
    ensures |r| == |m|
    ensures forall row :: row in r <==> exists v :: v in m && row == WithVacc(t, v.metrics)
  {
    if m == [] then []
    else
      assert m == [m[0]] + m[1..];
      [WithVacc(t, m[0].metrics)] + AttachAll(t, m[1..])
  }

  function LeftJoinOne(t: CasesDeathsRow, vs: seq<VaccRecord>): seq<MergedRow> {
    var m := VaccMatchesOf(t, vs);
    if m == [] then [WithVacc(t, NoMetrics)] else AttachAll(t, m)
  }

  function LeftJoinWith(vs: seq<VaccRecord>): CasesDeathsRow -> seq<MergedRow> {
    t => LeftJoinOne(t, vs)
  }

  function LeftJoin(ts: seq<CasesDeathsRow>, vs: seq<VaccRecord>): seq<MergedRow> {
    FlatMap(ts, LeftJoinWith(vs))
  }

  // ----- The outer join -----

  lemma JoinOneMember(l: LongRecord, rs: seq<LongRecord>, row: CasesDeathsRow)
    ensures row in JoinOne(l, rs) <==>
      (exists r :: r in rs && SameKey(l, r) && row == Both(l, r))
      || (MatchesOf(l, rs) == [] && row == LeftOnly(l))
  {
  }

  /** A row of the cases side pairs a cases row with a matching deaths row, or stands alone. */
  lemma LeftSideRows(ls: seq<LongRecord>, rs: seq<LongRecord>, row: CasesDeathsRow)
    ensures row in LeftSide(ls, rs) <==>
      (exists l, r :: l in ls && r in rs && SameKey(l, r) && row == Both(l, r))
      || (exists l :: l in ls && MatchesOf(l, rs) == [] && row == LeftOnly(l))
  {
    FlatMapMember(ls, JoinWith(rs), row);
    if row in LeftSide(ls, rs) {
      var i :| 0 <= i < |ls| && row in JoinOne(ls[i], rs);
      JoinOneMember(ls[i], rs, row);
    }
    if l, r :| l in ls && r in rs && SameKey(l, r) && row == Both(l, r) {
      var i :| 0 <= i < |ls| && ls[i] == l;
      JoinOneMember(l, rs, row);
    }
    if l :| l in ls && MatchesOf(l, rs) == [] && row == LeftOnly(l) {
      var i :| 0 <= i < |ls| && ls[i] == l;
      JoinOneMember(l, rs, row);
    }
  }

  /**
   * A row of the outer join pairs a cases row with a deaths row of the same
   * key, or is a cases row whose key no deaths row has (deaths absent), or a
   * deaths row whose key no cases row has (cases absent).
   */
  lemma OuterJoinMember(ls: seq<LongRecord>, rs: seq<LongRecord>, row: CasesDeathsRow)
    ensures row in OuterJoin(ls, rs) <==>
      (exists l, r :: l in ls && r in rs && SameKey(l, r) && row == Both(l, r))
      || (exists l :: l in ls && MatchesOf(l, rs) == [] && row == LeftOnly(l))
      || (exists r :: r in rs && MatchesOf(r, ls) == [] && row == RightOnly(r))
  {
    LeftSideRows(ls, rs, row);
  }

  /** Every cases row and every deaths row is represented in the outer join. */
  lemma OuterJoinKeepsBothSides(ls: seq<LongRecord>, rs: seq<LongRecord>)
    ensures forall l :: l in ls ==> exists row :: (row in OuterJoin(ls, rs)
      && row.date == l.date && row.country == l.country && row.iso3 == l.iso3 && row.cases == l.value)
    ensures forall r :: r in rs ==> exists row :: (row in OuterJoin(ls, rs)
      && row.date == r.date && row.country == r.country && row.iso3 == r.iso3 && row.deaths == r.value)
  {
    forall l | l in ls
      ensures exists row :: (row in OuterJoin(ls, rs)
        && row.date == l.date && row.country == l.country && row.iso3 == l.iso3 && row.cases == l.value)
    {
      var m := MatchesOf(l, rs);
      if m == [] {
        OuterJoinMember(ls, rs, LeftOnly(l));
      } else {
        assert m[0] in m;
        OuterJoinMember(ls, rs, Both(l, m[0]));
      }
    }
    forall r | r in rs
      ensures exists row :: (row in OuterJoin(ls, rs)
        && row.date == r.date && row.country == r.country && row.iso3 == r.iso3 && row.deaths == r.value)
    {
      var m := MatchesOf(r, ls);
      if m == [] {
        OuterJoinMember(ls, rs, RightOnly(r));
      } else {
        var l := m[0];
        assert l in m;
        OuterJoinMember(ls, rs, Both(l, r));
      }
    }
  }

  /** A key that only the cases side has carries no deaths, and conversely. */
  lemma OneSidedKeys(ls: seq<LongRecord>, rs: seq<LongRecord>, row: CasesDeathsRow)
    requires row in OuterJoin(ls, rs)
    ensures (forall r :: r in rs ==> !(r.date == row.date && r.country == row.country && r.iso3 == row.iso3))
            ==> row.deaths.None?
    ensures (forall l :: l in ls ==> !(l.date == row.date && l.country == row.country && l.iso3 == row.iso3))
            ==> row.cases.None?
  {
    OuterJoinMember(ls, rs, row);
  }

  // ----- The left join -----

  lemma LeftJoinOneMember(t: CasesDeathsRow, vs: seq<VaccRecord>, row: MergedRow)
    ensures row in LeftJoinOne(t, vs) <==>
      (exists v :: v in vs && VaccKey(t, v) && row == WithVacc(t, v.metrics))
      || (VaccMatchesOf(t, vs) == [] && row == WithVacc(t, NoMetrics))
  {
  }

  /**
   * A row of the left join is a cases/deaths row extended with the figures of
   * a vaccination row of the same key, or with no figures when there is none:
   * the left join adds no key of its own and drops no cases/deaths row.
   */
  lemma LeftJoinRows(ts: seq<CasesDeathsRow>, vs: seq<VaccRecord>, row: MergedRow)
    ensures row in LeftJoin(ts, vs) <==>
      exists t :: (t in ts &&
        ((exists v :: v in vs && VaccKey(t, v) && row == WithVacc(t, v.metrics))
         || (VaccMatchesOf(t, vs) == [] && row == WithVacc(t, NoMetrics))))
  {
    FlatMapMember(ts, LeftJoinWith(vs), row);
    if row in LeftJoin(ts, vs) {
      var i :| 0 <= i < |ts| && row in LeftJoinOne(ts[i], vs);
      LeftJoinOneMember(ts[i], vs, row);
    }
    if t :| (t in ts &&
        ((exists v :: v in vs && VaccKey(t, v) && row == WithVacc(t, v.metrics))
         || (VaccMatchesOf(t, vs) == [] && row == WithVacc(t, NoMetrics)))) {
      var i :| 0 <= i < |ts| && ts[i] == t;
      LeftJoinOneMember(t, vs, row);
    }
  }

  /** A row of the left join has the key of a cases/deaths row. */
  lemma LeftJoinKeepsKey(ts: seq<CasesDeathsRow>, vs: seq<VaccRecord>, row: MergedRow)
    requires row in LeftJoin(ts, vs)
    ensures exists t :: t in ts && t.date == row.date && t.country == row.country && t.iso3 == row.iso3
  {
    LeftJoinRows(ts, vs, row);
  }

  /** Every cases/deaths row is represented, key and figures, in the left join. */
  lemma LeftJoinKeepsEachRow(ts: seq<CasesDeathsRow>, vs: seq<VaccRecord>, t: CasesDeathsRow)
    requires t in ts
    ensures exists row :: (row in LeftJoin(ts, vs) && row.date == t.date && row.country == t.country
      && row.iso3 == t.iso3 && row.cases == t.cases && row.deaths == t.deaths)
  {
    var m := VaccMatchesOf(t, vs);
    if m == [] {
      LeftJoinRows(ts, vs, WithVacc(t, NoMetrics));
    } else {
      assert m[0] in m;
      LeftJoinRows(ts, vs, WithVacc(t, m[0].metrics));
    }
  }

  /** A row of the outer join has the key of a cases or a deaths row. */
  lemma OuterJoinKeepsKey(ls: seq<LongRecord>, rs: seq<LongRecord>, t: CasesDeathsRow)
    requires t in OuterJoin(ls, rs)
    ensures exists x :: x in ls + rs && x.date == t.date && x.country == t.country && x.iso3 == t.iso3
  {
    OuterJoinMember(ls, rs, t);
    if l, r :| l in ls && r in rs && SameKey(l, r) && t == Both(l, r) {
      assert l in ls + rs;
    } else if l :| l in ls && MatchesOf(l, rs) == [] && t == LeftOnly(l) {
      assert l in ls + rs;
    } else {
      var r :| r in rs && MatchesOf(r, ls) == [] && t == RightOnly(r);
      assert r in ls + rs;
    }
  }

  /** Each cases/deaths row gives at least one row, so the left join is at least as long. */
  lemma LeftJoinKeepsRows(ts: seq<CasesDeathsRow>, vs: seq<VaccRecord>)
    ensures |LeftJoin(ts, vs)| >= |ts|
  {
    FlatMapLength(ts, LeftJoinWith(vs));
  }

  /** A cases row gives at least one row of the outer join. */
  lemma LeftSideKeepsRows(ls: seq<LongRecord>, rs: seq<LongRecord>)
    ensures |OuterJoin(ls, rs)| >= |ls|
  {
    FlatMapLength(ls, JoinWith(rs));
  }
}
