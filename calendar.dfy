/**
 * Calendar dates as `normalize_date` produces them (`Timestamp.date()`):
 * a proleptic Gregorian (year, month, day) with no time-of-day or zone.
 */
module Calendar {
  import opened Wrappers
  import opened Text

  datatype CalendarDate = CalendarDate(year: int, month: int, day: int)

  predicate IsLeapYear(y: int) {
    y % 4 == 0 && (y % 100 != 0 || y % 400 == 0)
  }

  function DaysInMonth(y: int, m: int): int
    requires 1 <= m <= 12
  {
    if m == 2 then (if IsLeapYear(y) then 29 else 28)
    else if m == 4 || m == 6 || m == 9 || m == 11 then 30
    else 31
  }

  /** A real calendar day: `datetime` raises for anything else. */
  predicate IsValid(d: CalendarDate) {
    1 <= d.month <= 12 && 1 <= d.day <= DaysInMonth(d.year, d.month)
  }

  /** Chronological order (`date <= date` in Python). */
  predicate Le(a: CalendarDate, b: CalendarDate) {
    a.year < b.year || (a.year == b.year && (a.month < b.month || (a.month == b.month && a.day <= b.day)))
  }

  lemma LeTotal(a: CalendarDate, b: CalendarDate)
    ensures Le(a, b) || Le(b, a)
  {
  }

  lemma LeTransitive(a: CalendarDate, b: CalendarDate, c: CalendarDate)
    requires Le(a, b) && Le(b, c)
    ensures Le(a, c)
  {
  }

  lemma LeAntisymmetric(a: CalendarDate, b: CalendarDate)
    requires Le(a, b) && Le(b, a)
    ensures a == b
  {
  }

  /**
   * Dates that may be missing (`NaT`, here `None`), in the order `sort_values`
   * gives them: chronological, with `NaT` after every date (`na_position="last"`).
   */
  predicate DateLe(a: Option<CalendarDate>, b: Option<CalendarDate>) {
    b.None? || (a.Some? && Le(a.value, b.value))
  }

  lemma DateLeTotal(a: Option<CalendarDate>, b: Option<CalendarDate>)
    ensures DateLe(a, b) || DateLe(b, a)
  {
    if a.Some? && b.Some? {
      LeTotal(a.value, b.value);
    }
  }

  lemma DateLeTransitive(a: Option<CalendarDate>, b: Option<CalendarDate>, c: Option<CalendarDate>)
    requires DateLe(a, b) && DateLe(b, c)
    ensures DateLe(a, c)
  {
    if c.Some? {
      LeTransitive(a.value, b.value, c.value);
    }
  }

  /**
   * The order of `sort_values(["iso3", "date"])` on a (code, date) key: by
   * code, then by date with `NaT` last.
   */
  predicate CodeDateLe(ca: string, da: Option<CalendarDate>, cb: string, db: Option<CalendarDate>) {
    if ca == cb then DateLe(da, db) else StrLe(ca, cb)
  }

  lemma CodeDateLeTotal(ca: string, da: Option<CalendarDate>, cb: string, db: Option<CalendarDate>)
    ensures CodeDateLe(ca, da, cb, db) || CodeDateLe(cb, db, ca, da)
  {
    DateLeTotal(da, db);
    StrLeTotal(ca, cb);
  }

  lemma CodeDateLeTransitive(ca: string, da: Option<CalendarDate>, cb: string, db: Option<CalendarDate>,
                             cc: string, dc: Option<CalendarDate>)
    requires CodeDateLe(ca, da, cb, db) && CodeDateLe(cb, db, cc, dc)
    ensures CodeDateLe(ca, da, cc, dc)
  {
    if ca == cb == cc {
      DateLeTransitive(da, db, dc);
    } else if ca == cc {
      StrLeAntisymmetric(ca, cb);
    } else if ca != cb && cb != cc {
      StrLeTransitive(ca, cb, cc);
    }
  }

  /**
   * The first and last midnights a nanosecond `pandas.Timestamp` can hold
   * (its range is 1677-09-21 00:12:43.145224193 to 2262-04-11 23:47:16.854775807);
   * a parsed date outside them raises `OutOfBoundsDatetime`.
   */
  const TimestampMin := CalendarDate(1677, 9, 22)
  const TimestampMax := CalendarDate(2262, 4, 11)

  predicate InTimestampRange(d: CalendarDate) {
    Le(TimestampMin, d) && Le(d, TimestampMax)
  }
}
