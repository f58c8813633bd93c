/**
 * `normalize_date` (frontend/etl/transform_utils.py): a raw date string is
 * tried against five fixed `strptime` formats in priority order and the first
 * one that parses decides the calendar date.
 */
module DateNormalizer {
  import opened Wrappers
  import opened Calendar

  /** Which field stands first, second and third in a format. */
  datatype FieldOrder = YearMonthDay | MonthDayYear | DayMonthYear

  /**
   * A `strptime` format of three numeric fields joined by `sep`; `shortYear`
   * is `%y` (two digits) instead of `%Y` (four digits).
   */
  datatype Format = Format(sep: char, order: FieldOrder, shortYear: bool)

  /** `%Y-%m-%d`, `%m/%d/%y`, `%m/%d/%Y`, `%d/%m/%Y`, `%Y/%m/%d`, in the order they are tried. */
  const Formats: seq<Format> := [
    Format('-', YearMonthDay, false),
    Format('/', MonthDayYear, true),
    Format('/', MonthDayYear, false),
    Format('/', DayMonthYear, false),
    Format('/', YearMonthDay, false)
  ]

  predicate IsDigit(c: char) {
    '0' <= c <= '9'
  }

  predicate AllDigits(s: string) {
    forall i :: 0 <= i < |s| ==> IsDigit(s[i])
  }

  function DigitValue(c: char): nat
    requires IsDigit(c)
  {
    c as int - '0' as int
  }

  function Pow10(n: nat): nat {
    if n == 0 then 1 else 10 * Pow10(n - 1)
  }

  /** The decimal value of a run of digits; `n` digits stay below `10^n`. */
  function DecimalValue(s: string): (v: nat)
    requires AllDigits(s)
    ensures v < Pow10(|s|)
  {
    if s == [] then 0 else 10 * DecimalValue(s[..|s| - 1]) + DigitValue(s[|s| - 1])
  }

  lemma DecimalValueOfTwo(a: char, b: char)
    requires IsDigit(a) && IsDigit(b)
    ensures DecimalValue([a, b]) == 10 * DigitValue(a) + DigitValue(b)
  {
    assert [a, b][..1] == [a] && [a][..0] == [];
  }

  lemma DecimalValueOfFour(a: char, b: char, c: char, d: char)
    requires IsDigit(a) && IsDigit(b) && IsDigit(c) && IsDigit(d)
    ensures DecimalValue([a, b, c, d]) == 1000 * DigitValue(a) + 100 * DigitValue(b) + 10 * DigitValue(c) + DigitValue(d)
  {
    assert [a, b, c, d][..3] == [a, b, c];
    assert [a, b, c][..2] == [a, b];
    DecimalValueOfTwo(a, b);
  }

  /** Splits `s` at every `sep`; there is always one more part than separators. */
  function Split(s: string, sep: char): (parts: seq<string>)
    ensures |parts| >= 1
    ensures forall i :: 0 <= i < |parts| ==> sep !in parts[i]
  {
    if s == [] then [""]
    else
      var rest := Split(s[1..], sep);
      if s[0] == sep then [""] + rest
      else [[s[0]] + rest[0]] + rest[1..]
  }

  /** `%Y` is exactly four digits; `%y` is two, 69-99 meaning 1969-1999 and 00-68 meaning 2000-2068. */
  function ParseYear(p: string, shortYear: bool): (r: Option<int>)
    ensures r.Some? ==> (if shortYear then 1969 <= r.value <= 2068 else 0 <= r.value <= 9999)
  {
    assert Pow10(2) == 100 && Pow10(4) == 10000;
    if !AllDigits(p) then None
    else if shortYear then
      if |p| != 2 then None
      else var yy := DecimalValue(p); Some(if yy < 69 then 2000 + yy else 1900 + yy)
    else if |p| != 4 then None
    else Some(DecimalValue(p))
  }

  /** `%m` matches `1[0-2]|0[1-9]|[1-9]`: one or two digits with value 1 to 12. */
  function ParseMonth(p: string): (r: Option<int>)
    ensures r.Some? ==> 1 <= r.value <= 12
  {
    if 1 <= |p| <= 2 && AllDigits(p) && 1 <= DecimalValue(p) <= 12 then Some(DecimalValue(p)) else None
  }

  /** `%d` matches `3[01]|[12]\d|0[1-9]|[1-9]`: one or two digits with value 1 to 31. */
  function ParseDay(p: string): (r: Option<int>)
    ensures r.Some? ==> 1 <= r.value <= 31
  {
    if 1 <= |p| <= 2 && AllDigits(p) && 1 <= DecimalValue(p) <= 31 then Some(DecimalValue(p)) else None
  }

  /**
   * The date three field texts denote under format `f`: each field must match
   * its directive, the fields must form a real date, and the date must fit a
   * `Timestamp`.
   */
  function FromFields(f: Format, a: string, b: string, c: string): (r: Option<CalendarDate>)
    ensures r.Some? ==> IsValid(r.value) && InTimestampRange(r.value)
  {
    var yearPart := if f.order == YearMonthDay then a else c;
    var monthPart := if f.order == MonthDayYear then a else b;
    var dayPart := match f.order
      case YearMonthDay => c
      case MonthDayYear => b
      case DayMonthYear => a;
    var y := ParseYear(yearPart, f.shortYear);
    var m := ParseMonth(monthPart);
    var d := ParseDay(dayPart);
    if y.None? || m.None? || d.None? then None
    else
      var date := CalendarDate(y.value, m.value, d.value);
      if IsValid(date) && InTimestampRange(date) then Some(date) else None
  }

  /**
   * `pd.to_datetime(s, format=f)`: the whole string must be three fields
   * joined by the format's separator (`strptime` leaves no unconverted text).
   */
  function ParseWith(s: string, f: Format): (r: Option<CalendarDate>)
    ensures r.Some? ==> IsValid(r.value) && InTimestampRange(r.value)
  {
    var parts := Split(s, f.sep);
    if |parts| != 3 then None else FromFields(f, parts[0], parts[1], parts[2])
  }

  /** The position of the first format that parses `s`, or `|fmts|` when none does. */
  function FirstParsing(s: string, fmts: seq<Format>): (k: nat)
    ensures k <= |fmts|
    ensures forall j :: 0 <= j < k ==> ParseWith(s, fmts[j]).None?
    ensures k < |fmts| ==> ParseWith(s, fmts[k]).Some?
  {
    if fmts == [] then 0
    else if ParseWith(s, fmts[0]).Some? then 0
    else 1 + FirstParsing(s, fmts[1..])
  }

  /**
   * What `normalize_date` returns: `None` (nothing parsed), `NaT` (pandas'
   * missing timestamp) or a day.
   */
  datatype Normalized = Unparsed | NaT | Day(day: CalendarDate) {
    /** The result's `.date()`: a day keeps its date and `NaT` stays missing (`None`). */
    function AsDate(): Option<CalendarDate> {
      if Day? then Some(day) else None
    }
  }

  /**
   * The strings pandas reads as a missing timestamp before trying any
   * format; `"nan"` among them is what `str()` gives for a blank cell.
   */
  function NatStrings(): set<string> {
    {"NaT", "nat", "NAT", "nan", "NaN", "NAN"}
  }

  /**
   * `normalize_date`: NaN (`None`) and `""` give `None`; a missing-timestamp
   * string gives `NaT` under the first format; otherwise the first format
   * that parses wins. The permissive `pd.to_datetime(s)` fallback is
   * modelled as failure.
   */
  function NormalizeDate(raw: Option<string>): (r: Normalized)
    ensures raw.None? || raw == Some("") ==> r.Unparsed?
    ensures r.Day? ==> IsValid(r.day) && InTimestampRange(r.day)
  {
    if raw.None? || raw.value == "" then Unparsed
    else if raw.value in NatStrings() then NaT
    else
      var k := FirstParsing(raw.value, Formats);
      if k < |Formats| then Day(ParseWith(raw.value, Formats[k]).value) else Unparsed
  }

  /** No format reads a missing-timestamp string: none has a `-` or a `/`. */
  lemma NatStringsParseNowhere(s: string, k: nat)
    requires s in NatStrings() && k < |Formats|
    ensures ParseWith(s, Formats[k]).None?
  {
    assert s == "NaT" || s == "nat" || s == "NAT" || s == "nan" || s == "NaN" || s == "NAN";
    assert '-' !in s && '/' !in s;
    if k == 0 {
      NoDashNoIso(s);
    } else {
      NoSlashNoSlashFormat(s, k);
    }
  }

  /** A missing-timestamp string, a blank cell's `"nan"` among them, gives `NaT`. */
  lemma NatStringsGiveNaT(s: string)
    ensures NormalizeDate(Some(s)).NaT? <==> s in NatStrings()
  {
  }

  /** The first format in priority order that parses the string decides the date. */
  lemma FirstFormatWins(s: string, k: nat)
    requires s != "" && k < |Formats|
    requires ParseWith(s, Formats[k]).Some?
    requires forall j :: 0 <= j < k ==> ParseWith(s, Formats[j]).None?
    ensures NormalizeDate(Some(s)) == Day(ParseWith(s, Formats[k]).value)
  {
    if s in NatStrings() {
      NatStringsParseNowhere(s, k);
    }
  }

  /**
   * A non-empty string gives `None` exactly when it is not a
   * missing-timestamp string and every one of the five formats fails.
   */
  lemma NotResolvedIff(s: string)
    requires s != ""
    ensures NormalizeDate(Some(s)).Unparsed? <==>
      s !in NatStrings() && forall k :: 0 <= k < |Formats| ==> ParseWith(s, Formats[k]).None?
  {
  }

  /** Text without a separator is a single part. */
  lemma {:induction false} SplitNoSeparator(a: string, sep: char)
    requires sep !in a
    ensures Split(a, sep) == [a]
  {
    if a != [] {
      SplitNoSeparator(a[1..], sep);
      assert [a[0]] + a[1..] == a;
    }
  }

  /** A separator after separator-free text ends the first part there. */
  lemma {:induction false} SplitAtSeparator(a: string, sep: char, b: string)
    requires sep !in a
    ensures Split(a + [sep] + b, sep) == [a] + Split(b, sep)
  {
    if a == [] {
      assert a + [sep] + b == [sep] + b;
      assert ([sep] + b)[1..] == b;
    } else {
      SplitAtSeparator(a[1..], sep, b);
      assert (a + [sep] + b)[1..] == a[1..] + [sep] + b;
      assert [a[0]] + a[1..] == a;
    }
  }

  /** Three separator-free fields joined by `sep` split back into those fields. */
  lemma SplitThree(a: string, b: string, c: string, sep: char)
    requires sep !in a && sep !in b && sep !in c
    ensures Split(a + [sep] + b + [sep] + c, sep) == [a, b, c]
  {
    SplitAtSeparator(a, sep, b + [sep] + c);
    SplitAtSeparator(b, sep, c);
    SplitNoSeparator(c, sep);
    assert a + [sep] + b + [sep] + c == a + [sep] + (b + [sep] + c);
  }

  /** Three separator-free fields joined by the format's separator parse field by field. */
  lemma ParseWithFields(f: Format, a: string, b: string, c: string)
    requires f.sep !in a && f.sep !in b && f.sep !in c
    ensures ParseWith(a + [f.sep] + b + [f.sep] + c, f) == FromFields(f, a, b, c)
  {
    SplitThree(a, b, c, f.sep);
  }

  /** `n` written with exactly `width` decimal digits, zero-padded (`%0*d`). */
  function Digits(n: nat, width: nat): (s: string)
    ensures |s| == width && AllDigits(s)
  {
    if width == 0 then [] else Digits(n / 10, width - 1) + [('0' as int + n % 10) as char]
  }

  /** Reading back a zero-padded number gives the number, when it fits the width. */
  lemma {:induction false} DigitsRoundTrip(n: nat, width: nat)
    requires n < Pow10(width)
    ensures DecimalValue(Digits(n, width)) == n
  {
    if width > 0 {
      DigitsRoundTrip(n / 10, width - 1);
      var s := Digits(n, width);
      assert s[..|s| - 1] == Digits(n / 10, width - 1);
    }
  }

  /** Python's `str(date)`: `YYYY-MM-DD`, the text the query layer returns for a date. */
  function IsoFormat(d: CalendarDate): string
    requires 0 <= d.year && 0 <= d.month && 0 <= d.day
  {
    Digits(d.year, 4) + "-" + Digits(d.month, 2) + "-" + Digits(d.day, 2)
  }

  lemma IsoFields(d: CalendarDate)
    requires IsValid(d) && InTimestampRange(d)
    ensures FromFields(Formats[0], Digits(d.year, 4), Digits(d.month, 2), Digits(d.day, 2)) == Some(d)
  {
    assert Pow10(2) == 100 && Pow10(4) == 10000;
    DigitsRoundTrip(d.year, 4);
    DigitsRoundTrip(d.month, 2);
    DigitsRoundTrip(d.day, 2);
  }

  lemma DigitsHaveNoSeparator(n: nat, width: nat, sep: char)
    requires !IsDigit(sep)
    ensures sep !in Digits(n, width)
  {
    var s := Digits(n, width);
    assert forall i :: 0 <= i < |s| ==> s[i] != sep;
  }

  /** Every date `normalize_date` can produce is read back unchanged from its ISO text. */
  lemma IsoRoundTrip(d: CalendarDate)
    requires IsValid(d) && InTimestampRange(d)
    ensures NormalizeDate(Some(IsoFormat(d))) == Day(d)
  {
    var y, m, dd := Digits(d.year, 4), Digits(d.month, 2), Digits(d.day, 2);
    IsoFields(d);
    DigitsHaveNoSeparator(d.year, 4, '-');
    DigitsHaveNoSeparator(d.month, 2, '-');
    DigitsHaveNoSeparator(d.day, 2, '-');
    ParseWithFields(Formats[0], y, m, dd);
    assert IsoFormat(d) == y + "-" + m + "-" + dd;
    FirstFormatWins(IsoFormat(d), 0);
  }

  // Worked examples: the fields of each example are evaluated in a lemma of
  // their own, which keeps every proof small.

  /** `FirstFormatWins` with the earlier failures listed one by one. */
  lemma DecidedByFormat(s: string, k: nat)
    requires s != "" && k < |Formats| && ParseWith(s, Formats[k]).Some?
    requires k > 0 ==> ParseWith(s, Formats[0]).None?
    requires k > 1 ==> ParseWith(s, Formats[1]).None?
    requires k > 2 ==> ParseWith(s, Formats[2]).None?
    requires k > 3 ==> ParseWith(s, Formats[3]).None?
    ensures NormalizeDate(Some(s)) == Day(ParseWith(s, Formats[k]).value)
  {
    FirstFormatWins(s, k);
  }

  /** Text without a `-` is a single part, so `%Y-%m-%d` cannot read it. */
  lemma NoDashNoIso(s: string)
    requires '-' !in s
    ensures ParseWith(s, Formats[0]).None?
  {
    SplitNoSeparator(s, '-');
  }

  /** Text without a `/` is a single part, so no slash format can read it. */
  lemma NoSlashNoSlashFormat(s: string, k: nat)
    requires '/' !in s && 1 <= k < |Formats|
    ensures ParseWith(s, Formats[k]).None?
  {
    SplitNoSeparator(s, '/');
  }

  lemma IsoExampleFields()
    ensures FromFields(Formats[0], "2020", "01", "23") == Some(CalendarDate(2020, 1, 23))
  {
    DecimalValueOfFour('2', '0', '2', '0');
    DecimalValueOfTwo('0', '1');
    DecimalValueOfTwo('2', '3');
  }

  /** `"2020-01-23"` is read by the first format, `%Y-%m-%d`. */
  lemma IsoExample()
    ensures NormalizeDate(Some("2020-01-23")) == Day(CalendarDate(2020, 1, 23))
  {
    IsoExampleFields();
    ParseWithFields(Formats[0], "2020", "01", "23");
    assert "2020" + "-" + "01" + "-" + "23" == "2020-01-23";
    FirstFormatWins("2020-01-23", 0);
  }

  lemma ShortYearExampleFields()
    ensures FromFields(Formats[1], "1", "23", "20") == Some(CalendarDate(2020, 1, 23))
  {
    assert DecimalValue("1") == 1 by { assert "1"[..0] == []; }
    DecimalValueOfTwo('2', '3');
    DecimalValueOfTwo('2', '0');
  }

  /** `"1/23/20"` fails `%Y-%m-%d` and is read by `%m/%d/%y` as 2020-01-23. */
  lemma ShortYearExample()
    ensures NormalizeDate(Some("1/23/20")) == Day(CalendarDate(2020, 1, 23))
  {
    ShortYearExampleParses("1/23/20", "1", "23", "20");
    DecidedByFormat("1/23/20", 1);
  }

  lemma ShortYearExampleParses(s: string, a: string, b: string, c: string)
    requires a == "1" && b == "23" && c == "20" && s == a + "/" + b + "/" + c
    ensures ParseWith(s, Formats[0]).None?
    ensures ParseWith(s, Formats[1]) == Some(CalendarDate(2020, 1, 23))
  {
    NoDashNoIso(s);
    ShortYearExampleFields();
    ParseWithFields(Formats[1], a, b, c);
  }

  lemma MonthFirstExampleFields()
    ensures FromFields(Formats[1], "03", "04", "2020").None?
    ensures FromFields(Formats[2], "03", "04", "2020") == Some(CalendarDate(2020, 3, 4))
  {
    DecimalValueOfFour('2', '0', '2', '0');
    DecimalValueOfTwo('0', '3');
    DecimalValueOfTwo('0', '4');
  }

  lemma MonthFirstExampleParses(s: string, a: string, b: string, c: string)
    requires a == "03" && b == "04" && c == "2020" && s == a + "/" + b + "/" + c
    ensures ParseWith(s, Formats[0]).None?
    ensures ParseWith(s, Formats[1]).None?
    ensures ParseWith(s, Formats[2]) == Some(CalendarDate(2020, 3, 4))
  {
    NoDashNoIso(s);
    MonthFirstExampleFields();
    ParseWithFields(Formats[1], a, b, c);
    ParseWithFields(Formats[2], a, b, c);
  }

  /** `"03/04/2020"` is March 4: `%m/%d/%Y` is tried before `%d/%m/%Y`. */
  lemma MonthFirstExample()
    ensures NormalizeDate(Some("03/04/2020")) == Day(CalendarDate(2020, 3, 4))
  {
    MonthFirstExampleParses("03/04/2020", "03", "04", "2020");
    DecidedByFormat("03/04/2020", 2);
  }

  lemma DayFirstExampleFields()
    ensures FromFields(Formats[1], "13", "04", "2020").None?
    ensures FromFields(Formats[2], "13", "04", "2020").None?
    ensures FromFields(Formats[3], "13", "04", "2020") == Some(CalendarDate(2020, 4, 13))
  {
    DecimalValueOfFour('2', '0', '2', '0');
    DecimalValueOfTwo('1', '3');
    DecimalValueOfTwo('0', '4');
  }

  lemma DayFirstExampleParses(s: string, a: string, b: string, c: string)
    requires a == "13" && b == "04" && c == "2020" && s == a + "/" + b + "/" + c
    ensures ParseWith(s, Formats[0]).None?
    ensures ParseWith(s, Formats[1]).None?
    ensures ParseWith(s, Formats[2]).None?
    ensures ParseWith(s, Formats[3]) == Some(CalendarDate(2020, 4, 13))
  {
    NoDashNoIso(s);
    DayFirstExampleFields();
    ParseWithFields(Formats[1], a, b, c);
    ParseWithFields(Formats[2], a, b, c);
    ParseWithFields(Formats[3], a, b, c);
  }

  /** `"13/04/2020"` has no month 13, so `%d/%m/%Y` reads it as April 13. */
  lemma DayFirstExample()
    ensures NormalizeDate(Some("13/04/2020")) == Day(CalendarDate(2020, 4, 13))
  {
    DayFirstExampleParses("13/04/2020", "13", "04", "2020");
    DecidedByFormat("13/04/2020", 3);
  }

  /** `"invalid"` has no separator, so no format reads it. */
  lemma InvalidExample()
    ensures NormalizeDate(Some("invalid")).Unparsed?
  {
    assert "invalid" !in NatStrings();
    NoDashNoIso("invalid");
    forall k | 1 <= k < |Formats| ensures ParseWith("invalid", Formats[k]).None? {
      NoSlashNoSlashFormat("invalid", k);
    }
  }
}
