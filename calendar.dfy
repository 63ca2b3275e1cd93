/** The proleptic Gregorian calendar as Python's `datetime.date` implements
    it (years 1..9999, `toordinal`/`fromordinal`, `date + timedelta`,
    `date - date`), the two date-string formats the scripts parse and print,
    and the day-index converters of scripts/riverice_util.py. */
module Calendar {
  import opened Common
  import opened Text

  datatype Date = Date(year: int, month: int, day: int)

  const MinYear: int := 1
  const MaxYear: int := 9999

  predicate IsLeap(y: int) { y % 4 == 0 && (y % 100 != 0 || y % 400 == 0) }

  function YearLength(y: int): int { if IsLeap(y) then 366 else 365 }

  function DaysInMonth(y: int, m: int): (n: int)
    requires 1 <= m <= 12
    ensures 28 <= n <= 31
  {
    if m == 2 then (if IsLeap(y) then 29 else 28)
    else if m == 4 || m == 6 || m == 9 || m == 11 then 30
    else 31
  }

  predicate Valid(d: Date)
  {
    MinYear <= d.year <= MaxYear && 1 <= d.month <= 12 && 1 <= d.day <= DaysInMonth(d.year, d.month)
  }

  /** A date `datetime` accepts. */
  type ValidDate = d: Date | Valid(d) witness Date(2000, 1, 1)

  /** Chronological order of dates. */
  predicate Before(a: Date, b: Date)
  {
    a.year < b.year || (a.year == b.year && (a.month < b.month || (a.month == b.month && a.day < b.day)))
  }

  /** Days of the year before the first of month `m` (`m == 13`: the whole
      year), as CPython's `_DAYS_BEFORE_MONTH` table plus the leap day. */
  function DaysBeforeMonth(y: int, m: int): int
    requires 1 <= m <= 13
  {
    [0, 0, 31, 59, 90, 120, 151, 181, 212, 243, 273, 304, 334, 365][m]
      + (if m > 2 && IsLeap(y) then 1 else 0)
  }

  lemma DaysBeforeMonthStep(y: int, m: int)
    requires 1 <= m <= 12
    ensures DaysBeforeMonth(y, m + 1) == DaysBeforeMonth(y, m) + DaysInMonth(y, m)
    ensures DaysBeforeMonth(y, 1) == 0 && DaysBeforeMonth(y, 13) == YearLength(y)
  {
  }

  lemma {:induction false} DaysBeforeMonthMonotone(y: int, a: int, b: int)
    requires 1 <= a <= b <= 13
    ensures DaysBeforeMonth(y, a) + 28 * (b - a) <= DaysBeforeMonth(y, b)
    decreases b - a
  {
    if a < b {
      DaysBeforeMonthMonotone(y, a, b - 1);
      DaysBeforeMonthStep(y, b - 1);
    }
  }

  /** `int(strftime('%j'))`: the day of the year, January 1 being 1. */
  function DayOfYear(d: Date): (r: int)
    requires Valid(d)
    ensures 1 <= r <= YearLength(d.year)
  {
    DaysBeforeMonthStep(d.year, d.month);
    assert DaysBeforeMonth(d.year, d.month + 1) <= DaysBeforeMonth(d.year, 13);
    DaysBeforeMonth(d.year, d.month) + d.day
  }

  /** Within a year, a later date has a larger day number. */
  lemma DayOfYearMonotone(a: Date, b: Date)
    requires Valid(a) && Valid(b) && a.year == b.year && Before(a, b)
    ensures DayOfYear(a) < DayOfYear(b)
  {
    if a.month < b.month {
      DaysBeforeMonthStep(a.year, a.month);
      DaysBeforeMonthMonotone(a.year, a.month + 1, b.month);
    }
  }

  /** CPython's `_days_before_year`: days in the years before `y`. */
  function DaysBeforeYear(y: int): int
    requires y >= 1
  {
    var y1 := y - 1;
    y1 * 365 + y1 / 4 - y1 / 100 + y1 / 400
  }

  lemma DaysBeforeYearStep(y: int)
    requires y >= 1
    ensures DaysBeforeYear(y + 1) == DaysBeforeYear(y) + YearLength(y)
  {
    var a := y - 1;
    assert DaysBeforeYear(y) == a * 365 + a / 4 - a / 100 + a / 400;
    assert DaysBeforeYear(y + 1) == y * 365 + y / 4 - y / 100 + y / 400;
    DivStep(y, 4);
    DivStep(y, 100);
    DivStep(y, 400);
    LeapDivisors(y);
    assert YearLength(y) == 365 + (if y % 4 == 0 then 1 else 0)
                                - (if y % 100 == 0 then 1 else 0) + (if y % 400 == 0 then 1 else 0);
  }

  /** Going from `y - 1` to `y` raises `y / k` exactly when `k` divides `y`. */
  lemma DivStep(y: int, k: int)
    requires y >= 1 && k in {4, 100, 400}
    ensures y / k - (y - 1) / k == if y % k == 0 then 1 else 0
  {
    if k == 4 {
      assert y / 4 - (y - 1) / 4 == if y % 4 == 0 then 1 else 0;
    } else if k == 100 {
      assert y / 100 - (y - 1) / 100 == if y % 100 == 0 then 1 else 0;
    } else {
      assert y / 400 - (y - 1) / 400 == if y % 400 == 0 then 1 else 0;
    }
  }

  /** A multiple of 400 is one of 100, and a multiple of 100 one of 4. */
  lemma LeapDivisors(y: int)
    ensures y % 400 == 0 ==> y % 100 == 0
    ensures y % 100 == 0 ==> y % 4 == 0
  {
    if y % 400 == 0 {
      var q, d, r := y / 400, y / 100, y % 100;
      assert y == 400 * q && y == 100 * d + r && 0 <= r < 100;
      assert r == 100 * (4 * q - d);
    }
    if y % 100 == 0 {
      var q, d, r := y / 100, y / 4, y % 4;
      assert y == 100 * q && y == 4 * d + r && 0 <= r < 4;
      assert r == 4 * (25 * q - d);
    }
  }

  lemma {:induction false} DaysBeforeYearMonotone(a: int, b: int)
    requires 1 <= a <= b
    ensures DaysBeforeYear(a) + 365 * (b - a) <= DaysBeforeYear(b)
    decreases b - a
  {
    if a < b {
      DaysBeforeYearMonotone(a, b - 1);
      DaysBeforeYearStep(b - 1);
    }
  }

  /** `date.toordinal()`: January 1 of year 1 is day 1. */
  function Ordinal(d: Date): int
    requires Valid(d)
  {
    DaysBeforeYear(d.year) + DayOfYear(d)
  }

  /** CPython's `_MAXORDINAL`, the ordinal of 9999-12-31. */
  const MaxOrdinal: int := 3652059

  lemma MaxOrdinalIsLastDay()
    ensures DaysBeforeYear(MaxYear + 1) == MaxOrdinal
    ensures Ordinal(Date(MaxYear, 12, 31)) == MaxOrdinal
  {
  }

  lemma OrdinalRange(d: Date)
    requires Valid(d)
    ensures DaysBeforeYear(d.year) < Ordinal(d) <= DaysBeforeYear(d.year + 1)
    ensures 1 <= Ordinal(d) <= MaxOrdinal
  {
    DaysBeforeYearStep(d.year);
    DaysBeforeYearMonotone(d.year + 1, MaxYear + 1);
  }

  /** The year whose days contain ordinal `n`, searched upwards from `y`. */
  function YearSearch(n: int, y: int): (r: int)
    requires y >= 1 && DaysBeforeYear(y) < n
    ensures r >= y && DaysBeforeYear(r) < n <= DaysBeforeYear(r + 1)
    decreases n - DaysBeforeYear(y)
  {
    DaysBeforeYearStep(y);
    if n <= DaysBeforeYear(y + 1) then y else YearSearch(n, y + 1)
  }

  /** The month containing day-of-year `doy`, searched upwards from `m`. */
  function MonthSearch(y: int, doy: int, m: int): (r: int)
    requires 1 <= m <= 12 && DaysBeforeMonth(y, m) < doy <= DaysBeforeMonth(y, 13)
    ensures m <= r <= 12 && DaysBeforeMonth(y, r) < doy <= DaysBeforeMonth(y, r + 1)
    decreases 13 - m
  {
    if doy <= DaysBeforeMonth(y, m + 1) then m else MonthSearch(y, doy, m + 1)
  }

  /** `date.fromordinal(n)`. */
  function FromOrdinal(n: int): (d: Date)
    requires 1 <= n <= MaxOrdinal
    ensures Valid(d) && Ordinal(d) == n
  {
    var y := YearSearch(n, 1);
    DaysBeforeYearStep(y);
    MaxOrdinalIsLastDay();
    assert y <= MaxYear by {
      if y > MaxYear { DaysBeforeYearMonotone(MaxYear + 1, y); }
    }
    var doy := n - DaysBeforeYear(y);
    DaysBeforeMonthStep(y, 1);
    var m := MonthSearch(y, doy, 1);
    DaysBeforeMonthStep(y, m);
    Date(y, m, doy - DaysBeforeMonth(y, m))
  }

  lemma {:induction false} YearOfOrdinalUnique(n: int, a: int, b: int)
    requires a >= 1 && b >= 1
    requires DaysBeforeYear(a) < n <= DaysBeforeYear(a + 1)
    requires DaysBeforeYear(b) < n <= DaysBeforeYear(b + 1)
    ensures a == b
  {
    if a < b { DaysBeforeYearMonotone(a + 1, b); }
    if b < a { DaysBeforeYearMonotone(b + 1, a); }
  }

  lemma MonthOfDayUnique(y: int, doy: int, a: int, b: int)
    requires 1 <= a <= 12 && 1 <= b <= 12
    requires DaysBeforeMonth(y, a) < doy <= DaysBeforeMonth(y, a + 1)
    requires DaysBeforeMonth(y, b) < doy <= DaysBeforeMonth(y, b + 1)
    ensures a == b
  {
  }

  /** `date.fromordinal(d.toordinal()) == d`. */
  lemma FromOrdinalOrdinal(d: Date)
    requires Valid(d)
    ensures FromOrdinal(Ordinal(d)) == d
  {
    var n := Ordinal(d);
    OrdinalRange(d);
    var e := FromOrdinal(n);
    OrdinalRange(e);
    YearOfOrdinalUnique(n, d.year, e.year);
    DaysBeforeMonthStep(d.year, d.month);
    DaysBeforeMonthStep(d.year, e.month);
    MonthOfDayUnique(d.year, DayOfYear(d), d.month, e.month);
  }

  /** Two valid dates with the same ordinal are the same date. */
  lemma OrdinalInjective(a: Date, b: Date)
    requires Valid(a) && Valid(b) && Ordinal(a) == Ordinal(b)
    ensures a == b
  {
    FromOrdinalOrdinal(a);
    FromOrdinalOrdinal(b);
  }

  /** `d + timedelta(days=k)`: OverflowError outside years 1..9999. */
  function AddDays(d: Date, k: int): (r: Result<Date>)
    requires Valid(d)
    ensures r.Ok? <==> 1 <= Ordinal(d) + k <= MaxOrdinal
    ensures r.Ok? ==> Valid(r.value) && Ordinal(r.value) == Ordinal(d) + k
    ensures r.Err? ==> r.error == OverflowError
  {
    var o := Ordinal(d) + k;
    if 1 <= o <= MaxOrdinal then Ok(FromOrdinal(o)) else Err(OverflowError)
  }

  /** `(a - b).days`. */
  function DaysBetween(a: Date, b: Date): int
    requires Valid(a) && Valid(b)
  {
    Ordinal(a) - Ordinal(b)
  }

  /** `b + timedelta(days=(a - b).days) == a`. */
  lemma AddDaysBetween(a: Date, b: Date)
    requires Valid(a) && Valid(b)
    ensures AddDays(b, DaysBetween(a, b)) == Ok(a)
  {
    OrdinalRange(a);
    FromOrdinalOrdinal(a);
  }

  /** The calendar day after `d`. */
  function NextDay(d: Date): Date
    requires Valid(d)
  {
    if d.day < DaysInMonth(d.year, d.month) then Date(d.year, d.month, d.day + 1)
    else if d.month < 12 then Date(d.year, d.month + 1, 1)
    else Date(d.year + 1, 1, 1)
  }

  /** The calendar day after `d` is one ordinal later. */
  lemma NextDayOrdinal(d: Date)
    requires Valid(d) && d != Date(MaxYear, 12, 31)
    ensures Valid(NextDay(d)) && Ordinal(NextDay(d)) == Ordinal(d) + 1
  {
    if d.day < DaysInMonth(d.year, d.month) {
      NextDaySameMonth(d);
    } else if d.month < 12 {
      NextDayNextMonth(d);
    } else {
      NextDayNextYear(d);
    }
  }

  lemma NextDaySameMonth(d: Date)
    requires Valid(d) && d.day < DaysInMonth(d.year, d.month)
    ensures Valid(NextDay(d)) && Ordinal(NextDay(d)) == Ordinal(d) + 1
  {
    var e := Date(d.year, d.month, d.day + 1);
    assert NextDay(d) == e;
    assert DayOfYear(e) == DayOfYear(d) + 1;
  }

  lemma NextDayNextMonth(d: Date)
    requires Valid(d) && d.day == DaysInMonth(d.year, d.month) && d.month < 12
    ensures Valid(NextDay(d)) && Ordinal(NextDay(d)) == Ordinal(d) + 1
  {
    var e := Date(d.year, d.month + 1, 1);
    assert NextDay(d) == e;
    DaysBeforeMonthStep(d.year, d.month);
    assert DayOfYear(e) == DaysBeforeMonth(d.year, d.month + 1) + 1;
  }

  lemma NextDayNextYear(d: Date)
    requires Valid(d) && d.day == DaysInMonth(d.year, d.month) && d.month == 12 && d.year < MaxYear
    ensures Valid(NextDay(d)) && Ordinal(NextDay(d)) == Ordinal(d) + 1
  {
    var e := Date(d.year + 1, 1, 1);
    assert NextDay(d) == e;
    DaysBeforeMonthStep(d.year, 12);
    assert DayOfYear(d) == YearLength(d.year);
    DaysBeforeYearStep(d.year);
    assert DayOfYear(e) == 1;
  }

  /** Adding one day moves to the next calendar day. */
  lemma AddOneDay(d: Date)
    requires Valid(d) && d != Date(MaxYear, 12, 31)
    ensures AddDays(d, 1) == Ok(NextDay(d))
  {
    NextDayOrdinal(d);
    var e := NextDay(d);
    OrdinalRange(e);
    var r := AddDays(d, 1);
    OrdinalInjective(r.value, e);
  }

  /** Adding days to a date without leaving its year lands on the date of
      that year whose day number is the sum. */
  lemma AddDaysWithinYear(d: Date, k: int)
    requires Valid(d) && 1 <= DayOfYear(d) + k <= YearLength(d.year)
    ensures AddDays(d, k).Ok?
    ensures AddDays(d, k).value.year == d.year
    ensures DayOfYear(AddDays(d, k).value) == DayOfYear(d) + k
  {
    var o := Ordinal(d) + k;
    DaysBeforeYearStep(d.year);
    DaysBeforeYearMonotone(d.year + 1, MaxYear + 1);
    MaxOrdinalIsLastDay();
    assert 1 <= o <= MaxOrdinal;
    var e := AddDays(d, k).value;
    OrdinalRange(e);
    YearOfOrdinalUnique(o, e.year, d.year);
  }

  // ---------------------------------------------------------------------
  // Date strings

  /** `strftime('%Y-%m-%d')` and `str(date)`. */
  function FormatIso(d: Date): (s: string)
    requires Valid(d)
    ensures |s| == 10 && s[4] == '-' && s[7] == '-'
  {
    ZeroPad(d.year, 4) + "-" + ZeroPad(d.month, 2) + "-" + ZeroPad(d.day, 2)
  }

  /** `strftime('%m-%d')`. */
  function FormatMonthDay(d: Date): (s: string)
    requires Valid(d)
    ensures |s| == 5 && s[2] == '-'
  {
    ZeroPad(d.month, 2) + "-" + ZeroPad(d.day, 2)
  }

  function CheckedDate(y: int, m: int, dd: int): (r: Result<Date>)
    ensures r.Ok? <==> Valid(Date(y, m, dd))
    ensures r.Ok? ==> r.value == Date(y, m, dd)
  {
    if MinYear <= y <= MaxYear && 1 <= m <= 12 && 1 <= dd <= DaysInMonth(y, m)
    then Ok(Date(y, m, dd)) else Err(ValueError("day is out of range for month"))
  }

  /** `strptime(s, '%Y-%m-%d')` on a string of the canonical shape
      `YYYY-MM-DD`. Every other string is a ValueError here; Python also
      accepts some non-canonical forms (a one-digit month or day, a
      blank-padded day), which the scripts never pass. */
  function ParseIso(s: string): (r: Result<Date>)
    ensures r.Ok? ==> Valid(r.value)
  {
    if |s| == 10 && s[4] == '-' && s[7] == '-'
       && AllDigits(s[..4]) && AllDigits(s[5..7]) && AllDigits(s[8..])
    then CheckedDate(DigitsValue(s[..4]), DigitsValue(s[5..7]), DigitsValue(s[8..]))
    else Err(ValueError("time data does not match format '%Y-%m-%d'"))
  }

  /** `strptime(s, '%Y%m%d')` on a string of eight digits. Every other
      string is a ValueError here; Python also accepts some shorter digit
      strings (a one-digit month or day), which the scripts never build. */
  function ParseCompact(s: string): (r: Result<Date>)
    ensures r.Ok? ==> Valid(r.value)
  {
    if |s| == 8 && AllDigits(s)
    then CheckedDate(DigitsValue(s[..4]), DigitsValue(s[4..6]), DigitsValue(s[6..]))
    else Err(ValueError("time data does not match format '%Y%m%d'"))
  }

  /** Printing a date and parsing it back gives the date. */
  lemma ParseFormatIso(d: Date)
    requires Valid(d)
    ensures ParseIso(FormatIso(d)) == Ok(d)
  {
    var s := FormatIso(d);
    assert s[..4] == ZeroPad(d.year, 4);
    assert s[5..7] == ZeroPad(d.month, 2);
    assert s[8..] == ZeroPad(d.day, 2);
    ZeroPadValue(d.year, 4);
    ZeroPadValue(d.month, 2);
    ZeroPadValue(d.day, 2);
  }

  /** A four-digit number prints as its zero-padded form. */
  lemma {:induction false} NatToStringPadded(n: nat, w: nat)
    requires w >= 1 && Pow10(w - 1) <= n < Pow10(w)
    ensures NatToString(n) == ZeroPad(n, w)
    decreases w
  {
    if w > 1 {
      NatToStringPadded(n / 10, w - 1);
    }
  }

  /** `strptime(f"{y}{mmdd}", '%Y%m%d')` for a four-digit year. */
  lemma ParseCompactYear(y: int, m: int, dd: int)
    requires 1000 <= y <= MaxYear && Valid(Date(y, m, dd))
    ensures ParseCompact(IntToString(y) + ZeroPad(m, 2) + ZeroPad(dd, 2)) == Ok(Date(y, m, dd))
  {
    assert Pow10(3) == 1000 && Pow10(4) == 10000;
    NatToStringPadded(y, 4);
    var s := IntToString(y) + ZeroPad(m, 2) + ZeroPad(dd, 2);
    assert s[..4] == ZeroPad(y, 4);
    assert s[4..6] == ZeroPad(m, 2);
    assert s[6..] == ZeroPad(dd, 2);
    ZeroPadValue(y, 4);
    ZeroPadValue(m, 2);
    ZeroPadValue(dd, 2);
  }

  // ---------------------------------------------------------------------
  // The converters of riverice_util.py

  /** How `datestr2dayssince` reads its `since` argument: `int(since[:2])`
      as the month and `int(rest)` as the day, `rest` being `since[3:]` as
      written and `since[2:]` as intended. */
  function SinceParts(since: string, dayFrom: nat): (r: Option<(nat, nat)>)
    ensures r.Some? <==> ParseNat(Slice(since, 0, 2)).Some? && ParseNat(Slice(since, dayFrom, |since|)).Some?
    ensures r.Some? ==> r.value == (ParseNat(Slice(since, 0, 2)).value, ParseNat(Slice(since, dayFrom, |since|)).value)
  {
    match (ParseNat(Slice(since, 0, 2)), ParseNat(Slice(since, dayFrom, |since|)))
    case (Some(m), Some(dd)) => Some((m, dd))
    case _ => None
  }

  /** The default reference `'0301'` reads as March 1 (when the day is read
      from `since[2:]`). */
  lemma SinceMarch1()
    ensures SinceParts("0301", 2) == Some((3, 1))
  {
    assert Slice("0301", 0, 2) == "03" == ZeroPad(3, 2);
    assert Slice("0301", 2, 4) == "01" == ZeroPad(1, 2);
    ZeroPadValue(3, 2);
    ZeroPadValue(1, 2);
  }

  /** The signed days from the reference day `m/dd` of the date's year to the
      date; a ValueError when the string or the reference does not parse. */
  function DaysSinceReference(datestr: string, parts: Option<(nat, nat)>): (r: Result<int>)
    ensures ParseIso(datestr).Err? || parts.None? ==> r.Err?
    ensures (ParseIso(datestr).Ok? && parts.Some? &&
             Valid(Date(ParseIso(datestr).value.year, parts.value.0, parts.value.1))) ==> r.Ok?
    ensures r.Err? ==> r.error.ValueError?
    ensures r.Ok? ==> ParseIso(datestr).Ok? && parts.Some? &&
                      Valid(Date(ParseIso(datestr).value.year, parts.value.0, parts.value.1)) &&
                      r.value == DaysBetween(ParseIso(datestr).value,
                                             Date(ParseIso(datestr).value.year, parts.value.0, parts.value.1))
  {
    var thedate :- ParseIso(datestr);
    match parts
    case Some((m, dd)) =>
      var ref :- CheckedDate(thedate.year, m, dd);
      Ok(DaysBetween(thedate, ref))
    case None => Err(ValueError("invalid literal for int()"))
  }

  /** `datestr2dayssince(datestr, since)` AS WRITTEN: the reference day of
      the month is read from `since[3:]`, one character too far. */
  function DatestrToDaysSinceAsWritten(datestr: string, since: string): (r: Result<int>)
  {
    DaysSinceReference(datestr, SinceParts(since, 3))
  }

  /** `datestr2dayssince(datestr, since)` with the reference date read as
      `MMDD`: the signed number of days from the reference day of the
      date's own year to the date. */
  function DatestrToDaysSince(datestr: string, since: string): (r: Result<int>)
  {
    DaysSinceReference(datestr, SinceParts(since, 2))
  }

  /** With the default reference `'0301'` the slip is invisible: `since[3:]`
      is "1", which reads as the same day as "01". */
  lemma AsWrittenAgreesOnMarch1(datestr: string)
    ensures DatestrToDaysSinceAsWritten(datestr, "0301") == DatestrToDaysSince(datestr, "0301")
  {
    SinceMarch1();
    assert Slice("0301", 3, 4) == "1" == ZeroPad(1, 1);
    ZeroPadValue(1, 1);
  }

  /** With the reference `'0315'`, the code as written reads the day from
      `since[3:]` = "5", so for 2000-03-20 it counts from March 5 (15 days)
      instead of March 15 (5 days). */
  lemma AsWrittenMisreadsMarch15()
    ensures DatestrToDaysSinceAsWritten(FormatIso(Date(2000, 3, 20)), "0315") == Ok(15)
    ensures DatestrToDaysSince(FormatIso(Date(2000, 3, 20)), "0315") == Ok(5)
  {
    ParseFormatIso(Date(2000, 3, 20));
    SincePartsMarch15();
  }

  lemma SincePartsMarch15()
    ensures SinceParts("0315", 3) == Some((3, 5))
    ensures SinceParts("0315", 2) == Some((3, 15))
  {
    SinceMonthMarch();
    SinceDayFifteen();
    SinceDayFive();
  }

  lemma SinceMonthMarch()
    ensures ParseNat(Slice("0315", 0, 2)) == Some(3)
  {
    assert Slice("0315", 0, 2) == "03" == ZeroPad(3, 2);
    ZeroPadValue(3, 2);
  }

  lemma SinceDayFifteen()
    ensures ParseNat(Slice("0315", 2, 4)) == Some(15)
  {
    assert Slice("0315", 2, 4) == "15" == ZeroPad(15, 2);
    ZeroPadValue(15, 2);
  }

  lemma SinceDayFive()
    ensures ParseNat(Slice("0315", 3, 4)) == Some(5)
  {
    assert Slice("0315", 3, 4) == "5" == ZeroPad(5, 1);
    ZeroPadValue(5, 1);
  }

  /** `dayssince2date(days, year, since)`: the reference date of `year`
      (read with '%Y%m%d') plus `days`. */
  function DaysSinceToDate(days: int, year: int, since: string): (r: Result<Date>)
    ensures r.Ok? ==> Valid(r.value)
  {
    var ref :- ParseCompact(IntToString(year) + since);
    AddDays(ref, days)
  }

  /** `julianday2date(jd, year)`: January 1 of `year` plus `jd - 1` days. */
  function JulianDayToDate(jd: int, year: int): (r: Result<Date>)
    ensures r.Ok? ==> Valid(r.value)
  {
    var ref :- ParseCompact(IntToString(year) + "0101");
    AddDays(ref, jd - 1)
  }

  /** `datestr2julianday(datestr)`: the day of the year of a date string. */
  function DatestrToJulianDay(datestr: string): (r: Result<int>)
    ensures r.Ok? <==> ParseIso(datestr).Ok?
    ensures r.Ok? ==> 1 <= r.value <= 366
  {
    var d :- ParseIso(datestr);
    Ok(DayOfYear(d))
  }

  /** `days_past_march1(rowind)`: days from March 1 of the row's own year;
      negative exactly for January and February, and equal to the day of the
      year less that of March 1. */
  function DaysPastMarch1(d: Date): (r: int)
    requires Valid(d)
    ensures r < 0 <==> d.month < 3
    ensures r == DayOfYear(d) - (if IsLeap(d.year) then 61 else 60)
    ensures 3 <= d.month <= 6 ==> 0 <= r <= 121
  {
    DaysBetween(d, Date(d.year, 3, 1))
  }

  /** `julian_day(rowind)`. */
  function JulianDay(d: Date): (r: int)
    requires Valid(d)
    ensures 1 <= r <= YearLength(d.year)
  {
    DayOfYear(d)
  }

  // ---------------------------------------------------------------------
  // Laws of the converters

  /** With the default `'0301'`, the string form is `days_past_march1`. */
  lemma DaysSinceMarch1OfString(d: Date)
    requires Valid(d)
    ensures DatestrToDaysSince(FormatIso(d), "0301") == Ok(DaysPastMarch1(d))
  {
    ParseFormatIso(d);
    SinceMarch1();
  }

  /** `dayssince2date(k, y)` with the default reference is March 1 of `y`
      plus `k` days. */
  lemma DaysSinceToDateMarch1(k: int, y: int)
    requires 1000 <= y <= MaxYear
    ensures DaysSinceToDate(k, y, "0301") == AddDays(Date(y, 3, 1), k)
  {
    assert "0301" == ZeroPad(3, 2) + ZeroPad(1, 2);
    ParseCompactYear(y, 3, 1);
    assert IntToString(y) + "0301" == IntToString(y) + ZeroPad(3, 2) + ZeroPad(1, 2);
    var ref := ParseCompact(IntToString(y) + "0301");
    assert ref == Ok(Date(y, 3, 1));
  }

  /** `julianday2date(jd, y)` is January 1 of `y` plus `jd - 1` days. */
  lemma JulianDayToDateJan1(jd: int, y: int)
    requires 1000 <= y <= MaxYear
    ensures JulianDayToDate(jd, y) == AddDays(Date(y, 1, 1), jd - 1)
  {
    assert "0101" == ZeroPad(1, 2) + ZeroPad(1, 2);
    ParseCompactYear(y, 1, 1);
    assert IntToString(y) + "0101" == IntToString(y) + ZeroPad(1, 2) + ZeroPad(1, 2);
    var ref := ParseCompact(IntToString(y) + "0101");
    assert ref == Ok(Date(y, 1, 1));
  }

  /** Round trip for the default reference: the days-since-March-1 of a date,
      added back to March 1 of its year, gives the date (leap years or not). */
  lemma DaysSinceRoundTrip(d: Date)
    requires Valid(d) && 1000 <= d.year
    ensures DatestrToDaysSince(FormatIso(d), "0301") == Ok(DaysPastMarch1(d))
    ensures DaysSinceToDate(DaysPastMarch1(d), d.year, "0301") == Ok(d)
  {
    DaysSinceMarch1OfString(d);
    DaysSinceToDateBack(d);
  }

  lemma DaysSinceToDateBack(d: Date)
    requires Valid(d) && 1000 <= d.year
    ensures DaysSinceToDate(DaysPastMarch1(d), d.year, "0301") == Ok(d)
  {
    var k := DaysPastMarch1(d);
    DaysSinceToDateMarch1(k, d.year);
    AddDaysBetween(d, Date(d.year, 3, 1));
    assert AddDays(Date(d.year, 3, 1), k) == Ok(d);
  }

  /** The converse round trip: a day offset that stays inside the year
      comes back unchanged. */
  lemma DaysSinceInverse(k: int, y: int)
    requires 1000 <= y <= MaxYear
    requires -(if IsLeap(y) then 60 else 59) <= k <= 305
    ensures DaysSinceToDate(k, y, "0301").Ok?
    ensures var d := DaysSinceToDate(k, y, "0301").value;
      d.year == y && DatestrToDaysSince(FormatIso(d), "0301") == Ok(k)
  {
    DaysSinceToDateMarch1(k, y);
    AddedDaysSinceMarch1(k, y);
  }

  /** The date `k` days past March 1 reads back as `k`. */
  lemma AddedDaysSinceMarch1(k: int, y: int)
    requires 1000 <= y <= MaxYear
    requires -(if IsLeap(y) then 60 else 59) <= k <= 305
    ensures AddDays(Date(y, 3, 1), k).Ok?
    ensures var d := AddDays(Date(y, 3, 1), k).value;
      d.year == y && DatestrToDaysSince(FormatIso(d), "0301") == Ok(k)
  {
    AddDaysFromMarch1(k, y);
    var d := AddDays(Date(y, 3, 1), k).value;
    DaysSinceMarch1OfString(d);
  }

  /** Within the year, `k` days past March 1 is a date of the year whose
      days past March 1 are `k`. */
  lemma AddDaysFromMarch1(k: int, y: int)
    requires 1 <= y <= MaxYear
    requires -(if IsLeap(y) then 60 else 59) <= k <= 305
    ensures AddDays(Date(y, 3, 1), k).Ok?
    ensures var d := AddDays(Date(y, 3, 1), k).value; d.year == y && DaysPastMarch1(d) == k
  {
    var m1 := Date(y, 3, 1);
    assert DayOfYear(m1) == if IsLeap(y) then 61 else 60;
    AddDaysWithinYear(m1, k);
  }

  /** The day of the year of a date string lies in 1..366, and turning it
      back into a date of the same year gives the date. */
  lemma JulianDayRoundTrip(d: Date)
    requires Valid(d) && 1000 <= d.year
    ensures DatestrToJulianDay(FormatIso(d)) == Ok(DayOfYear(d))
    ensures JulianDayToDate(DayOfYear(d), d.year) == Ok(d)
  {
    ParseFormatIso(d);
    JulianDayToDateBack(d);
  }

  lemma JulianDayToDateBack(d: Date)
    requires Valid(d) && 1000 <= d.year
    ensures JulianDayToDate(DayOfYear(d), d.year) == Ok(d)
  {
    AddDaysFromJan1(d);
    JulianDayToDateJan1(DayOfYear(d), d.year);
  }

  /** January 1 plus the day of the year less one is the date. */
  lemma AddDaysFromJan1(d: Date)
    requires Valid(d)
    ensures AddDays(Date(d.year, 1, 1), DayOfYear(d) - 1) == Ok(d)
  {
    var j1 := Date(d.year, 1, 1);
    assert Valid(j1) && DayOfYear(j1) == 1;
    assert Ordinal(j1) == DaysBeforeYear(d.year) + 1;
    assert Ordinal(d) == DaysBeforeYear(d.year) + DayOfYear(d);
    assert DaysBetween(d, j1) == DayOfYear(d) - 1;
    AddDaysBetween(d, j1);
  }

  /** Every day number of a year names a date of that year with that number. */
  lemma JulianDayInverse(jd: int, y: int)
    requires 1000 <= y <= MaxYear && 1 <= jd <= YearLength(y)
    ensures JulianDayToDate(jd, y).Ok?
    ensures var d := JulianDayToDate(jd, y).value; d.year == y && DayOfYear(d) == jd
  {
    JulianDayToDateJan1(jd, y);
    AddDaysFromJan1Within(jd, y);
  }

  lemma AddDaysFromJan1Within(jd: int, y: int)
    requires 1 <= y <= MaxYear && 1 <= jd <= YearLength(y)
    ensures AddDays(Date(y, 1, 1), jd - 1).Ok?
    ensures var d := AddDays(Date(y, 1, 1), jd - 1).value; d.year == y && DayOfYear(d) == jd
  {
    var j1 := Date(y, 1, 1);
    assert DayOfYear(j1) == 1;
    AddDaysWithinYear(j1, jd - 1);
  }

  /** The same, for a date already known to be `julianday2date(jd, y)`. */
  lemma JulianDayOf(jd: int, y: int, d: Date)
    requires 1000 <= y <= MaxYear && 1 <= jd <= YearLength(y)
    requires JulianDayToDate(jd, y) == Ok(d)
    ensures d.year == y && DayOfYear(d) == jd
  {
    JulianDayInverse(jd, y);
  }

  /** The same for `dayssince2date(k, y)`: the date is `k` days past March 1
      of `y`, and its string reads back as `k`. */
  lemma DaysSinceOf(k: int, y: int, d: Date)
    requires 1000 <= y <= MaxYear
    requires -(if IsLeap(y) then 60 else 59) <= k <= 305
    requires DaysSinceToDate(k, y, "0301") == Ok(d)
    ensures Valid(d) && d.year == y && DaysPastMarch1(d) == k
    ensures DatestrToDaysSince(FormatIso(d), "0301") == Ok(k)
  {
    DaysSinceInverse(k, y);
    DaysSinceMarch1OfString(d);
  }
}
