/** Calendar dates to day numbers and back (SetDate and GregorianDate in julian-date.cc). */
module Gregorian {
  import opened Integers
  import opened JulianDates
  import opened Options

  const MIN_YEAR := 1992
  const MAX_YEAR := 2099
  const POSIX_1992 := 8035

  // ---------- the reference: calendars counted from 1 January 1970 ----------

  // The code makes every fourth year a leap year; the Gregorian rule has exceptions.
  datatype Calendar = FourYear | Civil

  predicate IsLeap(c: Calendar, y: int) {
    match c
    case FourYear => y % 4 == 0
    case Civil => (y % 4 == 0 && y % 100 != 0) || y % 400 == 0
  }

  function MonthLength(c: Calendar, y: int, m: int): nat {
    if m == 2 then (if IsLeap(c, y) then 29 else 28) else if m in {4, 6, 9, 11} then 30 else 31
  }

  function YearStart(c: Calendar, y: nat): nat
    requires y >= 1970
  {
    if y == 1970 then 0 else YearStart(c, y - 1) + if IsLeap(c, y - 1) then 366 else 365
  }

  // Days of the year before the first of month m.
  function MonthStart(c: Calendar, y: int, m: int): nat
    requires 1 <= m <= 13
  {
    if m == 1 then 0 else MonthStart(c, y, m - 1) + MonthLength(c, y, m - 1)
  }

  predicate ValidDay(c: Calendar, y: int, m: int, d: int) {
    1 <= m <= 12 && 1 <= d <= MonthLength(c, y, m)
  }

  function DayIn(c: Calendar, y: nat, m: nat, d: nat): nat
    requires y >= 1970 && ValidDay(c, y, m, d)
  {
    YearStart(c, y) + MonthStart(c, y, m) + d - 1
  }

  lemma LeapRulesAgree(y: int)
    requires 1970 <= y <= MAX_YEAR
    ensures IsLeap(Civil, y) <==> IsLeap(FourYear, y)
  {
    assert y / 100 == 19 || y / 100 == 20;
  }

  lemma {:induction false} YearStartsAgree(y: nat)
    requires 1970 <= y <= MAX_YEAR + 1
    ensures YearStart(Civil, y) == YearStart(FourYear, y)
  {
    if y > 1970 {
      YearStartsAgree(y - 1);
      LeapRulesAgree(y - 1);
    }
  }

  lemma {:induction false} MonthStartsAgree(y: nat, m: nat)
    requires 1970 <= y <= MAX_YEAR && 1 <= m <= 13
    ensures MonthStart(Civil, y, m) == MonthStart(FourYear, y, m)
  {
    LeapRulesAgree(y);
    if m > 1 {
      MonthStartsAgree(y, m - 1);
    }
  }

  // The two calendars are the same in the years the class admits.
  lemma CalendarsAgree(y: nat, m: nat, d: nat)
    requires MIN_YEAR <= y <= MAX_YEAR
    ensures ValidDay(Civil, y, m, d) <==> ValidDay(FourYear, y, m, d)
    ensures ValidDay(Civil, y, m, d) ==> DayIn(Civil, y, m, d) == DayIn(FourYear, y, m, d)
  {
    LeapRulesAgree(y);
    if ValidDay(Civil, y, m, d) {
      YearStartsAgree(y);
      MonthStartsAgree(y, m);
    }
  }

  // ---------- SetDate ----------

  // The one-line formula, on uint32_t.
  function DayNumber(y: nat, m: nat, d: nat): nat {
    U32(367 * y - U32(7 * U32(y + U32(m + 9) / 12)) / 4 + U32(275 * m) / 9 + d - 719574)
  }

  function MsOfDay(hours: nat, minutes: nat, seconds: nat, millisecs: nat): nat {
    U32((hours * 3600 + minutes * 60 + seconds) * 1000 + millisecs)
  }

  lemma {:induction false} YearStartClosed(y: nat)
    requires y >= 1970
    ensures YearStart(FourYear, y) == 365 * (y - 1970) + (y - 1969) / 4
  {
    if y > 1970 {
      YearStartClosed(y - 1);
    }
  }

  lemma {:induction false} MonthStartClosed(y: int, m: int)
    requires 1 <= m <= 12
    ensures MonthStart(FourYear, y, m) == [0, 31, 59, 90, 120, 151, 181, 212, 243, 273, 304, 334][m - 1] + if m > 2 && y % 4 == 0 then 1 else 0
  {
    if m > 1 {
      MonthStartClosed(y, m - 1);
    }
  }

  lemma SevenQuarters(x: nat)
    ensures 7 * x / 4 == 2 * x - (x + 3) / 4
  {
  }

  lemma MonthTerm(y: int, m: int)
    requires 1 <= m <= 12
    ensures 275 * m / 9 == MonthStart(FourYear, y, m) + 30 + if m <= 2 then 0 else if y % 4 == 0 then 1 else 2
    ensures (m + 9) / 12 == if m <= 2 then 0 else 1
  {
    MonthStartClosed(y, m);
  }

  // Years for which no product in the formula wraps around.
  const SMALL_YEAR := 600000000

  lemma Unwrapped(y: nat, m: nat, d: nat)
    requires y <= SMALL_YEAR && m <= 12
    ensures DayNumber(y, m, d) == U32(367 * y - 7 * (y + (m + 9) / 12) / 4 + 275 * m / 9 + d - 719574)
  {
    SmallU32(m + 9);
    SmallU32(y + (m + 9) / 12);
    SmallU32(7 * (y + (m + 9) / 12));
    SmallU32(275 * m);
  }

  // From 1 March of a leap year to the end of February the four-year leap count stands still.
  lemma LeapCount(y: nat, m: nat)
    requires y >= 1970
    ensures (y + (if m <= 2 then 0 else 1) + 3) / 4 ==
      (y - 1969) / 4 + 493 + if m <= 2 then 0 else if y % 4 == 0 then 1 else 0
  {
  }

  lemma DayFormula(y: nat, m: nat, d: nat)
    requires y >= 1970 && ValidDay(FourYear, y, m, d)
    ensures DayIn(FourYear, y, m, d) == 367 * y - 7 * (y + (m + 9) / 12) / 4 + 275 * m / 9 + d - 719574
  {
    YearStartClosed(y);
    MonthTerm(y, m);
    SevenQuarters(y + (m + 9) / 12);
    LeapCount(y, m);
  }

  /** In the years the class admits, the formula counts the days of the Gregorian calendar. */
  lemma DayNumberIsCivil(y: nat, m: nat, d: nat)
    requires MIN_YEAR <= y <= MAX_YEAR && ValidDay(Civil, y, m, d)
    ensures DayNumber(y, m, d) == DayIn(Civil, y, m, d)
    ensures POSIX_1992 <= DayNumber(y, m, d) < 100000
  {
    CalendarsAgree(y, m, d);
    Unwrapped(y, m, d);
    DayFormula(y, m, d);
    YearStartClosed(y);
    MonthStartClosed(y, m);
    SmallU32(DayIn(Civil, y, m, d));
  }

  // ---------- GregorianDate ----------

  // month is None when the loop ends without finding one, leaving the field as it was.
  datatype DateTime = DateTime(year: nat, month: Option<nat>, day: nat, hours: nat, minutes: nat, seconds: nat, millisecs: nat)

  function MonthDays(year: nat): (days: seq<nat>)
    ensures |days| == 12
  {
    [31, if year % 4 == 0 then 29 else 28, 31, 30, 31, 30, 31, 31, 30, 31, 30, 31]
  }

  function FindMonth(monthDays: seq<nat>, i: nat, rest: nat): (Option<nat>, nat)
    requires i <= |monthDays|
    decreases |monthDays| - i
  {
    if i == |monthDays| then (None, rest)
    else if rest <= monthDays[i] then (Some(i + 1), rest)
    else FindMonth(monthDays, i + 1, rest - monthDays[i])
  }

  function YearOf(days: nat): nat {
    (U32(days - POSIX_1992) as real / 365.25).Floor as nat + MIN_YEAR
  }

  function DayOfYear(days: nat): nat {
    var year := YearOf(days);
    U32(U32(days - POSIX_1992) - ((year - MIN_YEAR) * 365 + U32(year - (MIN_YEAR + 1)) / 4))
  }

  function GregorianDateOf(days: nat, ms: nat): DateTime {
    var (month, day) := FindMonth(MonthDays(YearOf(days)), 0, DayOfYear(days));
    var rest1 := ms % 3600000;
    var rest2 := rest1 % 60000;
    DateTime(YearOf(days), month, day, ms / 3600000, rest1 / 60000, rest2 / 1000, rest2 % 1000)
  }

  // The loop that takes off the days of one month after the other.
  method LocateMonth(monthDays: seq<nat>, dayOfYear: nat) returns (month: Option<nat>, day: nat)
    requires |monthDays| == 12
    ensures (month, day) == FindMonth(monthDays, 0, dayOfYear)
  {
    month, day := None, dayOfYear;
    var i := 0;
    while i < 12
      invariant i <= 12 && month == None
      invariant FindMonth(monthDays, i, day) == FindMonth(monthDays, 0, dayOfYear)
    {
      if day <= monthDays[i] {
        month := Some(i + 1);
        break;
      }
      day := day - monthDays[i];
      i := i + 1;
    }
  }

  method GregorianDate(days: nat, ms: nat) returns (dt: DateTime)
    requires days < WRAP && ms < WRAP
    ensures dt == GregorianDateOf(days, ms)
  {
    var monthDays := [31, 28, 31, 30, 31, 30, 31, 31, 30, 31, 30, 31];
    var d := U32(days - POSIX_1992);
    var year := (d as real / 365.25).Floor as nat + MIN_YEAR;
    var leapYears := U32(year - (MIN_YEAR + 1)) / 4;
    var daysOfYear := U32(d - ((year - MIN_YEAR) * 365 + leapYears));
    if year % 4 == 0 {
      monthDays := monthDays[1 := monthDays[1] + 1];
    }
    assert monthDays == MonthDays(year);
    var month, day := LocateMonth(monthDays, daysOfYear);
    var t := ms;
    var hours := t / 3600000;
    t := t - hours * 3600000;
    assert t == ms % 3600000;
    var minutes := t / 60000;
    t := t - minutes * 60000;
    assert t == ms % 3600000 % 60000;
    var seconds := t / 1000;
    t := t - seconds * 1000;
    assert t == ms % 3600000 % 60000 % 1000;
    dt := DateTime(year, month, day, hours, minutes, seconds, t);
  }

  // ---------- there and back ----------

  lemma QuarterDays(d: nat, q: nat)
    requires 365 * q + (q + 3) / 4 <= d < 365 * (q + 1) + (q + 4) / 4
    ensures (d as real / 365.25).Floor == q
  {
    assert 1461 * q <= 4 * d < 1461 * (q + 1);
    assert q as real <= d as real / 365.25 < (q + 1) as real;
  }

  lemma QuarterYear(d: nat) returns (q: nat)
    ensures (d as real / 365.25).Floor == q
    ensures 365 * q + (q + 3) / 4 <= d < 365 * (q + 1) + (q + 4) / 4
  {
    q := (d as real / 365.25).Floor;
    assert q as real <= d as real / 365.25 < (q + 1) as real;
    assert 1461 * q <= 4 * d < 1461 * (q + 1);
  }

  // The day of the year of a day e days after 1 January 1992.
  lemma DayOfYearIs(days: nat, e: nat, y: nat)
    requires U32(days - POSIX_1992) == e < WRAP && y >= MIN_YEAR
    requires YearStart(FourYear, y) <= POSIX_1992 + e < YearStart(FourYear, y + 1)
    ensures YearOf(days) == y
    ensures y > MIN_YEAR ==> DayOfYear(days) == POSIX_1992 + e - YearStart(FourYear, y) + 1
    ensures y == MIN_YEAR ==> DayOfYear(days) > 1000
  {
    YearStartClosed(y);
    YearStartClosed(y + 1);
    QuarterDays(e, y - MIN_YEAR);
    var q := y - MIN_YEAR;
    if q > 0 {
      SmallU32(q - 1);
      assert (q + 3) / 4 == (q - 1) / 4 + 1;
      SmallU32(e - (365 * q + (q - 1) / 4));
    }
  }

  lemma {:induction false} MonthFound(y: nat, m: nat, d: nat, i: nat)
    requires ValidDay(FourYear, y, m, d) && 1 <= i <= m
    ensures MonthStart(FourYear, y, m) >= MonthStart(FourYear, y, i)
    ensures FindMonth(MonthDays(y), i - 1, MonthStart(FourYear, y, m) - MonthStart(FourYear, y, i) + d) == (Some(m), d)
    decreases m - i
  {
    if i < m {
      MonthFound(y, m, d, i + 1);
    }
  }

  lemma {:induction false} MonthExists(y: nat, i: nat, rest: nat)
    requires 1 <= i <= 12 && 1 <= rest <= MonthStart(FourYear, y, 13) - MonthStart(FourYear, y, i)
    ensures var (month, day) := FindMonth(MonthDays(y), i - 1, rest);
      && month.Some? && ValidDay(FourYear, y, month.value, day)
      && MonthStart(FourYear, y, month.value) + day == MonthStart(FourYear, y, i) + rest
    decreases 12 - i
  {
    if rest > MonthLength(FourYear, y, i) {
      MonthExists(y, i + 1, rest - MonthLength(FourYear, y, i));
    }
  }

  lemma NoMonth(monthDays: seq<nat>, i: nat, rest: nat)
    requires i <= |monthDays| && (forall j :: 0 <= j < |monthDays| ==> monthDays[j] <= 31)
    requires rest > 31 * (|monthDays| - i + 1)
    ensures FindMonth(monthDays, i, rest).0 == None
    decreases |monthDays| - i
  {
  }

  lemma YearLength(y: nat)
    requires y >= 1970
    ensures YearStart(FourYear, y + 1) == YearStart(FourYear, y) + MonthStart(FourYear, y, 13)
  {
    MonthStartClosed(y, 12);
  }

  lemma DayWithinYear(y: nat, m: nat, d: nat)
    requires y >= 1970 && ValidDay(FourYear, y, m, d)
    ensures YearStart(FourYear, y) <= DayIn(FourYear, y, m, d) < YearStart(FourYear, y + 1)
  {
    MonthStartClosed(y, m);
  }

  predicate ValidTime(hours: nat, minutes: nat, seconds: nat, millisecs: nat) {
    hours < 24 && minutes < 60 && seconds < 60 && millisecs < 1000
  }

  lemma TimeRecovered(hours: nat, minutes: nat, seconds: nat, millisecs: nat)
    requires ValidTime(hours, minutes, seconds, millisecs)
    ensures var ms := MsOfDay(hours, minutes, seconds, millisecs);
      var rest1 := ms % 3600000;
      var rest2 := rest1 % 60000;
      ms < DAY_MS && ms / 3600000 == hours && rest1 / 60000 == minutes && rest2 / 1000 == seconds && rest2 % 1000 == millisecs
  {
    var ms := MsOfDay(hours, minutes, seconds, millisecs);
    SmallU32((hours * 3600 + minutes * 60 + seconds) * 1000 + millisecs);
    assert ms == hours * 3600000 + (minutes * 60000 + seconds * 1000 + millisecs);
  }

  // Reading back a day e days after 1 January 1992, which lies in year y.
  lemma ReadInRange(y: nat, m: nat, d: nat, days: nat, ms: nat)
    requires y >= MIN_YEAR && ValidDay(FourYear, y, m, d)
    requires U32(days - POSIX_1992) == DayIn(FourYear, y, m, d) - POSIX_1992
    ensures var dt := GregorianDateOf(days, ms);
      if y == MIN_YEAR then dt.month == None else dt.year == y && dt.month == Some(m) && dt.day == d
  {
    DayWithinYear(y, m, d);
    DayOfYearIs(days, DayIn(FourYear, y, m, d) - POSIX_1992, y);
    if y == MIN_YEAR {
      NoMonth(MonthDays(y), 0, DayOfYear(days));
    } else {
      MonthFound(y, m, d, 1);
    }
  }

  // No day number is read as a year so far ahead.
  const FAR_YEAR := 20000000

  lemma YearOfBound(days: nat)
    ensures YearOf(days) < FAR_YEAR
  {
    var q := QuarterYear(U32(days - POSIX_1992));
  }

  // A day past the range is read as a day of an earlier year.
  lemma ReadPastRange(y: nat, m: nat, d: nat)
    requires MIN_YEAR <= y < FAR_YEAR && ValidDay(FourYear, y, m, d)
    requires DayIn(FourYear, y, m, d) - POSIX_1992 >= WRAP
    ensures YearOf(U32(DayIn(FourYear, y, m, d))) != y
  {
    var e := DayIn(FourYear, y, m, d) - POSIX_1992;
    DayWithinYear(y, m, d);
    YearStartClosed(y + 1);
    SumU32(DayIn(FourYear, y, m, d), -POSIX_1992);
    ModUnique(e, 1, e - WRAP, WRAP);
    var q := QuarterYear(e - WRAP);
  }

  lemma DayNumberWraps(y: nat, m: nat, d: nat)
    requires 1970 <= y <= FAR_YEAR && ValidDay(FourYear, y, m, d)
    ensures DayNumber(y, m, d) == U32(DayIn(FourYear, y, m, d))
    ensures U32(DayNumber(y, m, d) - POSIX_1992) == U32(DayIn(FourYear, y, m, d) - POSIX_1992)
  {
    Unwrapped(y, m, d);
    DayFormula(y, m, d);
    SumU32(DayIn(FourYear, y, m, d), -POSIX_1992);
  }

  /** With every fourth year a leap year, as the code has it, a date of any year is read back
      as it was given exactly when the year is not the first, for which the count of leap years
      wraps below zero, and its day lies in the uint32_t range from the first. */
  lemma FourYearRoundTripIff(y: nat, m: nat, d: nat, hours: nat, minutes: nat, seconds: nat, millisecs: nat)
    requires y >= MIN_YEAR && ValidDay(FourYear, y, m, d) && ValidTime(hours, minutes, seconds, millisecs)
    ensures (GregorianDateOf(DayNumber(y, m, d), MsOfDay(hours, minutes, seconds, millisecs)) ==
              DateTime(y, Some(m), d, hours, minutes, seconds, millisecs))
            <==> y != MIN_YEAR && DayIn(FourYear, y, m, d) - POSIX_1992 < WRAP
  {
    TimeRecovered(hours, minutes, seconds, millisecs);
    if y >= FAR_YEAR {
      YearOfBound(DayNumber(y, m, d));
      YearStartClosed(y);
    } else {
      YearStartClosed(y);
      DayNumberWraps(y, m, d);
      var e := DayIn(FourYear, y, m, d) - POSIX_1992;
      if e < WRAP {
        SmallU32(e);
        ReadInRange(y, m, d, DayNumber(y, m, d), MsOfDay(hours, minutes, seconds, millisecs));
      } else {
        ReadPastRange(y, m, d);
      }
    }
  }

  /** However a day number came about, it is read as the four-year calendar date of that day,
      counted around the uint32_t range from 1992; only the days of 1992 have no month. */
  lemma EveryDayRead(days: nat, ms: nat)
    ensures var dt, e := GregorianDateOf(days, ms), U32(days - POSIX_1992);
      && (dt.month.None? <==> e < 366)
      && (dt.month.Some? ==> ValidDay(FourYear, dt.year, dt.month.value, dt.day)
                             && DayIn(FourYear, dt.year, dt.month.value, dt.day) == POSIX_1992 + e)
  {
    var e := U32(days - POSIX_1992);
    var q := QuarterYear(e);
    var y := MIN_YEAR + q;
    YearStartClosed(y);
    YearStartClosed(y + 1);
    DayOfYearIs(days, e, y);
    if y == MIN_YEAR {
      NoMonth(MonthDays(y), 0, DayOfYear(days));
    } else {
      YearLength(y);
      MonthExists(y, 1, DayOfYear(days));
    }
  }

  // A day number read as a date of years 1992 to 2099 is that date's day number, and the date
  // is not one of 1992.
  lemma ReadAs(days: nat, ms: nat, y: nat, m: nat, d: nat)
    requires MIN_YEAR <= y <= MAX_YEAR && ValidDay(FourYear, y, m, d) && days < WRAP
    requires var dt := GregorianDateOf(days, ms); dt.year == y && dt.month == Some(m) && dt.day == d
    ensures y != MIN_YEAR && days == DayNumber(y, m, d)
  {
    EveryDayRead(days, ms);
    CalendarsAgree(y, m, d);
    DayNumberIsCivil(y, m, d);
    SameSinceFirst(days, DayNumber(y, m, d));
    DayWithinYear(y, m, d);
    YearStartClosed(1993);
  }

  lemma SameSinceFirst(days: nat, n: nat)
    requires days < WRAP && POSIX_1992 <= n < WRAP && U32(days - POSIX_1992) == n - POSIX_1992
    ensures days == n
  {
  }

  /** In the years the class admits, a date of the Gregorian calendar is read back as it was
      given exactly when its year is not 1992; those of 1992 lose their month. */
  lemma DateRoundTripIff(y: nat, m: nat, d: nat, hours: nat, minutes: nat, seconds: nat, millisecs: nat)
    requires MIN_YEAR <= y <= MAX_YEAR && ValidDay(Civil, y, m, d) && ValidTime(hours, minutes, seconds, millisecs)
    ensures (GregorianDateOf(DayNumber(y, m, d), MsOfDay(hours, minutes, seconds, millisecs)) ==
              DateTime(y, Some(m), d, hours, minutes, seconds, millisecs)) <==> y != 1992
    ensures y == 1992 ==> GregorianDateOf(DayNumber(y, m, d), MsOfDay(hours, minutes, seconds, millisecs)).month == None
    ensures MsOfDay(hours, minutes, seconds, millisecs) < DAY_MS
  {
    TimeRecovered(hours, minutes, seconds, millisecs);
    CalendarsAgree(y, m, d);
    FourYearRoundTripIff(y, m, d, hours, minutes, seconds, millisecs);
    DayNumberIsCivil(y, m, d);
    SmallU32(DayNumber(y, m, d) - POSIX_1992);
    ReadInRange(y, m, d, DayNumber(y, m, d), MsOfDay(hours, minutes, seconds, millisecs));
  }

  // 1 January 1992 has no month when it is read back.
  lemma FirstDayFails()
    ensures DayNumber(1992, 1, 1) == POSIX_1992
    ensures GregorianDateOf(DayNumber(1992, 1, 1), 0).month == None
  {
    YearStartClosed(1992);
    DayNumberIsCivil(1992, 1, 1);
    CalendarsAgree(1992, 1, 1);
    EveryDayRead(POSIX_1992, 0);
  }

  // The time fields read back add up to the milliseconds they came from.
  lemma TimeFields(days: nat, ms: nat)
    ensures var dt := GregorianDateOf(days, ms);
      dt.hours * 3600000 + dt.minutes * 60000 + dt.seconds * 1000 + dt.millisecs == ms
  {
  }
}
