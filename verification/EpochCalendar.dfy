/** Julian dates from calendar dates, and calendar dates from the day of the year, as used to
    date orbital elements (jday and days2mdhms in sgp4ext.cpp). */
module EpochCalendar {
  import opened JulianDates
  import opened Gregorian

  function Jday(year: int, mon: int, day: int, hr: int, minute: int, sec: real): real {
    367.0 * year as real -
    ((7 * (year + ((mon + 9) as real / 12.0).Floor)) as real * 0.25).Floor as real +
    ((275 * mon) as real / 9.0).Floor as real +
    day as real + 1721013.5 +
    ((sec / 60.0 + minute as real) / 60.0 + hr as real) / 24.0
  }

  // ---------- the one-line formula in whole days ----------

  lemma FloorNinths(mon: int)
    requires 1 <= mon <= 12
    ensures ((275 * mon) as real / 9.0).Floor == 275 * mon / 9
    ensures ((mon + 9) as real / 12.0).Floor == (mon + 9) / 12 == if mon <= 2 then 0 else 1
  {
  }

  lemma FloorQuarter(x: int)
    ensures (x as real * 0.25).Floor == x / 4
  {
    var q := x / 4;
    assert x == 4 * q + x % 4;
    assert q as real <= x as real * 0.25 < (q + 1) as real;
  }

  lemma QuarterStep(year: int)
    ensures 7 * (year + 1) / 4 == 7 * year / 4 + if year % 4 == 0 then 1 else 2
  {
    var q, r := year / 4, year % 4;
    assert 7 * year == 4 * (7 * q) + 7 * r;
  }

  // Moving from January 0 to month `mon` adds the days before that month.
  lemma MonthsAdd(year: int, mon: int)
    requires 1 <= mon <= 12
    ensures 275 * mon / 9 - 7 * (year + if mon <= 2 then 0 else 1) / 4 == 30 - 7 * year / 4 + MonthStart(FourYear, year, mon)
  {
    MonthStartClosed(year, mon);
    QuarterStep(year);
  }

  // The formula with its floors on integers.
  lemma JdayWhole(year: int, mon: int, day: int, hr: int, minute: int, sec: real)
    requires 1 <= mon <= 12
    ensures Jday(year, mon, day, hr, minute, sec) ==
      367.0 * year as real + (275 * mon / 9 - 7 * (year + if mon <= 2 then 0 else 1) / 4) as real + day as real + 1721013.5 +
      ((sec / 60.0 + minute as real) / 60.0 + hr as real) / 24.0
  {
    FloorNinths(mon);
    FloorQuarter(7 * (year + if mon <= 2 then 0 else 1));
  }

  /** In any year the Julian date grows by one per calendar day and by the fraction of the day. */
  lemma JdayAdds(year: int, mon: int, day: int, hr: int, minute: int, sec: real)
    requires 1 <= mon <= 12
    ensures Jday(year, mon, day, hr, minute, sec) ==
      Jday(year, 1, 0, 0, 0, 0.0) + (MonthStart(FourYear, year, mon) + day) as real + ((sec / 60.0 + minute as real) / 60.0 + hr as real) / 24.0
  {
    JdayWhole(year, mon, day, hr, minute, sec);
    JdayWhole(year, 1, 0, 0, 0, 0.0);
    MonthsAdd(year, mon);
  }

  /** At midnight the two date formulas of the code base agree: a day number counts days since
      the Julian date 2440587.5. */
  lemma JdayIsDayNumber(year: nat, mon: nat, day: nat)
    requires MIN_YEAR <= year <= MAX_YEAR && ValidDay(Civil, year, mon, day)
    ensures Jday(year, mon, day, 0, 0, 0.0) == DayNumber(year, mon, day) as real + 2440587.5
  {
    FloorNinths(mon);
    FloorQuarter(7 * (year + (mon + 9) / 12));
    CalendarsAgree(year, mon, day);
    DayFormula(year, mon, day);
    DayNumberIsCivil(year, mon, day);
  }

  // ---------- from the day of the year ----------

  /** Splits a real day of the year. The fields always denote exactly the given instant; they
      are a proper calendar date and time of day exactly for days within the year. */
  method Days2mdhms(year: int, days: real) returns (mon: int, day: int, hr: int, minute: int, sec: real)
    ensures 1 <= mon <= 12
    ensures Jday(year, mon, day, hr, minute, sec) == Jday(year, 1, 0, 0, 0, 0.0) + days
    ensures 0 <= hr < 24 && 0 <= minute < 60 && 0.0 <= sec < 60.0
    ensures 1 <= day <= MonthLength(FourYear, year, mon) <==> 1.0 <= days < (MonthStart(FourYear, year, 13) + 1) as real
  {
    var lmonth := [31, 28, 31, 30, 31, 30, 31, 31, 30, 31, 30, 31];
    var dayofyr := days.Floor;
    if year % 4 == 0 {
      lmonth := lmonth[1 := 29];
    }
    assert forall m :: 1 <= m <= 12 ==> lmonth[m - 1] == MonthLength(FourYear, year, m);
    var i, inttemp := 1, 0;
    while dayofyr > inttemp + lmonth[i - 1] && i < 12
      invariant 1 <= i <= 12 && inttemp == MonthStart(FourYear, year, i)
      invariant i > 1 ==> dayofyr > inttemp
      decreases 12 - i
    {
      inttemp := inttemp + lmonth[i - 1];
      i := i + 1;
    }
    mon := i;
    day := dayofyr - inttemp;
    WithinYear(year, mon, dayofyr);
    var temp := (days - dayofyr as real) * 24.0;
    hr := temp.Floor;
    temp := (temp - hr as real) * 60.0;
    minute := temp.Floor;
    sec := (temp - minute as real) * 60.0;
    JdayAdds(year, mon, day, hr, minute, sec);
  }

  lemma WithinYear(year: int, mon: int, dayofyr: int)
    requires 1 <= mon <= 12
    requires mon > 1 ==> dayofyr > MonthStart(FourYear, year, mon)
    requires mon < 12 ==> dayofyr <= MonthStart(FourYear, year, mon + 1)
    ensures 1 <= dayofyr - MonthStart(FourYear, year, mon) <= MonthLength(FourYear, year, mon) <==> 1 <= dayofyr <= MonthStart(FourYear, year, 13)
  {
    MonthStartClosed(year, mon);
    MonthStartClosed(year, 12);
    if mon < 12 {
      MonthStartClosed(year, mon + 1);
    }
  }
}
