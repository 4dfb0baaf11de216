/** Conversion between UTC and the continuous time scales with a table of leap seconds, and
    dates given and printed in those scales (julian-date.cc). */
module TimeScales {
  import opened Integers
  import opened JulianDates
  import opened Gregorian
  import opened LeapSeconds
  import opened Options

  const TT_TO_TAI := 32184
  const TAI_TO_GPS := 19000

  // Distance of the scale from TAI; only the scales that have one.
  predicate Continuous(ts: TimeScale) { ts == TAI || ts == TT || ts == GPST }

  function Shift(ts: TimeScale): int { if ts == TT then TT_TO_TAI else if ts == GPST then -TAI_TO_GPS else 0 }

  // UT1 - UTC, zero outside the table.
  function Dut1(v: IersData, day: nat): int {
    var pos := U32(day - POSIX_1992);
    if pos < |v.dut1| then v.dut1[pos] else 0
  }

  function OffsetFromUtc(v: IersData, day: nat, ts: TimeScale): int {
    match ts
    case UT1 => Dut1(v, day)
    case TAI => TaiMinusUtc(v, day)
    case TT => TT_TO_TAI + TaiMinusUtc(v, day)
    case GPST => TaiMinusUtc(v, day) - TAI_TO_GPS
    case _ => 0
  }

  function OffsetToUtc(v: IersData, day: nat, ms: nat, ts: TimeScale): int {
    if ts == UTC || ts == POSIX then 0
    else
      var today := TaiMinusUtc(v, day);
      var offset := if ts == TT then TT_TO_TAI else 0;
      // not the same day in UTC: the previous day's leap seconds count
      var taiUtc := if ms < offset + today then TaiMinusUtc(v, U32(day - 1)) else today;
      match ts
      case UT1 => -Dut1(v, day)
      case TAI => -taiUtc
      case TT => -(TT_TO_TAI + taiUtc)
      case GPST => -(taiUtc - TAI_TO_GPS)
      case _ => -offset
  }

  // To UTC, as SetDate stores it, and back, as ToString prints it.
  function Stored(v: IersData, d: Date): Date
  {
    Plus(d, MilliSeconds(OffsetToUtc(v, d.days, d.ms, d.scale)))
  }

  function Shown(v: IersData, d: Date): Date
  {
    Plus(d, MilliSeconds(OffsetFromUtc(v, d.days, d.scale)))
  }

  // ---------- there and back ----------

  // The part of the day after midnight in which the wrong leap count is used on the way back.
  predicate InLeapWindow(v: IersData, d: Date)
    requires d.days >= 1
  {
    && d.days - 1 in v.leapDays
    && TaiMinusUtc(v, d.days - 1) + Shift(d.scale) <= d.ms < DayTest(v, d)
  }

  // Below this time of day the conversion takes UTC to be still in the previous day.
  function DayTest(v: IersData, d: Date): int {
    TaiMinusUtc(v, d.days) + if d.scale == TT then TT_TO_TAI else 0
  }

  // The day whose difference is looked up on the way to UTC, the offset subtracted, and the
  // day that results.
  function LookupDay(v: IersData, d: Date): nat
    requires d.days >= 1
  {
    if d.ms < DayTest(v, d) then d.days - 1 else d.days
  }

  function Subtracted(v: IersData, d: Date): int
    requires d.days >= 1
  {
    TaiMinusUtc(v, LookupDay(v, d)) + Shift(d.scale)
  }

  function UtcDay(v: IersData, d: Date): nat
    requires d.days >= 1
  {
    if d.ms < Subtracted(v, d) then d.days - 1 else d.days
  }

  ghost predicate Convertible(v: IersData, d: Date) {
    && ValidData(v) && Normal(d) && d.days >= 1 && Continuous(d.scale)
    && (d.scale == GPST ==> TaiMinusUtc(v, d.days - 1) >= TAI_TO_GPS)
  }

  lemma SubtractedRange(v: IersData, d: Date)
    requires Convertible(v, d)
    ensures 0 <= Subtracted(v, d) < DAY_MS - 1000 && DayTest(v, d) < DAY_MS - 1000
    ensures OffsetToUtc(v, d.days, d.ms, d.scale) == -Subtracted(v, d)
    ensures d.ms >= DayTest(v, d) ==> d.ms >= Subtracted(v, d)
  {
    LeapStep(v, d.days);
    SmallU32(d.days - 1);
  }

  // The millisecond span of an offset given in milliseconds.
  lemma ShiftedBy(d: Date, offset: int, r: Date)
    requires Normal(d) && Normal(r) && r.scale == d.scale && Total(r) == Total(d) + offset
    ensures Plus(d, MilliSeconds(offset)) == r
  {
    TotalInjective(r, d);
    ShiftedByIff(d, offset, r);
  }

  lemma ShiftedByIff(d: Date, offset: int, r: Date)
    requires Normal(d) && Normal(r) && r.scale == d.scale && 0 <= Total(d) + offset < RANGE
    ensures Plus(d, MilliSeconds(offset)) == r <==> Total(r) == Total(d) + offset
  {
    PlusAdds(d, MilliSeconds(offset));
    TotalInjective(r, Plus(d, MilliSeconds(offset)));
    ModUnique(Total(d) + offset, 0, Total(d) + offset, RANGE);
  }

  lemma StoredIs(v: IersData, d: Date)
    requires Convertible(v, d)
    ensures Stored(v, d) ==
      if d.ms >= Subtracted(v, d) then Date(d.days, d.ms - Subtracted(v, d), d.scale)
      else Date(d.days - 1, d.ms + DAY_MS - Subtracted(v, d), d.scale)
  {
    SubtractedRange(v, d);
    var o := Subtracted(v, d);
    ShiftedBy(d, -o, if d.ms >= o then Date(d.days, d.ms - o, d.scale) else Date(d.days - 1, d.ms + DAY_MS - o, d.scale));
  }

  /** A TAI, TT or GPS instant converted to UTC and back is unchanged exactly outside the leap
      window: the second that begins at the UTC midnight after a day of the table, or 20 s for
      GPS time, whose day test leaves out the 19 s offset. There it comes back a second late. */
  lemma ScaleRoundTripIff(v: IersData, d: Date)
    requires Convertible(v, d)
    ensures Shown(v, Stored(v, d)) == if InLeapWindow(v, d) then Date(d.days, d.ms + 1000, d.scale) else d
    ensures Shown(v, Stored(v, d)) == d <==> !InLeapWindow(v, d)
  {
    StoredIs(v, d);
    SubtractedRange(v, d);
    LeapStep(v, d.days);
    var u := Stored(v, d);
    var back := if InLeapWindow(v, d) then Date(d.days, d.ms + 1000, d.scale) else d;
    ShiftedBy(u, OffsetFromUtc(v, u.days, d.scale), back);
  }

  // The window is not empty: on 2 July 1992, 0:00:26.5 TAI and 0:00:10 GPS time are read back a
  // second late.
  lemma WindowFails()
    ensures var d := Date(8218, 26500, TAI); Shown(IERS, Stored(IERS, d)) == Date(8218, 27500, TAI)
    ensures var d := Date(8218, 10000, GPST); Shown(IERS, Stored(IERS, d)) == Date(8218, 11000, GPST)
  {
    IersHasJuly1992();
    WindowAfterJuly1992(IERS, Date(8218, 26500, TAI));
    WindowAfterJuly1992(IERS, Date(8218, 10000, GPST));
  }

  lemma WindowAfterJuly1992(v: IersData, d: Date)
    requires HasJuly1992(v) && (d == Date(8218, 26500, TAI) || d == Date(8218, 10000, GPST))
    ensures Shown(v, Stored(v, d)) == Date(d.days, d.ms + 1000, d.scale)
  {
    July1992(v);
    ScaleRoundTripIff(v, d);
  }

  // ---------- against true UTC ----------

  // u is the UTC reading of the instant d: the difference in force on its day leads to d.
  ghost predicate TrueUtc(v: IersData, d: Date, u: Date) {
    Normal(u) && u.scale == d.scale && Total(u) + TrueTaiMinusUtc(v, u.days) + Shift(d.scale) == Total(d)
  }

  // Neither the day looked up nor the day that results has a new difference coming into force.
  predicate FreeOfLeaps(v: IersData, d: Date)
    requires d.days >= 1
  {
    LookupDay(v, d) !in v.leapDays && UtcDay(v, d) !in v.leapDays
  }

  // How far the offset subtracted is from the true one at the day that results.
  lemma OffsetShort(v: IersData, d: Date)
    requires Convertible(v, d)
    ensures TrueTaiMinusUtc(v, UtcDay(v, d)) + Shift(d.scale) - Subtracted(v, d) ==
      (if LookupDay(v, d) in v.leapDays then 1000 else 0) +
      (if UtcDay(v, d) != LookupDay(v, d) && UtcDay(v, d) in v.leapDays then 1000 else 0)
    ensures UtcDay(v, d) == LookupDay(v, d) || UtcDay(v, d) == LookupDay(v, d) + 1 == d.days
  {
    SubtractedRange(v, d);
    LeapStep(v, d.days);
    TaiMinusUtcTrueIff(v, UtcDay(v, d));
  }

  /** What SetDate stores for a TAI, TT or GPS instant is its true UTC exactly when no new
      difference comes into force on the days concerned. */
  lemma StoredTrueIff(v: IersData, d: Date)
    requires Convertible(v, d)
    ensures TrueUtc(v, d, Stored(v, d)) <==> FreeOfLeaps(v, d)
  {
    StoredIs(v, d);
    OffsetShort(v, d);
  }

  // No two leap seconds on consecutive days.
  ghost predicate Sparse(v: IersData) {
    forall x :: x in v.leapDays ==> x + 1 !in v.leapDays
  }

  /** Otherwise it is late: by one second, or by up to two if leap seconds follow each other on
      consecutive days. */
  lemma StoredLate(v: IersData, d: Date, u: Date)
    requires Convertible(v, d) && TrueUtc(v, d, u)
    ensures var late := Total(Stored(v, d)) - Total(u);
      && (late == 0 <==> FreeOfLeaps(v, d))
      && (late != 0 ==> 1000 <= late <= 2000 && (Sparse(v) ==> late == 1000))
  {
    StoredIs(v, d);
    OffsetShort(v, d);
    NearDays(v, d, u);
    var s := UtcDay(v, d);
    TaiMinusUtcTrueIff(v, s);
    if u.days < s {
      TaiMinusUtcTrueIff(v, u.days);
    }
  }

  // The true reading lies on the same day as the stored one or on the day before.
  lemma NearDays(v: IersData, d: Date, u: Date)
    requires Convertible(v, d) && TrueUtc(v, d, u)
    ensures u.days == UtcDay(v, d) || u.days == UtcDay(v, d) - 1
  {
    StoredIs(v, d);
    assert Total(Stored(v, d)) - Total(u) == TrueTaiMinusUtc(v, u.days) - TaiMinusUtc(v, LookupDay(v, d));
    TrueRange(v, u.days);
    TrueRange(v, LookupDay(v, d));
    CloseDays(Stored(v, d), u);
    NoLessLater(v, d);
  }

  lemma NoLessLater(v: IersData, d: Date)
    requires Convertible(v, d)
    ensures TrueTaiMinusUtc(v, UtcDay(v, d) + 1) >= TaiMinusUtc(v, LookupDay(v, d))
  {
    OffsetShort(v, d);
    TaiMinusUtcTrueIff(v, UtcDay(v, d));
    TaiMinusUtcTrueIff(v, UtcDay(v, d) + 1);
  }

  lemma CloseDays(a: Date, b: Date)
    requires Normal(a) && Normal(b) && -DAY_MS < Total(a) - Total(b) < DAY_MS
    ensures a.days - 1 <= b.days <= a.days + 1
    ensures b.days > a.days ==> Total(b) > Total(a)
  {
  }

  lemma TrueRange(v: IersData, day: nat)
    requires ValidData(v)
    ensures 0 <= TaiMinusUtc(v, day) <= TrueTaiMinusUtc(v, day) <= 80000000
  {
    TaiMinusUtcTrueIff(v, day);
  }

  /** Noon TAI of 1 July 1992 is stored as 11:59:34 UTC; it was 11:59:33. */
  lemma NoonStoredLate()
    ensures var d := Date(8217, 43200000, TAI);
      Stored(IERS, d) == Date(8217, 43174000, TAI) && TrueUtc(IERS, d, Date(8217, 43173000, TAI))
  {
    IersHasJuly1992();
    NoonOfJuly1992(IERS);
  }

  lemma NoonOfJuly1992(v: IersData)
    requires HasJuly1992(v)
    ensures var d := Date(8217, 43200000, TAI);
      Stored(v, d) == Date(8217, 43174000, TAI) && TrueUtc(v, d, Date(8217, 43173000, TAI))
  {
    July1992(v);
    StoredIs(v, Date(8217, 43200000, TAI));
  }

  /** Two known instants: 12:00:00 TT of 1 January 2000 was 11:58:55.816 UTC, and GPS time
      began with 0:00:00 UTC of 6 January 1980. */
  lemma KnownInstants()
    ensures Stored(IERS, Date(10957, 43200000, TT)) == Date(10957, 43135816, TT)
    ensures Stored(IERS, Date(3657, 0, GPST)) == Date(3657, 0, GPST)
  {
    IersHasKnownYears();
    KnownInstantsOf(IERS);
  }

  lemma KnownInstantsOf(v: IersData)
    requires HasKnownYears(v)
    ensures Stored(v, Date(10957, 43200000, TT)) == Date(10957, 43135816, TT)
    ensures Stored(v, Date(3657, 0, GPST)) == Date(3657, 0, GPST)
  {
    KnownYears(v);
    StoredIs(v, Date(10957, 43200000, TT));
    StoredIs(v, Date(3657, 0, GPST));
  }

  // ---------- UT1 ----------

  // UT1 - UTC on a day, as the table has it for the days from 1 January 1992 on.
  function Correction(v: IersData, day: int): int {
    if POSIX_1992 <= day < POSIX_1992 + |v.dut1| then v.dut1[day - POSIX_1992] else 0
  }

  // u is the UTC reading of a UT1 date: adding the correction of its day gives the date.
  ghost predicate TrueUtcOfUt1(v: IersData, d: Date, u: Date) {
    Normal(u) && u.scale == d.scale && Total(u) + Correction(v, u.days) == Total(d)
  }

  // The day a UT1 date falls on in UTC.
  function Ut1Day(v: IersData, d: Date): int {
    var ms := d.ms - Correction(v, d.days);
    if ms < 0 then d.days - 1 else if ms >= DAY_MS then d.days + 1 else d.days
  }

  lemma Dut1Is(v: IersData, day: nat)
    requires ValidData(v) && day < WRAP
    ensures Dut1(v, day) == Correction(v, day) && -1000 < Correction(v, day) < 1000
  {
  }

  lemma Ut1StoredIs(v: IersData, d: Date)
    requires ValidData(v) && Normal(d) && d.scale == UT1 && 1 <= d.days < WRAP - 2
    ensures var s := Ut1Day(v, d);
      s >= 0 && Stored(v, d) == Date(s, d.ms - Correction(v, d.days) + (d.days - s) * DAY_MS, UT1)
  {
    var x, s := Correction(v, d.days), Ut1Day(v, d);
    Dut1Is(v, d.days);
    ShiftedBy(d, -x, Date(s, d.ms - x + (d.days - s) * DAY_MS, d.scale));
  }

  /** A UT1 date is stored as its true UTC, and comes back unchanged, exactly when the
      corrections tabulated for its days in UT1 and in UTC are the same. */
  lemma Ut1RoundTripIff(v: IersData, d: Date)
    requires ValidData(v) && Normal(d) && d.scale == UT1 && 1 <= d.days < WRAP - 2
    ensures TrueUtcOfUt1(v, d, Stored(v, d)) <==> Correction(v, Ut1Day(v, d)) == Correction(v, d.days)
    ensures Shown(v, Stored(v, d)) == d <==> Correction(v, Ut1Day(v, d)) == Correction(v, d.days)
  {
    Ut1StoredIs(v, d);
    var u := Stored(v, d);
    Dut1Is(v, d.days);
    Dut1Is(v, u.days);
    ShiftedByIff(u, Correction(v, u.days), d);
  }

  // For instance the last millisecond of 1 January 1992 in UT1.
  lemma Ut1Fails()
    ensures var d := Date(POSIX_1992, DAY_MS - 1, UT1);
      Shown(IERS, Stored(IERS, d)) != d && !TrueUtcOfUt1(IERS, d, Stored(IERS, d))
  {
    IersHasJuly1992();
    FirstCorrections();
    Ut1AtMidnight(IERS);
  }

  lemma FirstCorrections()
    ensures IERS.dut1 == [-125, -126]
  {
  }

  lemma Ut1AtMidnight(v: IersData)
    requires ValidData(v) && v.dut1 == [-125, -126]
    ensures var d := Date(POSIX_1992, DAY_MS - 1, UT1);
      Shown(v, Stored(v, d)) != d && !TrueUtcOfUt1(v, d, Stored(v, d))
  {
    Ut1RoundTripIff(v, Date(POSIX_1992, DAY_MS - 1, UT1));
  }

  // ---------- dates given and printed ----------

  // Printing a date that was given in a time scale.
  function Printed(v: IersData, d: Date): DateTime
  {
    var shown := Shown(v, Stored(v, d));
    GregorianDateOf(shown.days, shown.ms)
  }

  function Given(y: nat, m: nat, d: nat, hours: nat, minutes: nat, seconds: nat, millisecs: nat, ts: TimeScale): Date {
    Date(DayNumber(y, m, d), MsOfDay(hours, minutes, seconds, millisecs), ts)
  }

  // A date comes back unchanged from the conversion to UTC.
  predicate ComesBack(v: IersData, d: Date)
    requires d.days >= 1
  {
    match d.scale
    case UTC => true
    case POSIX => true
    case UT1 => Correction(v, Ut1Day(v, d)) == Correction(v, d.days)
    case _ => !InLeapWindow(v, d)
  }

  lemma ComesBackIff(v: IersData, d: Date)
    requires ValidData(v) && Normal(d) && 1 <= d.days < WRAP - 2
    requires d.scale == GPST ==> TaiMinusUtc(v, d.days - 1) >= TAI_TO_GPS
    ensures Shown(v, Stored(v, d)) == d <==> ComesBack(v, d)
  {
    match d.scale
    case UTC => ShiftedBy(d, 0, d);
    case POSIX => ShiftedBy(d, 0, d);
    case UT1 => Ut1RoundTripIff(v, d);
    case _ => ScaleRoundTripIff(v, d);
  }

  /** A date given in UTC, UT1, TAI, TT or GPS time is printed as it was given exactly when its
      year is not 1992 and the conversion of its scale brings it back. */
  lemma PrintedAsGivenIff(v: IersData, y: nat, m: nat, d: nat, hours: nat, minutes: nat, seconds: nat, millisecs: nat, ts: TimeScale)
    requires MIN_YEAR <= y <= MAX_YEAR && ValidDay(Civil, y, m, d) && ValidTime(hours, minutes, seconds, millisecs)
    requires ValidData(v) && (ts == GPST ==> DayNumber(y, m, d) >= 1 && TaiMinusUtc(v, DayNumber(y, m, d) - 1) >= TAI_TO_GPS)
    ensures var given := Given(y, m, d, hours, minutes, seconds, millisecs, ts);
      && given.days >= 1
      && (Printed(v, given) == DateTime(y, Some(m), d, hours, minutes, seconds, millisecs) <==> y != 1992 && ComesBack(v, given))
  {
    var given := Given(y, m, d, hours, minutes, seconds, millisecs, ts);
    DayNumberIsCivil(y, m, d);
    DateRoundTripIff(y, m, d, hours, minutes, seconds, millisecs);
    ComesBackIff(v, given);
    var shown := Shown(v, Stored(v, given));
    if Printed(v, given) == DateTime(y, Some(m), d, hours, minutes, seconds, millisecs) {
      CalendarsAgree(y, m, d);
      ReadAs(shown.days, shown.ms, y, m, d);
      TimeFields(shown.days, shown.ms);
      TimeRecovered(hours, minutes, seconds, millisecs);
    }
  }

  // ---------- the date object ----------

  class JulianDate {
    const table: IersData
    var days: nat
    var ms: nat
    var scale: TimeScale

    function Value(): Date
      reads this
    {
      Date(days, ms, scale)
    }

    constructor (table: IersData)
      ensures this.table == table && Value() == Date((((1992 - 1970) as real) * 365.25).Floor, 0, UTC)
    {
      this.table := table;
      days, ms, scale := (((1992 - 1970) as real) * 365.25).Floor, 0, UTC;
    }

    method AddAssign(t: Time)
      modifies this
      ensures Value() == Plus(old(Value()), t)
    {
      var d := Plus(Value(), t);
      days, ms, scale := d.days, d.ms, d.scale;
    }

    method SubtractAssign(t: Time)
      modifies this
      ensures Value() == Minus(old(Value()), t)
    {
      var d := Minus(Value(), t);
      days, ms, scale := d.days, d.ms, d.scale;
    }

    // The date meant by the fields of a date string.
    static function Meant(y: nat, m: nat, d: nat, hours: nat, minutes: nat, seconds: real, ts: TimeScale): Date
      requires seconds >= 0.0
    {
      var whole := seconds.Floor;
      Given(y, m, d, hours, minutes, whole, ((seconds - whole as real) * 1000.0 + 0.5).Floor, ts)
    }

    /** Stores a date given by the fields of a date string; ok is false when an assertion on the
        arguments fails. A TAI, TT or GPS date is stored as its true UTC exactly when no new
        difference comes into force on the days concerned. */
    method SetDate(y: nat, m: nat, d: nat, hours: nat, minutes: nat, seconds: real, ts: TimeScale) returns (ok: bool)
      requires seconds >= 0.0
      modifies this
      ensures ok <==> ts != POSIX && MIN_YEAR <= y <= MAX_YEAR
      ensures ok ==> Value() == Stored(table, Meant(y, m, d, hours, minutes, seconds, ts))
      ensures ok && Convertible(table, Meant(y, m, d, hours, minutes, seconds, ts)) ==>
        (TrueUtc(table, Meant(y, m, d, hours, minutes, seconds, ts), Value()) <==> FreeOfLeaps(table, Meant(y, m, d, hours, minutes, seconds, ts)))
      ensures !ok ==> Value() == old(Value())
    {
      if ts == POSIX || y < MIN_YEAR || y > MAX_YEAR {
        return false;
      }
      var whole := seconds.Floor;
      var millisecs := ((seconds - whole as real) * 1000.0 + 0.5).Floor;
      days := DayNumber(y, m, d);
      ms := MsOfDay(hours, minutes, whole, millisecs);
      scale := ts;
      ghost var meant := Value();
      AddAssign(MilliSeconds(OffsetToUtc(table, days, ms, scale)));
      if Convertible(table, meant) {
        StoredTrueIff(table, meant);
      }
      return true;
    }

    method GetDateTimeInScale() returns (dt: DateTime)
      ensures dt == GregorianDateOf(Shown(table, Value()).days, Shown(table, Value()).ms)
    {
      var shown := Plus(Value(), MilliSeconds(OffsetFromUtc(table, days, scale)));
      dt := GregorianDate(shown.days, shown.ms);
    }
  }

  /** Giving a date and printing it in its scale: it comes out as given exactly when its year
      is not 1992 and the conversion of its scale brings it back. */
  method PrintGiven(jd: JulianDate, y: nat, m: nat, d: nat, hours: nat, minutes: nat, seconds: nat, millisecs: nat, ts: TimeScale)
    returns (dt: Option<DateTime>)
    requires ValidDay(Civil, y, m, d) && ValidTime(hours, minutes, seconds, millisecs) && ValidData(jd.table)
    requires ts == GPST ==> DayNumber(y, m, d) >= 1 && TaiMinusUtc(jd.table, DayNumber(y, m, d) - 1) >= TAI_TO_GPS
    modifies jd
    ensures dt.None? <==> ts == POSIX || y < MIN_YEAR || y > MAX_YEAR
    ensures dt.Some? ==> var given := Given(y, m, d, hours, minutes, seconds, millisecs, ts);
      && given.days >= 1
      && (dt.value == DateTime(y, Some(m), d, hours, minutes, seconds, millisecs) <==> y != 1992 && ComesBack(jd.table, given))
  {
    SecondsSplit(seconds, millisecs);
    var ok := jd.SetDate(y, m, d, hours, minutes, seconds as real + millisecs as real / 1000.0, ts);
    if !ok {
      return None;
    }
    PrintedAsGivenIff(jd.table, y, m, d, hours, minutes, seconds, millisecs, ts);
    var printed := jd.GetDateTimeInScale();
    return Some(printed);
  }

  // A time given to the millisecond is split without loss.
  lemma SecondsSplit(seconds: nat, millisecs: nat)
    requires millisecs < 1000
    ensures var s := seconds as real + millisecs as real / 1000.0;
      s.Floor == seconds && ((s - s.Floor as real) * 1000.0 + 0.5).Floor == millisecs
  {
  }
}
