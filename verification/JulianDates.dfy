/** Dates as a day number and milliseconds of the day, both uint32_t (julian-date.cc). */
module JulianDates {
  import opened Integers

  const WRAP := 0x1_0000_0000
  const DAY_MS := 86400000
  const DAY_NS := 86400000000000

  function U32(x: int): nat { x % WRAP }

  datatype TimeScale = UTC | UT1 | TAI | TT | GPST | POSIX

  datatype Date = Date(days: nat, ms: nat, scale: TimeScale)

  // Time spans are integer nanoseconds; milliseconds are truncated towards zero.
  type Time = int

  function GetMilliSeconds(t: Time): int { if t >= 0 then t / 1000000 else -(-t / 1000000) }

  function MilliSeconds(ms: int): Time { ms * 1000000 }

  ghost predicate Normal(d: Date) { d.days < WRAP && d.ms < DAY_MS }

  /** Milliseconds are the whole ones in the span, whichever its sign. */
  lemma MillisecondsTruncate(t: Time)
    ensures var ms := GetMilliSeconds(t);
      if t >= 0 then 0 <= t - ms * 1000000 < 1000000 && ms >= 0 else -1000000 < t - ms * 1000000 <= 0 && ms <= 0
    ensures GetMilliSeconds(MilliSeconds(t)) == t
  {
  }

  // ---------- the operators ----------

  function Plus(d: Date, t: Time): (r: Date)
    ensures r.scale == d.scale && r.days < WRAP && r.ms < WRAP
    decreases if t < 0 then 1 else 0
  {
    if t < 0 then Minus(d, MilliSeconds(-GetMilliSeconds(t)))
    else Forward(d, U32(t / DAY_NS), U32(GetMilliSeconds(t) % DAY_MS))
  }

  function Minus(d: Date, t: Time): (r: Date)
    ensures r.scale == d.scale && r.days < WRAP && r.ms < WRAP
    decreases if t < 0 then 1 else 0
  {
    if t < 0 then Plus(d, MilliSeconds(-GetMilliSeconds(t)))
    else Backward(d, U32(t / DAY_NS), U32(GetMilliSeconds(t) % DAY_MS))
  }

  // By a number of days and milliseconds, with carry or borrow.
  function Forward(d: Date, days: nat, ms: nat): Date {
    var ms' := U32(ms + d.ms);
    Date(U32(days + U32(d.days + ms' / DAY_MS)), ms' % DAY_MS, d.scale)
  }

  function Backward(d: Date, days: nat, ms: nat): Date {
    if ms > d.ms then Date(U32(d.days - U32(days + 1)), U32(DAY_MS - U32(ms - d.ms)), d.scale)
    else Date(U32(d.days - days), U32(d.ms - ms), d.scale)
  }

  // Spans are int64_t nanoseconds; the arithmetic on them wraps around.
  function I64(x: int): Time { (x + 0x8000_0000_0000_0000) % 0x1_0000_0000_0000_0000 - 0x8000_0000_0000_0000 }

  function SinceEpoch(d: Date): Time { I64(I64(d.days * DAY_NS) + MilliSeconds(d.ms)) }

  function Difference(a: Date, b: Date): Time { I64(SinceEpoch(a) - SinceEpoch(b)) }

  predicate Less(a: Date, b: Date) { if a.days != b.days then a.days < b.days else a.ms < b.ms }
  predicate LessEq(a: Date, b: Date) { if a.days != b.days then a.days < b.days else a.ms <= b.ms }
  predicate Greater(a: Date, b: Date) { if a.days != b.days then a.days > b.days else a.ms > b.ms }
  predicate GreaterEq(a: Date, b: Date) { if a.days != b.days then a.days > b.days else a.ms >= b.ms }
  predicate Equal(a: Date, b: Date) { if a.days != b.days then false else a.ms == b.ms }

  // ---------- the reference: milliseconds since the epoch ----------

  function Total(d: Date): int { d.days * DAY_MS + d.ms }

  const RANGE := WRAP * DAY_MS

  /** Adding a span of either sign is addition of its milliseconds, around the uint32_t range. */
  lemma PlusAdds(d: Date, t: Time)
    requires Normal(d)
    ensures Normal(Plus(d, t)) && Plus(d, t).scale == d.scale
    ensures Total(Plus(d, t)) == (Total(d) + GetMilliSeconds(t)) % RANGE
  {
    if t < 0 {
      MinusForward(d, MilliSeconds(-GetMilliSeconds(t)));
    } else {
      PlusForward(d, t);
    }
  }

  lemma MinusSubtracts(d: Date, t: Time)
    requires Normal(d)
    ensures Normal(Minus(d, t)) && Minus(d, t).scale == d.scale
    ensures Total(Minus(d, t)) == (Total(d) - GetMilliSeconds(t)) % RANGE
  {
    if t < 0 {
      PlusForward(d, MilliSeconds(-GetMilliSeconds(t)));
    } else {
      MinusForward(d, t);
    }
  }

  lemma PlusForward(d: Date, t: Time)
    requires Normal(d) && t >= 0
    ensures Normal(Plus(d, t)) && Plus(d, t).scale == d.scale
    ensures Total(Plus(d, t)) == (Total(d) + GetMilliSeconds(t)) % RANGE
  {
    WholeDays(t);
    var m := GetMilliSeconds(t);
    SmallU32(m % DAY_MS);
    ForwardAdds(d, m / DAY_MS, m % DAY_MS);
    assert m == m / DAY_MS * DAY_MS + m % DAY_MS;
  }

  // The whole days of a span may wrap around before they are added.
  lemma ForwardAdds(d: Date, whole: nat, rest: nat)
    requires Normal(d) && rest < DAY_MS
    ensures var r := Forward(d, U32(whole), rest);
      Normal(r) && r.scale == d.scale && Total(r) == (Total(d) + (whole * DAY_MS + rest)) % RANGE
  {
    var carry := if rest + d.ms >= DAY_MS then 1 else 0;
    ForwardForm(d, whole, rest, carry);
    DaysAndRest(whole + (d.days + carry), rest + d.ms - carry * DAY_MS);
  }

  lemma ForwardForm(d: Date, whole: nat, rest: nat, carry: nat)
    requires Normal(d) && rest < DAY_MS && carry == if rest + d.ms >= DAY_MS then 1 else 0
    ensures Forward(d, U32(whole), rest) == Date(U32(whole + (d.days + carry)), rest + d.ms - carry * DAY_MS, d.scale)
  {
    SmallU32(rest + d.ms);
    SumU32(whole, U32(d.days + carry));
    SumU32(d.days + carry, whole);
  }

  lemma MinusForward(d: Date, t: Time)
    requires Normal(d) && t >= 0
    ensures Normal(Minus(d, t)) && Minus(d, t).scale == d.scale
    ensures Total(Minus(d, t)) == (Total(d) - GetMilliSeconds(t)) % RANGE
  {
    WholeDays(t);
    var m := GetMilliSeconds(t);
    SmallU32(m % DAY_MS);
    BackwardSubtracts(d, m / DAY_MS, m % DAY_MS);
    assert m == m / DAY_MS * DAY_MS + m % DAY_MS;
  }

  lemma BackwardSubtracts(d: Date, whole: nat, rest: nat)
    requires Normal(d) && rest < DAY_MS
    ensures var r := Backward(d, U32(whole), rest);
      Normal(r) && r.scale == d.scale && Total(r) == (Total(d) - (whole * DAY_MS + rest)) % RANGE
  {
    var borrow := if rest > d.ms then 1 else 0;
    BackwardForm(d, whole, rest, borrow);
    DaysAndRest(d.days - (whole + borrow), d.ms - rest + borrow * DAY_MS);
  }

  lemma BackwardForm(d: Date, whole: nat, rest: nat, borrow: nat)
    requires Normal(d) && rest < DAY_MS && borrow == if rest > d.ms then 1 else 0
    ensures Backward(d, U32(whole), rest) == Date(U32(d.days - (whole + borrow)), d.ms - rest + borrow * DAY_MS, d.scale)
  {
    if rest > d.ms {
      SmallU32(rest - d.ms);
      SmallU32(DAY_MS - (rest - d.ms));
      SumU32(whole, 1);
      SumU32(whole + 1, d.days);
    } else {
      SmallU32(d.ms - rest);
      SumU32(whole, d.days);
    }
  }

  lemma SmallU32(x: int)
    requires 0 <= x < WRAP
    ensures U32(x) == x
  {
  }

  lemma WholeDays(t: Time)
    requires t >= 0
    ensures t / DAY_NS == GetMilliSeconds(t) / DAY_MS
  {
  }

  lemma SumU32(a: int, b: int)
    ensures U32(U32(a) + b) == U32(a + b) && U32(b + U32(a)) == U32(a + b) && U32(b - U32(a)) == U32(b - a)
  {
    var q := a / WRAP;
    ModUnique(U32(a) + b, (a + b) / WRAP - q, U32(a + b), WRAP);
    ModUnique(b - U32(a), (b - a) / WRAP + q, U32(b - a), WRAP);
  }

  // Wrapping the day count wraps the total.
  lemma DaysAndRest(days: int, ms: int)
    requires 0 <= ms < DAY_MS
    ensures U32(days) * DAY_MS + ms == (days * DAY_MS + ms) % RANGE
  {
    ModUnique(days * DAY_MS + ms, days / WRAP, U32(days) * DAY_MS + ms, RANGE);
  }

  lemma TotalInjective(a: Date, b: Date)
    requires Normal(a) && Normal(b)
    ensures Total(a) == Total(b) <==> a.days == b.days && a.ms == b.ms
    ensures 0 <= Total(a) < RANGE
  {
  }

  /** The two operators undo each other, for spans of either sign and across the wrap. */
  lemma PlusMinusInverse(d: Date, t: Time)
    requires Normal(d)
    ensures Minus(Plus(d, t), t) == d && Plus(Minus(d, t), t) == d
  {
    MinusUndoesPlus(d, t);
    PlusUndoesMinus(d, t);
  }

  // r is d moved by m milliseconds.
  ghost predicate Moved(d: Date, m: int, r: Date) {
    Normal(r) && r.scale == d.scale && Total(r) == (Total(d) + m) % RANGE
  }

  lemma PlusMoves(d: Date, t: Time)
    requires Normal(d)
    ensures Moved(d, GetMilliSeconds(t), Plus(d, t)) && Moved(d, -GetMilliSeconds(t), Minus(d, t))
  {
    PlusAdds(d, t);
    MinusSubtracts(d, t);
  }

  lemma MinusUndoesPlus(d: Date, t: Time)
    requires Normal(d)
    ensures Minus(Plus(d, t), t) == d
  {
    var p := Plus(d, t);
    PlusMoves(d, t);
    PlusMoves(p, t);
    ThereAndBack(d, p, Minus(p, t), GetMilliSeconds(t));
  }

  lemma PlusUndoesMinus(d: Date, t: Time)
    requires Normal(d)
    ensures Plus(Minus(d, t), t) == d
  {
    var q := Minus(d, t);
    PlusMoves(d, t);
    PlusMoves(q, t);
    ThereAndBack(d, q, Plus(q, t), -GetMilliSeconds(t));
  }

  lemma ThereAndBack(d: Date, moved: Date, back: Date, m: int)
    requires Normal(d) && Moved(d, m, moved) && Moved(moved, -m, back)
    ensures back == d
  {
    WrapBack(Total(d), m);
    TotalInjective(d, back);
  }

  lemma WrapBack(x: int, m: int)
    requires 0 <= x < RANGE
    ensures ((x + m) % RANGE - m) % RANGE == x
  {
    ModUnique((x + m) % RANGE - m, -((x + m) / RANGE), x, RANGE);
  }

  lemma I64Sum(x: int, y: int)
    ensures I64(I64(x) + y) == I64(x + y) && I64(y - I64(x)) == I64(y - x)
  {
    var n, h := 0x1_0000_0000_0000_0000, 0x8000_0000_0000_0000;
    var q := (x + h) / n;
    ModUnique(I64(x) + y + h, (x + y + h) / n - q, I64(x + y) + h, n);
    ModUnique(y - I64(x) + h, (y - x + h) / n + q, I64(y - x) + h, n);
  }

  lemma DifferenceWraps(a: Date, b: Date)
    ensures Difference(a, b) == I64(MilliSeconds(Total(a) - Total(b)))
  {
    SinceEpochWraps(a);
    SinceEpochWraps(b);
    I64Sum(MilliSeconds(Total(a)), -SinceEpoch(b));
    I64Sum(MilliSeconds(Total(b)), MilliSeconds(Total(a)));
  }

  lemma SinceEpochWraps(d: Date)
    ensures SinceEpoch(d) == I64(MilliSeconds(Total(d)))
  {
    I64Sum(d.days * DAY_NS, MilliSeconds(d.ms));
    assert d.days * DAY_NS + MilliSeconds(d.ms) == MilliSeconds(Total(d));
  }

  // The longest span in whole milliseconds that int64_t nanoseconds hold, some 292 years.
  const MAX_SPAN := 9223372036854

  lemma I64Milli(m: int)
    requires -RANGE < m < RANGE
    ensures -MAX_SPAN <= m <= MAX_SPAN ==> GetMilliSeconds(I64(MilliSeconds(m))) == m
    ensures !(-MAX_SPAN <= m <= MAX_SPAN) ==> var w := GetMilliSeconds(I64(MilliSeconds(m)));
      w != m && w != m + RANGE && w != m - RANGE
    ensures -RANGE < GetMilliSeconds(I64(MilliSeconds(m))) < RANGE
  {
  }

  lemma WrappedSum(x: int, y: int, m: int)
    requires 0 <= x < RANGE && 0 <= y < RANGE && -RANGE < m < RANGE
    ensures (x + m) % RANGE == y <==> m == y - x || m == y - x + RANGE || m == y - x - RANGE
  {
  }

  /** The difference of two dates is what must be added to one to get the other, exactly when
      the dates are close enough for it to fit. */
  lemma DifferenceAddsIff(a: Date, b: Date)
    requires Normal(a) && Normal(b)
    ensures Plus(b, Difference(a, b)) == Date(a.days, a.ms, b.scale) <==> -MAX_SPAN <= Total(a) - Total(b) <= MAX_SPAN
    ensures -MAX_SPAN <= Total(a) - Total(b) <= MAX_SPAN ==> GetMilliSeconds(Difference(a, b)) == Total(a) - Total(b)
  {
    var p, m := Plus(b, Difference(a, b)), GetMilliSeconds(Difference(a, b));
    PlusAdds(b, Difference(a, b));
    SameDate(a, p);
    SameDate(a, b);
    DifferenceMilli(a, b);
    WrappedSum(Total(b), Total(a), m);
  }

  // For instance 1 January 1970 and a day 300 years later.
  lemma FarDifference()
    ensures var a, b := Date(109573, 0, UTC), Date(0, 0, UTC); Plus(b, Difference(a, b)) != a
  {
    DifferenceAddsIff(Date(109573, 0, UTC), Date(0, 0, UTC));
  }

  lemma SameDate(a: Date, p: Date)
    requires Normal(a) && Normal(p)
    ensures p == Date(a.days, a.ms, p.scale) <==> Total(p) == Total(a)
    ensures 0 <= Total(a) < RANGE && 0 <= Total(p) < RANGE
  {
    TotalInjective(a, p);
    TotalInjective(p, a);
  }

  lemma DifferenceMilli(a: Date, b: Date)
    requires Normal(a) && Normal(b)
    ensures var m, span := GetMilliSeconds(Difference(a, b)), Total(a) - Total(b);
      && -RANGE < m < RANGE
      && (-MAX_SPAN <= span <= MAX_SPAN ==> m == span)
      && (!(-MAX_SPAN <= span <= MAX_SPAN) ==> m != span && m != span + RANGE && m != span - RANGE)
  {
    DifferenceWraps(a, b);
    TotalInjective(a, b);
    TotalInjective(b, a);
    I64Milli(Total(a) - Total(b));
  }

  /** All comparisons are those of the milliseconds since the epoch. */
  lemma ComparisonsAgree(a: Date, b: Date)
    requires Normal(a) && Normal(b)
    ensures Less(a, b) <==> Total(a) < Total(b)
    ensures LessEq(a, b) <==> Total(a) <= Total(b)
    ensures Greater(a, b) <==> Total(a) > Total(b)
    ensures GreaterEq(a, b) <==> Total(a) >= Total(b)
    ensures Equal(a, b) <==> Total(a) == Total(b)
  {
  }
}
