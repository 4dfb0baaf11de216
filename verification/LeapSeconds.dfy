/** The difference TAI - UTC as the code looks it up (TaiMinusUtc in julian-date.cc), against
    the difference that the table of leap seconds stands for (iers-data.cc). */
module LeapSeconds {

  // The days on which a new difference TAI - UTC comes into force, each a second more than the
  // one before, the difference in seconds before the first of them, and UT1 - UTC in
  // milliseconds for the days from 1 January 1992 on.
  datatype IersData = IersData(leapDays: seq<nat>, base: nat, dut1: seq<int>)

  ghost predicate Ascending(days: seq<nat>) {
    forall i, j :: 0 <= i < j < |days| ==> days[i] < days[j]
  }

  ghost predicate ValidData(v: IersData) {
    && Ascending(v.leapDays) && |v.leapDays| + v.base <= 80000
    && |v.dut1| <= 1000000 && forall i :: 0 <= i < |v.dut1| ==> -1000 < v.dut1[i] < 1000
  }

  // Index of the first entry not less than x (std::lower_bound).
  function LowerBound(days: seq<nat>, x: nat): (n: nat)
    ensures n <= |days|
  {
    if days == [] || days[0] >= x then 0 else 1 + LowerBound(days[1..], x)
  }

  function TaiMinusUtc(v: IersData, day: nat): nat { (LowerBound(v.leapDays, day) + v.base) * 1000 }

  // ---------- the reference: the differences in force ----------

  ghost function InForce(v: IersData, day: nat): set<nat> {
    set x | x in v.leapDays && x <= day
  }

  ghost function TrueTaiMinusUtc(v: IersData, day: nat): nat { (|InForce(v, day)| + v.base) * 1000 }

  lemma {:induction false} LowerBoundCounts(days: seq<nat>, day: nat)
    requires Ascending(days)
    ensures |set x | x in days && x <= day| == LowerBound(days, day + 1)
  {
    var all := set x | x in days && x <= day;
    if days == [] || days[0] > day {
      assert all == {};
    } else {
      var rest := set x | x in days[1..] && x <= day;
      LowerBoundCounts(days[1..], day);
      FirstCounted(days, day);
    }
  }

  lemma FirstCounted(days: seq<nat>, day: nat)
    requires Ascending(days) && days != [] && days[0] <= day
    ensures var rest := set x | x in days[1..] && x <= day;
      (set x | x in days && x <= day) == {days[0]} + rest && days[0] !in rest
  {
    assert days == [days[0]] + days[1..];
  }

  lemma {:induction false} LowerBoundStep(days: seq<nat>, x: nat)
    requires Ascending(days)
    ensures LowerBound(days, x + 1) == LowerBound(days, x) + if x in days then 1 else 0
  {
    if days != [] {
      LowerBoundStep(days[1..], x);
      if days[0] == x {
        assert days[1..] == [] || days[1..][0] == days[1];
      } else if days[0] > x {
        forall i | 0 <= i < |days| ensures days[i] != x {
        }
      }
    }
  }

  /** The code's difference is the true one exactly on days that are not in the table; on the
      day of an entry it is one second short, all day. It catches up on the day after. */
  lemma TaiMinusUtcTrueIff(v: IersData, day: nat)
    requires ValidData(v)
    ensures TaiMinusUtc(v, day) == TrueTaiMinusUtc(v, day) <==> day !in v.leapDays
    ensures TrueTaiMinusUtc(v, day) == TaiMinusUtc(v, day) + if day in v.leapDays then 1000 else 0
    ensures TaiMinusUtc(v, day + 1) == TrueTaiMinusUtc(v, day)
  {
    LowerBoundCounts(v.leapDays, day);
    LowerBoundStep(v.leapDays, day);
  }

  /** From one day to the next the code's difference grows by one second if the earlier day is
      in the table, and stays otherwise. */
  lemma LeapStep(v: IersData, day: nat)
    requires ValidData(v) && day >= 1
    ensures TaiMinusUtc(v, day) == TaiMinusUtc(v, day - 1) + if day - 1 in v.leapDays then 1000 else 0
  {
    LowerBoundStep(v.leapDays, day - 1);
  }

  // ---------- the table of the code ----------

  // Leap seconds up to 2015, and the UT1 corrections of the first days of 1992.
  const IERS := IersData(
    [912, 1096, 1461, 1826, 2191, 2557, 2922, 3287, 3652, 4199, 4564, 4929, 5660, 6574, 7305, 7670,
     8217, 8582, 8947, 9496, 10043, 10592, 13149, 14245, 15522, 16617],
    10, [-125, -126])

  lemma {:induction false} LowerBoundIs(days: seq<nat>, x: nat, n: nat)
    requires Ascending(days) && n <= |days|
    requires (n == 0 || days[n - 1] < x) && (n == |days| || x <= days[n])
    ensures LowerBound(days, x) == n
  {
    if n > 0 {
      LowerBoundIs(days[1..], x, n - 1);
    }
  }

  // The entry for 1 July 1992, and the one before.
  ghost predicate HasJuly1992(v: IersData) {
    ValidData(v) && |v.leapDays| > 16 && v.leapDays[15] == 7670 && v.leapDays[16] == 8217 && v.base == 10
  }

  lemma IersHasJuly1992()
    ensures HasJuly1992(IERS)
  {
  }

  lemma July1992(v: IersData)
    requires HasJuly1992(v)
    ensures TaiMinusUtc(v, 8217) == 26000 && TrueTaiMinusUtc(v, 8217) == 27000
    ensures TaiMinusUtc(v, 8216) == 26000 && TaiMinusUtc(v, 8218) == 27000
    ensures 8216 !in v.leapDays && 8217 in v.leapDays
  {
    LowerBoundIs(v.leapDays, 8217, 16);
    LowerBoundIs(v.leapDays, 8216, 16);
    LowerBoundStep(v.leapDays, 8216);
    TaiMinusUtcTrueIff(v, 8217);
  }

  /** 1 July 1992, day 8217, began with TAI - UTC at 27 s; the code answers 26 s. */
  lemma July1992Fails()
    ensures TaiMinusUtc(IERS, 8217) == 26000 && TrueTaiMinusUtc(IERS, 8217) == 27000
  {
    IersHasJuly1992();
    July1992(IERS);
  }

  // The entries about the GPS epoch and the year 2000.
  ghost predicate HasKnownYears(v: IersData) {
    && ValidData(v) && |v.leapDays| > 22 && v.base == 10
    && v.leapDays[8] == 3652 && v.leapDays[9] == 4199 && v.leapDays[21] == 10592 && v.leapDays[22] == 13149
  }

  lemma IersHasKnownYears()
    ensures HasKnownYears(IERS)
  {
  }

  // TAI - UTC was 19 s at the GPS epoch, 6 January 1980, and 32 s on 1 January 2000.
  lemma KnownYears(v: IersData)
    requires HasKnownYears(v)
    ensures TaiMinusUtc(v, 3656) == TaiMinusUtc(v, 3657) == 19000
    ensures TaiMinusUtc(v, 10957) == 32000
  {
    LowerBoundIs(v.leapDays, 3656, 9);
    LowerBoundIs(v.leapDays, 3657, 9);
    LowerBoundIs(v.leapDays, 10957, 22);
  }
}
