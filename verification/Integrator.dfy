/** The resonance integrator of the deep-space propagator (dspace in sgp4unit.cpp). It
    resumes from the state left by the previous query instead of restarting at epoch. */
module Integrator {

  // Floating-point library functions, of which nothing is assumed here. Division is one of
  // them: on doubles it never fails.
  datatype Math = Math(
    sin: real -> real, cos: real -> real, sqrt: real -> real,
    fmod: (real, real) -> real, pow: (real, real) -> real, atan2: (real, real) -> real,
    div: (real, real) -> real)

  // The fields that initialization sets and dspace only reads.
  datatype Resonance = Resonance(
    irez: int,
    d2201: real, d2211: real, d3210: real, d3222: real, d4410: real, d4422: real,
    d5220: real, d5232: real, d5421: real, d5433: real,
    dedt: real, del1: real, del2: real, del3: real, didt: real, dmdt: real, dnodt: real, domdt: real,
    argpo: real, argpdot: real, gsto: real, xfact: real, xlamo: real, no: real)

  // The fields that dspace carries over from one query to the next.
  datatype Cache = Cache(atime: real, xli: real, xni: real)

  datatype Dots = Dots(xndt: real, xldot: real, xnddt: real)

  datatype Mean = Mean(em: real, argpm: real, inclm: real, mm: real, nodem: real, nm: real)

  const STEP: real := 720.0
  const STEP2: real := 259200.0
  const TWO_PI: real := 2.0 * 3.14159265358979323846

  function Abs(x: real): real { if x < 0.0 then -x else x }

  // Near-synchronous resonance: the rate of the mean motion and its slope along the longitude.
  function OneDayForce(m: Math, e: Resonance, xli: real): real {
    var f2, f4, f6 := 0.13130908, 2.8843198, 0.37448087;
    e.del1 * m.sin(xli - f2) + e.del2 * m.sin(2.0 * (xli - f4)) + e.del3 * m.sin(3.0 * (xli - f6))
  }

  function OneDaySlope(m: Math, e: Resonance, xli: real): real {
    var f2, f4, f6 := 0.13130908, 2.8843198, 0.37448087;
    e.del1 * m.cos(xli - f2) + 2.0 * e.del2 * m.cos(2.0 * (xli - f4)) + 3.0 * e.del3 * m.cos(3.0 * (xli - f6))
  }

  // Near half-day resonance.
  function HalfDayForce(m: Math, e: Resonance, xomi: real, xli: real): real {
    var g22, g32, g44, g52, g54 := 5.7686396, 0.95240898, 1.8014998, 1.0508330, 4.4108898;
    var x2omi, x2li := xomi + xomi, xli + xli;
    e.d2201 * m.sin(x2omi + xli - g22) + e.d2211 * m.sin(xli - g22) +
    e.d3210 * m.sin(xomi + xli - g32) + e.d3222 * m.sin(-xomi + xli - g32) +
    e.d4410 * m.sin(x2omi + x2li - g44) + e.d4422 * m.sin(x2li - g44) +
    e.d5220 * m.sin(xomi + xli - g52) + e.d5232 * m.sin(-xomi + xli - g52) +
    e.d5421 * m.sin(xomi + x2li - g54) + e.d5433 * m.sin(-xomi + x2li - g54)
  }

  function HalfDaySlope(m: Math, e: Resonance, xomi: real, xli: real): real {
    var g22, g32, g44, g52, g54 := 5.7686396, 0.95240898, 1.8014998, 1.0508330, 4.4108898;
    var x2omi, x2li := xomi + xomi, xli + xli;
    e.d2201 * m.cos(x2omi + xli - g22) + e.d2211 * m.cos(xli - g22) +
    e.d3210 * m.cos(xomi + xli - g32) + e.d3222 * m.cos(-xomi + xli - g32) +
    e.d5220 * m.cos(xomi + xli - g52) + e.d5232 * m.cos(-xomi + xli - g52) +
    2.0 * (e.d4410 * m.cos(x2omi + x2li - g44) + e.d4422 * m.cos(x2li - g44) +
           e.d5421 * m.cos(xomi + x2li - g54) + e.d5433 * m.cos(-xomi + x2li - g54))
  }

  function Perigee(e: Resonance, atime: real): real { e.argpo + e.argpdot * atime }

  // Rates at the point the integration has reached.
  function DotsAt(m: Math, e: Resonance, c: Cache): Dots {
    var xldot := c.xni + e.xfact;
    if e.irez != 2 then
      Dots(OneDayForce(m, e, c.xli), xldot, OneDaySlope(m, e, c.xli) * xldot)
    else
      var xomi := Perigee(e, c.atime);
      Dots(HalfDayForce(m, e, xomi, c.xli), xldot, HalfDaySlope(m, e, xomi, c.xli) * xldot)
  }

  // Taylor step of length delt.
  function Moved(c: Cache, d: Dots, delt: real): Cache {
    Cache(c.atime + delt, c.xli + d.xldot * delt + d.xndt * STEP2, c.xni + d.xndt * delt + d.xnddt * STEP2)
  }

  // Mean motion and anomaly at t, from the last whole step c with rates d.
  function Expanded(e: Resonance, theta: real, ft: real, c: Cache, d: Dots, e1: Mean): Mean {
    var nm := c.xni + d.xndt * ft + d.xnddt * ft * ft * 0.5;
    var xl := c.xli + d.xldot * ft + d.xndt * ft * ft * 0.5;
    if e.irez != 1 then
      e1.(mm := xl - 2.0 * e1.nodem + 2.0 * theta, nm := e.no + (nm - e.no))
    else
      e1.(mm := xl - e1.nodem - e1.argpm + theta, nm := e.no + (nm - e.no))
  }

  // Secular third-body drift, which needs no integration.
  function Drifted(e: Resonance, t: real, in0: Mean): Mean {
    Mean(in0.em + e.dedt * t, in0.argpm + e.domdt * t, in0.inclm + e.didt * t, in0.mm + e.dmdt * t, in0.nodem + e.dnodt * t, in0.nm)
  }

  function Theta(m: Math, e: Resonance, t: real): real {
    m.fmod(e.gsto + t * 0.00437526908801129966, TWO_PI)
  }

  // ---------- the reference: integrate from epoch at every query ----------

  function Delt(forward: bool): real { if forward then STEP else -STEP }

  type Rates = Cache -> Dots

  function RatesOf(m: Math, e: Resonance): Rates { c => DotsAt(m, e, c) }

  // k full steps away from epoch.
  function Iterate(rates: Rates, e: Resonance, k: nat, forward: bool): Cache {
    if k == 0 then Cache(0.0, e.xlamo, e.no)
    else
      var c := Iterate(rates, e, k - 1, forward);
      Moved(c, rates(c), Delt(forward))
  }

  // Number of whole steps between epoch and t.
  function StepsTo(t: real): nat {
    (Abs(t) / STEP).Floor
  }

  // What a query at t leaves in the cache.
  function FromEpoch(rates: Rates, e: Resonance, t: real): Cache {
    Iterate(rates, e, StepsTo(t), t > 0.0)
  }

  function DeepSpace(m: Math, e: Resonance, t: real, in0: Mean): Mean {
    var e1 := Drifted(e, t, in0);
    if e.irez != 0 then
      var c := FromEpoch(RatesOf(m, e), e, t);
      Expanded(e, Theta(m, e, t), t - c.atime, c, RatesOf(m, e)(c), e1)
    else e1
  }

  // ---------- where the integration stands ----------

  lemma {:induction false} IterateTime(rates: Rates, e: Resonance, k: nat, forward: bool)
    ensures Iterate(rates, e, k, forward).atime == if forward then k as real * 720.0 else -(k as real * 720.0)
  {
    if k > 0 {
      IterateTime(rates, e, k - 1, forward);
    }
  }

  lemma IterateNext(rates: Rates, e: Resonance, k: nat, forward: bool, c: Cache)
    requires c == Iterate(rates, e, k, forward)
    ensures Iterate(rates, e, k + 1, forward) == Moved(c, rates(c), Delt(forward))
  {
  }

  // A cache some query may have left: a whole number of steps from epoch.
  ghost predicate Reachable(rates: Rates, e: Resonance, c: Cache) {
    e.irez != 0 ==> exists k: nat, forward :: c == Iterate(rates, e, k, forward)
  }

  lemma InitialReachable(rates: Rates, e: Resonance)
    ensures Reachable(rates, e, Cache(0.0, e.xlamo, e.no))
  {
    assert Cache(0.0, e.xlamo, e.no) == Iterate(rates, e, 0, true);
  }

  predicate MustRestart(t: real, atime: real) {
    atime == 0.0 || t * atime <= 0.0 || Abs(t) < Abs(atime)
  }

  /** The integration is resumed exactly when it stands between epoch and t, or at t. */
  lemma ResumedIff(t: real, atime: real)
    ensures !MustRestart(t, atime) <==> 0.0 < atime <= t || t <= atime < 0.0
  {
  }

  /** When the restart test fails, the cache lies on the way from epoch to t. */
  lemma ResumePoint(rates: Rates, e: Resonance, c: Cache, t: real) returns (k: nat)
    requires e.irez != 0 && Reachable(rates, e, c) && !MustRestart(t, c.atime)
    ensures c == Iterate(rates, e, k, t > 0.0) && k as real * 720.0 <= Abs(t) && k == StepsTo(c.atime)
  {
    var k', forward :| c == Iterate(rates, e, k', forward);
    k := k';
    IterateTime(rates, e, k, forward);
    WholeSteps(k, c.atime);
    ResumedIff(t, c.atime);
  }

  lemma WholeSteps(k: nat, atime: real)
    requires Abs(atime) == k as real * 720.0
    ensures StepsTo(atime) == k
  {
    assert Abs(atime) / STEP == k as real;
  }

  // How far is still to go after k steps.
  lemma Remaining(t: real, k: nat, atime: real)
    requires atime == (if t > 0.0 then k as real * 720.0 else -(k as real * 720.0)) && k as real * 720.0 <= Abs(t)
    ensures Abs(t - atime) >= STEP ==> k < StepsTo(t) && (k + 1) as real * 720.0 <= Abs(t)
    ensures Abs(t - atime) < STEP ==> k == StepsTo(t)
  {
    var x := Abs(t) / STEP;
    assert x * 720.0 == Abs(t);
  }

  // The answer, given the state reached and the rates there.
  lemma AnswerFrom(m: Math, e: Resonance, t: real, in0: Mean, c: Cache, d: Dots)
    requires e.irez != 0 && c == FromEpoch(RatesOf(m, e), e, t) && d == RatesOf(m, e)(c)
    ensures DeepSpace(m, e, t, in0) == Expanded(e, Theta(m, e, t), t - c.atime, c, d, Drifted(e, t, in0))
  {
  }

  class DeepSpaceRecord {
    const math: Math
    const e: Resonance
    const rates: Rates
    var atime: real
    var xli: real
    var xni: real

    ghost predicate Valid()
      reads this
    {
      rates == RatesOf(math, e) && Reachable(rates, e, Cache(atime, xli, xni))
    }

    // The state initialization leaves: dsinit sets the integrator up only under resonance.
    constructor (math: Math, e: Resonance)
      ensures this.math == math && this.e == e && Valid()
      ensures atime == 0.0 && (e.irez != 0 ==> xli == e.xlamo && xni == e.no)
    {
      this.math, this.e, rates := math, e, RatesOf(math, e);
      atime, xli, xni := 0.0, if e.irez != 0 then e.xlamo else 0.0, if e.irez != 0 then e.no else 0.0;
      new;
      InitialReachable(rates, e);
    }

    method Move(d: Dots, delt: real)
      modifies this
      ensures Cache(atime, xli, xni) == Moved(old(Cache(atime, xli, xni)), d, delt)
    {
      xli := xli + d.xldot * delt + d.xndt * STEP2;
      xni := xni + d.xndt * delt + d.xnddt * STEP2;
      atime := atime + delt;
    }

    /** The restart test and the integration loop; the rates at the end point are kept. Resuming
        saves the steps that have been made before. */
    method Integrate(t: real) returns (ft: real, d: Dots, ghost steps: nat)
      requires Reachable(rates, e, Cache(atime, xli, xni)) && e.irez != 0
      modifies this
      ensures Cache(atime, xli, xni) == FromEpoch(rates, e, t)
      ensures ft == t - atime && d == rates(Cache(atime, xli, xni))
      ensures steps == StepsTo(t) - if MustRestart(t, old(atime)) then 0 else StepsTo(old(atime))
      ensures Abs(ft) < STEP && (if t > 0.0 then 0.0 <= atime <= t else t <= atime <= 0.0)
    {
      ghost var k := 0;
      if MustRestart(t, atime) {
        atime, xni, xli := 0.0, e.no, e.xlamo;
      } else {
        k := ResumePoint(rates, e, Cache(atime, xli, xni), t);
      }
      ghost var first := k;
      var delt := Delt(t > 0.0);
      ft := 0.0;
      d := Dots(0.0, 0.0, 0.0);
      var iretn := 381;
      while iretn == 381
        invariant Cache(atime, xli, xni) == Iterate(rates, e, k, t > 0.0) && k as real * 720.0 <= Abs(t)
        invariant iretn != 381 ==> Abs(t - atime) < STEP && k == StepsTo(t) && ft == t - atime && d == rates(Cache(atime, xli, xni))
        decreases StepsTo(t) - k, iretn
      {
        IterateTime(rates, e, k, t > 0.0);
        Remaining(t, k, atime);
        d := rates(Cache(atime, xli, xni));
        if Abs(t - atime) >= STEP {
          iretn := 381;
        } else {
          ft := t - atime;
          iretn := 0;
        }
        if iretn == 381 {
          IterateNext(rates, e, k, t > 0.0, Cache(atime, xli, xni));
          Move(d, delt);
          k := k + 1;
        }
      }
      IterateTime(rates, e, k, t > 0.0);
      steps := k - first;
    }

    /** Whatever queries came before, the answer is that of an integration from epoch, and
        so is the state left for the next query. */
    method Dspace(t: real, in0: Mean) returns (out: Mean)
      requires Valid()
      modifies this
      ensures Valid()
      ensures out == DeepSpace(math, e, t, in0)
      ensures if e.irez != 0 then Cache(atime, xli, xni) == FromEpoch(rates, e, t)
              else Cache(atime, xli, xni) == old(Cache(atime, xli, xni))
    {
      var theta := Theta(math, e, t);
      out := Drifted(e, t, in0);
      if e.irez != 0 {
        var ft, d, steps := Integrate(t);
        AnswerFrom(math, e, t, in0, Cache(atime, xli, xni), d);
        out := Expanded(e, theta, ft, Cache(atime, xli, xni), d, out);
      }
    }
  }
}
