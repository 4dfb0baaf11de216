/** What the steps and answers of the resonance integrator mean: its rates are those of a sum
    of resonance terms, a step is the expansion used within steps, and motions that an
    expansion describes exactly are reproduced exactly at every time. */
module IntegratorLaws {
  import opened Integrator

  // ---------- the rates ----------

  // The sum of the resonance terms with the function g for the sine, and each term that turns
  // twice or three times as fast as the longitude weighted by w2 or w3.
  function OneDaySum(e: Resonance, xli: real, g: real -> real, w2: real, w3: real): real {
    e.del1 * g(xli - 0.13130908) + w2 * (e.del2 * g(2.0 * (xli - 2.8843198))) + w3 * (e.del3 * g(3.0 * (xli - 0.37448087)))
  }

  function HalfDaySum(e: Resonance, xomi: real, xli: real, g: real -> real, w2: real): real {
    e.d2201 * g(xomi + xomi + xli - 5.7686396) + e.d2211 * g(xli - 5.7686396) +
    e.d3210 * g(xomi + xli - 0.95240898) + e.d3222 * g(-xomi + xli - 0.95240898) +
    e.d5220 * g(xomi + xli - 1.0508330) + e.d5232 * g(-xomi + xli - 1.0508330) +
    w2 * (e.d4410 * g(xomi + xomi + (xli + xli) - 1.8014998) + e.d4422 * g(xli + xli - 1.8014998) +
          e.d5421 * g(xomi + (xli + xli) - 4.4108898) + e.d5433 * g(-xomi + (xli + xli) - 4.4108898))
  }

  lemma OneDayRates(m: Math, e: Resonance, xli: real)
    ensures OneDayForce(m, e, xli) == OneDaySum(e, xli, m.sin, 1.0, 1.0)
    ensures OneDaySlope(m, e, xli) == OneDaySum(e, xli, m.cos, 2.0, 3.0)
  {
  }

  /** The slope of the resonance force along the longitude is its derivative: every sine becomes
      a cosine, weighted by the number of times its angle turns with the longitude. */
  lemma HalfDayRates(m: Math, e: Resonance, xomi: real, xli: real)
    ensures HalfDayForce(m, e, xomi, xli) == HalfDaySum(e, xomi, xli, m.sin, 1.0)
    ensures HalfDaySlope(m, e, xomi, xli) == HalfDaySum(e, xomi, xli, m.cos, 2.0)
  {
  }

  /** The rates at a point are those sums, taken where the perigee has moved to, and the second
      rate is the slope times the rate of the longitude. */
  lemma ResonanceRates(m: Math, e: Resonance, c: Cache)
    ensures var d, perigee := DotsAt(m, e, c), Perigee(e, c.atime);
      && perigee - e.argpo == e.argpdot * c.atime
      && d.xldot == c.xni + e.xfact
      && d.xndt == (if e.irez == 2 then HalfDaySum(e, perigee, c.xli, m.sin, 1.0) else OneDaySum(e, c.xli, m.sin, 1.0, 1.0))
      && d.xnddt == d.xldot * (if e.irez == 2 then HalfDaySum(e, perigee, c.xli, m.cos, 2.0) else OneDaySum(e, c.xli, m.cos, 2.0, 3.0))
  {
    HalfDayRates(m, e, Perigee(e, c.atime), c.xli);
    OneDayRates(m, e, c.xli);
  }

  // ---------- the steps ----------

  // A quantity with the given value, rate and second rate, x later.
  function Taylor(value: real, rate: real, second: real, x: real): real {
    value + rate * x + second * x * x / 2.0
  }

  // The longitude a mean anomaly stands for, at sidereal angle theta.
  function Longitude(e: Resonance, theta: real, x: Mean): real {
    if e.irez == 1 then x.mm + x.nodem + x.argpm - theta else x.mm + 2.0 * x.nodem - 2.0 * theta
  }

  /** A whole step of either sign is the expansion used within steps, taken at full length. */
  lemma StepIsExpansion(e: Resonance, theta: real, c: Cache, d: Dots, e1: Mean, forward: bool)
    ensures var s, x := Moved(c, d, Delt(forward)), Expanded(e, theta, Delt(forward), c, d, e1);
      x.nm == s.xni && Longitude(e, theta, x) == s.xli
  {
  }

  lemma ExpandedIs(e: Resonance, theta: real, ft: real, c: Cache, d: Dots, e1: Mean)
    ensures var x := Expanded(e, theta, ft, c, d, e1);
      && x.nm == Taylor(c.xni, d.xndt, d.xnddt, ft) && Longitude(e, theta, x) == Taylor(c.xli, d.xldot, d.xndt, ft)
      && x == e1.(mm := x.mm, nm := x.nm)
  {
  }

  // The mean motion accelerates by a, which itself grows by b, whatever the state.
  ghost predicate Steady(rates: Rates, f: real, a: real, b: real) {
    forall c :: rates(c) == Dots(a + b * c.atime, c.xni + f, b)
  }

  lemma TaylorGoesOn(value: real, a: real, b: real, x: real, y: real)
    ensures Taylor(Taylor(value, a, b, x), a + b * x, b, y) == Taylor(value, a, b, x + y)
  {
  }

  // The state of a steady motion from epoch on.
  ghost predicate OnTrack(e: Resonance, c: Cache, f: real, a: real, b: real) {
    c.xni == Taylor(e.no, a, b, c.atime) && (b == 0.0 ==> c.xli == Taylor(e.xlamo, e.no + f, a, c.atime))
  }

  // At every whole step the state is the one of a steady motion from epoch on.
  lemma {:induction false} SteadySteps(rates: Rates, e: Resonance, k: nat, forward: bool, f: real, a: real, b: real)
    requires Steady(rates, f, a, b)
    ensures OnTrack(e, Iterate(rates, e, k, forward), f, a, b)
  {
    if k > 0 {
      SteadySteps(rates, e, k - 1, forward, f, a, b);
      NextStep(rates, e, k - 1, forward, f, a, b);
    }
  }

  lemma NextStep(rates: Rates, e: Resonance, k: nat, forward: bool, f: real, a: real, b: real)
    requires Steady(rates, f, a, b) && OnTrack(e, Iterate(rates, e, k, forward), f, a, b)
    ensures OnTrack(e, Iterate(rates, e, k + 1, forward), f, a, b)
  {
    var c := Iterate(rates, e, k, forward);
    IterateNext(rates, e, k, forward, c);
    SteadyStep(c, rates(c), e, Delt(forward), f, a, b);
  }

  lemma SteadyStep(c: Cache, d: Dots, e: Resonance, delt: real, f: real, a: real, b: real)
    requires delt == STEP || delt == -STEP
    requires d == Dots(a + b * c.atime, c.xni + f, b) && OnTrack(e, c, f, a, b)
    ensures OnTrack(e, Moved(c, d, delt), f, a, b)
  {
    assert delt * delt == 2.0 * STEP2;
    TaylorGoesOn(e.no, a, b, c.atime, delt);
    if b == 0.0 {
      TaylorGoesOn(e.xlamo, e.no + f, a, c.atime, delt);
    }
  }

  /** At any time, before or after epoch and however many steps away, the answer is exact for
      motions that the expansion describes exactly: the mean motion for a steadily growing
      acceleration, and the longitude for a constant one. */
  lemma SteadyAnswer(m: Math, e: Resonance, t: real, in0: Mean, f: real, a: real, b: real)
    requires e.irez != 0 && Steady(RatesOf(m, e), f, a, b)
    ensures var x := DeepSpace(m, e, t, in0);
      && x.nm == Taylor(e.no, a, b, t)
      && (b == 0.0 ==> Longitude(e, Theta(m, e, t), x) == Taylor(e.xlamo, e.no + f, a, t))
  {
    var c, d := LastStep(RatesOf(m, e), e, t, f, a, b);
    AnswerFrom(m, e, t, in0, c, d);
    SteadyWithin(e, Theta(m, e, t), t, c, d, Drifted(e, t, in0), f, a, b);
  }

  lemma LastStep(rates: Rates, e: Resonance, t: real, f: real, a: real, b: real) returns (c: Cache, d: Dots)
    requires Steady(rates, f, a, b)
    ensures c == FromEpoch(rates, e, t) && d == rates(c) == Dots(a + b * c.atime, c.xni + f, b)
    ensures OnTrack(e, c, f, a, b)
  {
    c := FromEpoch(rates, e, t);
    d := rates(c);
    SteadySteps(rates, e, StepsTo(t), t > 0.0, f, a, b);
  }

  // From the last step to the time of the query.
  lemma SteadyWithin(e: Resonance, theta: real, t: real, c: Cache, d: Dots, e1: Mean, f: real, a: real, b: real)
    requires d == Dots(a + b * c.atime, c.xni + f, b)
    requires OnTrack(e, c, f, a, b)
    ensures var x := Expanded(e, theta, t - c.atime, c, d, e1);
      && x.nm == Taylor(e.no, a, b, t)
      && (b == 0.0 ==> Longitude(e, theta, x) == Taylor(e.xlamo, e.no + f, a, t))
  {
    ExpandedIs(e, theta, t - c.atime, c, d, e1);
    TaylorGoesOn(e.no, a, b, c.atime, t - c.atime);
    if b == 0.0 {
      assert d.xndt == a && d.xldot == (e.no + f) + a * c.atime;
      TaylorGoesOn(e.xlamo, e.no + f, a, c.atime, t - c.atime);
    }
  }

  // The terms of the resonance vanish.
  ghost predicate Quiet(e: Resonance) {
    if e.irez != 2 then e.del1 == e.del2 == e.del3 == 0.0
    else e.d2201 == e.d2211 == e.d3210 == e.d3222 == e.d4410 == e.d4422 == e.d5220 == e.d5232 == e.d5421 == e.d5433 == 0.0
  }

  /** Without resonance terms the satellite moves uniformly. */
  lemma UniformMotion(m: Math, e: Resonance, t: real, in0: Mean)
    requires e.irez != 0 && Quiet(e)
    ensures var x := DeepSpace(m, e, t, in0);
      x.nm == e.no && Longitude(e, Theta(m, e, t), x) == e.xlamo + (e.no + e.xfact) * t
  {
    QuietIsSteady(m, e);
    var c, d := LastStep(RatesOf(m, e), e, t, e.xfact, 0.0, 0.0);
    AnswerFrom(m, e, t, in0, c, d);
    UniformWithin(e, Theta(m, e, t), t, c, d, Drifted(e, t, in0));
  }

  lemma UniformWithin(e: Resonance, theta: real, t: real, c: Cache, d: Dots, e1: Mean)
    requires d == Dots(0.0 + 0.0 * c.atime, c.xni + e.xfact, 0.0) && OnTrack(e, c, e.xfact, 0.0, 0.0)
    ensures var x := Expanded(e, theta, t - c.atime, c, d, e1);
      x.nm == e.no && Longitude(e, theta, x) == e.xlamo + (e.no + e.xfact) * t
  {
    SteadyWithin(e, theta, t, c, d, e1, e.xfact, 0.0, 0.0);
  }

  lemma QuietIsSteady(m: Math, e: Resonance)
    requires Quiet(e)
    ensures Steady(RatesOf(m, e), e.xfact, 0.0, 0.0)
  {
    forall c ensures RatesOf(m, e)(c) == Dots(0.0 + 0.0 * c.atime, c.xni + e.xfact, 0.0) {
      QuietRates(m, e, c);
    }
  }

  lemma QuietRates(m: Math, e: Resonance, c: Cache)
    requires Quiet(e)
    ensures DotsAt(m, e, c) == Dots(0.0, c.xni + e.xfact, 0.0)
  {
  }

  /** Whether or not the orbit resonates, each of the other elements drifts from its value at
      epoch by its own rate. */
  lemma SecularDrift(m: Math, e: Resonance, t: real, in0: Mean)
    ensures var x := DeepSpace(m, e, t, in0);
      && x.em == in0.em + e.dedt * t && x.inclm == in0.inclm + e.didt * t
      && x.argpm == in0.argpm + e.domdt * t && x.nodem == in0.nodem + e.dnodt * t
      && (e.irez == 0 ==> x.mm == in0.mm + e.dmdt * t && x.nm == in0.nm)
  {
    if e.irez != 0 {
      var c := FromEpoch(RatesOf(m, e), e, t);
      DriftKept(m, e, t, in0, c, RatesOf(m, e)(c));
    }
  }

  lemma DriftKept(m: Math, e: Resonance, t: real, in0: Mean, c: Cache, d: Dots)
    requires e.irez != 0 && c == FromEpoch(RatesOf(m, e), e, t) && d == RatesOf(m, e)(c)
    ensures var x, y := DeepSpace(m, e, t, in0), Drifted(e, t, in0);
      x.em == y.em && x.inclm == y.inclm && x.argpm == y.argpm && x.nodem == y.nodem
  {
    AnswerFrom(m, e, t, in0, c, d);
  }
}
