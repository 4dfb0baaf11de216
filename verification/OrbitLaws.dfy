/** What the stages of the propagator mean: angles are reduced by whole turns, the iteration
    solves Kepler's equation, an Earth without flattening is circled on a Kepler orbit, and the
    vectors reported lie in the orbital plane. */
module OrbitLaws {
  import opened Integrator
  import opened Sgp4
  import opened Position
  import opened FrameLaws

  // ---------- whole turns ----------

  function Turned(y: real, k: int): real { y + k as real * TWO_PI }

  ghost predicate SameAngle(x: real, y: real) {
    exists k: int :: x == Turned(y, k)
  }

  // Reduction takes off whole turns.
  ghost predicate ExactTurns(m: Math) { forall x :: SameAngle(m.fmod(x, TWO_PI), x) }

  lemma SameAngleAgain(x: real, y: real, z: real)
    requires SameAngle(x, y) && SameAngle(y, z)
    ensures SameAngle(x, z)
  {
    var j: int :| x == Turned(y, j);
    var k: int :| y == Turned(z, k);
    assert x == Turned(z, j + k);
  }

  /** Sidereal time at t minutes is that at epoch plus the Earth's rotation since. */
  lemma SiderealTime(m: Math, e: Resonance, t: real)
    requires ExactTurns(m)
    ensures SameAngle(Theta(m, e, t), e.gsto + 0.00437526908801129966 * t)
  {
    assert SameAngle(Theta(m, e, t), e.gsto + t * 0.00437526908801129966);
  }

  /** Reducing the mean angles changes node, perigee and mean longitude by whole turns only;
      drag moves the longitude and nothing else. */
  lemma ReducedAngles(m: Math, el: Elements, s: Secular, e1: Mean, em: real)
    requires ExactTurns(m)
    ensures var x, a := Dragged(el, s, e1), Reduced(m, Dragged(el, s, e1), em);
      && x.mm - e1.mm == el.res.no * s.templ && x == e1.(mm := x.mm)
      && a.ep == em && a.xincp == x.inclm && SameAngle(a.nodep, x.nodem) && SameAngle(a.argpp, x.argpm)
      && SameAngle(a.mp + a.argpp + a.nodep, x.mm + x.argpm + x.nodem)
  {
    TurnedOnly(m, Dragged(el, s, e1), em);
  }

  lemma TurnedOnly(m: Math, x: Mean, em: real)
    requires ExactTurns(m)
    ensures var a := Reduced(m, x, em);
      && a.ep == em && a.xincp == x.inclm && SameAngle(a.nodep, x.nodem) && SameAngle(a.argpp, x.argpm)
      && SameAngle(a.mp + a.argpp + a.nodep, x.mm + x.argpm + x.nodem)
  {
    var xlm, nodem, argpm := m.fmod(x.mm + x.argpm + x.nodem, TWO_PI), m.fmod(x.nodem, TWO_PI), m.fmod(x.argpm, TWO_PI);
    var mp := m.fmod(xlm - argpm - nodem, TWO_PI);
    assert SameAngle(xlm, x.mm + x.argpm + x.nodem) && SameAngle(nodem, x.nodem) && SameAngle(argpm, x.argpm);
    assert SameAngle(mp, xlm - argpm - nodem);
    Gathered(mp, argpm, nodem, xlm, x.mm + x.argpm + x.nodem);
  }

  lemma Gathered(mp: real, argpm: real, nodem: real, xlm: real, sum: real)
    requires SameAngle(mp, xlm - argpm - nodem) && SameAngle(xlm, sum)
    ensures SameAngle(mp + argpm + nodem, sum)
  {
    var j: int :| mp == Turned(xlm - argpm - nodem, j);
    assert mp + argpm + nodem == Turned(xlm, j);
    SameAngleAgain(mp + argpm + nodem, xlm, sum);
  }

  // ---------- secular elements ----------

  /** Node, perigee and mean anomaly move at their rates; the part of drag that moves the
      perigee moves the mean anomaly back. */
  lemma SecularAngles(m: Math, el: Elements, t: real)
    ensures var s := SecularAt(m, el, t);
      && s.mm + s.argpm == (el.mo + el.mdot * t) + (el.res.argpo + el.res.argpdot * t)
      && s.nodem == el.nodeo + el.nodedot * t + el.nodecf * (t * t)
      && s.mm == (el.mo + el.mdot * t) + if el.isimp then 0.0 else DragTurn(m, el, t)
  {
  }

  // What drag adds to the mean anomaly, growing and swinging with it.
  function DragTurn(m: Math, el: Elements, t: real): real {
    var x := el.eta * m.cos(el.mo + el.mdot * t) + 1.0;
    t * el.omgcof + (x * x * x - el.delmo) * el.xmcof
  }

  /** The drag terms are power series in time, cut off early for the simplified orbits. */
  lemma DragSeries(m: Math, el: Elements, t: real)
    ensures SecularAt(m, el, t).tempa ==
      1.0 - if el.isimp then Series(t, el.cc1, 0.0, 0.0, 0.0) else Series(t, el.cc1, el.d2, el.d3, el.d4)
    ensures SecularAt(m, el, t).templ ==
      t * if el.isimp then Series(t, el.t2cof, 0.0, 0.0, 0.0) else Series(t, el.t2cof, el.t3cof, el.t4cof, el.t5cof)
    ensures SecularAt(m, el, t).tempe ==
      el.bstar * (el.cc4 * t + if el.isimp then 0.0 else el.cc5 * (m.sin(SecularAt(m, el, t).mm) - el.sinmao))
  {
    DragPowers(t, el.cc1, el.d2, el.d3, el.d4);
    LongitudePowers(t, el.t2cof, el.t3cof, el.t4cof, el.t5cof);
  }

  function Series(t: real, a: real, b: real, c: real, d: real): real { t * (a + t * (b + t * (c + t * d))) }

  lemma DragPowers(t: real, a: real, b: real, c: real, d: real)
    ensures Series(t, a, 0.0, 0.0, 0.0) == a * t
    ensures var t2 := t * t; var t3 := t2 * t; var t4 := t3 * t;
      1.0 - a * t - b * t2 - c * t3 - d * t4 == 1.0 - Series(t, a, b, c, d)
  {
  }

  lemma LongitudePowers(t: real, a: real, b: real, c: real, d: real)
    ensures t * Series(t, a, 0.0, 0.0, 0.0) == a * (t * t)
    ensures var t2 := t * t; var t3 := t2 * t; var t4 := t3 * t;
      a * t2 + b * t3 + t4 * (c + t * d) == t * Series(t, a, b, c, d)
  {
  }

  /** At epoch nothing has drifted, if the two constants of the drag terms are those that
      initialization computes from the mean anomaly. */
  lemma SecularAtEpoch(m: Math, el: Elements)
    requires var x := 1.0 + el.eta * m.cos(el.mo); el.delmo == x * x * x
    requires el.sinmao == m.sin(el.mo)
    ensures SecularAt(m, el, 0.0) == Secular(el.mo, el.res.argpo, el.nodeo, 1.0, 0.0, 0.0)
  {
    SecularAngles(m, el, 0.0);
    DragSeries(m, el, 0.0);
    NoTurnAtEpoch(m, el);
  }

  lemma NoTurnAtEpoch(m: Math, el: Elements)
    requires var x := 1.0 + el.eta * m.cos(el.mo); el.delmo == x * x * x
    ensures DragTurn(m, el, 0.0) == 0.0
  {
    var phase := el.mo + el.mdot * 0.0;
    assert phase == el.mo;
    var x := el.eta * m.cos(phase) + 1.0;
    assert x * x * x == el.delmo;
  }

  // ---------- Kepler's equation ----------

  // How far an eccentric anomaly is from solving Kepler's equation.
  function Residual(m: Math, k: Kepler, eo1: real): real {
    k.u - (eo1 - k.axnl * m.sin(eo1) + k.aynl * m.cos(eo1))
  }

  // The derivative of Kepler's equation, by which the residual is divided.
  function Slope(m: Math, k: Kepler, eo1: real): real {
    1.0 - (k.axnl * m.cos(eo1) + k.aynl * m.sin(eo1))
  }

  /** A round takes the Newton step, and at most 0.95 of an angle, in its direction. */
  lemma LimitedStep(m: Math, k: Kepler, eo1: real)
    requires ExactDivision(m) && Slope(m, k, eo1) != 0.0
    ensures var d, newton := Correction(m, k, eo1), NewtonStep(m, k, eo1);
      && newton * Slope(m, k, eo1) == Residual(m, k, eo1)
      && (Abs(newton) <= 0.95 ==> d == newton) && (newton > 0.95 ==> d == 0.95) && (newton < -0.95 ==> d == -0.95)
  {
    assert Divides(m, Numerator(m, k, eo1), Denominator(m, k, eo1));
  }

  function NewtonStep(m: Math, k: Kepler, eo1: real): real { m.div(Numerator(m, k, eo1), Denominator(m, k, eo1)) }

  /** Sine and cosine are those of one number, and it solves Kepler's equation up to 1e-12 times
      the slope there, unless ten rounds have been made or the slope is zero. */
  lemma AnomalySolves(m: Math, k: Kepler) returns (eo1: real, rounds: nat)
    requires ExactDivision(m)
    ensures 1 <= rounds <= 10 && Anomaly(m, k, k.u, 9999.9, 1, (0.0, 0.0)) == (m.sin(eo1), m.cos(eo1))
    ensures rounds == 10 || Slope(m, k, eo1) == 0.0 || Abs(Residual(m, k, eo1)) < 0.000000000001 * Abs(Slope(m, k, eo1))
  {
    var d := Correction(m, k, k.u);
    eo1, rounds := LastRound(m, k, k.u, d, 1);
  }

  // The rounds after one at eo1 that made the correction d.
  lemma {:induction false} LastRound(m: Math, k: Kepler, eo1: real, d: real, ktr: nat) returns (last: real, rounds: nat)
    requires ExactDivision(m) && 1 <= ktr <= 10 && d == Correction(m, k, eo1)
    ensures ktr <= rounds <= 10 && Anomaly(m, k, eo1 + d, d, ktr + 1, (m.sin(eo1), m.cos(eo1))) == (m.sin(last), m.cos(last))
    ensures rounds == 10 || Slope(m, k, last) == 0.0 || Abs(Residual(m, k, last)) < 0.000000000001 * Abs(Slope(m, k, last))
    decreases 10 - ktr
  {
    last, rounds := eo1, ktr;
    if Abs(d) >= 0.000000000001 && ktr < 10 {
      last, rounds := LastRound(m, k, eo1 + d, Correction(m, k, eo1 + d), ktr + 1);
    } else if ktr < 10 && Slope(m, k, eo1) != 0.0 {
      SmallCorrection(m, k, eo1, d);
    }
  }

  lemma SmallCorrection(m: Math, k: Kepler, eo1: real, d: real)
    requires ExactDivision(m) && d == Correction(m, k, eo1) && Abs(d) < 0.000000000001 && Slope(m, k, eo1) != 0.0
    ensures Abs(Residual(m, k, eo1)) < 0.000000000001 * Abs(Slope(m, k, eo1))
  {
    LimitedStep(m, k, eo1);
    SmallProduct(d, Slope(m, k, eo1), 0.000000000001);
  }

  lemma SmallProduct(d: real, y: real, bound: real)
    requires Abs(d) < bound && y != 0.0
    ensures Abs(d * y) < bound * Abs(y)
  {
    if y > 0.0 {
      assert d * y < bound * y && -d * y < bound * y;
    } else {
      assert d * -y < bound * -y && -d * -y < bound * -y;
    }
  }

  // ---------- a round Earth ----------

  // A point of an orbit that is not a fall through the centre.
  ghost predicate Orbiting(m: Math, am: real, k: Kepler, sc: (real, real)) {
    && ExactDivision(m) && ExactRoot(m) && am > 0.0 && Latus(am, k) >= 0.0
    && sc.0 * sc.0 + sc.1 * sc.1 == 1.0 && Ecose(k, sc) != 1.0
  }

  // What the formulas for the orbit amount to once divisions are multiplied out: q is the
  // quotient of am and rl, ra and rp are the roots of am and pl.
  ghost predicate Rates(am: real, pl: real, rl: real, esine: real, ra: real, rp: real, o: Conic) {
    o.rl == rl && ra * ra == am && rp * rp == pl && o.rdotl * rl == ra * esine && o.rvdotl * rl == rp
  }

  ghost predicate Place(am: real, rl: real, betal: real, temp: real, q: real, k: Kepler, sc: (real, real), o: Conic) {
    && o.rl == rl && o.betal == betal && q * rl == am
    && o.sinu == q * (sc.0 - k.aynl - k.axnl * temp) && o.cosu == q * (sc.1 - k.axnl + k.aynl * temp)
  }

  lemma ConicRates(m: Math, am: real, pl: real, rl: real, betal: real, esine: real, temp: real, k: Kepler, sc: (real, real))
    requires ExactDivision(m) && ExactRoot(m) && am > 0.0 && pl >= 0.0 && rl != 0.0
    ensures Rates(am, pl, rl, esine, m.sqrt(am), m.sqrt(pl), ConicAt(m, am, pl, rl, betal, esine, temp, k, sc))
  {
    var o := ConicAt(m, am, pl, rl, betal, esine, temp, k, sc);
    assert IsRoot(m, am) && IsRoot(m, pl);
    Quotient(m, Radial(m, am, esine), rl, o.rdotl);
    Quotient(m, m.sqrt(pl), rl, o.rvdotl);
  }

  lemma ConicPlace(m: Math, am: real, pl: real, rl: real, betal: real, esine: real, temp: real, k: Kepler, sc: (real, real))
    requires ExactDivision(m) && rl != 0.0
    ensures Place(am, rl, betal, temp, m.div(am, rl), k, sc, ConicAt(m, am, pl, rl, betal, esine, temp, k, sc))
  {
    assert Divides(m, am, rl);
  }

  lemma Quotient(m: Math, x: real, y: real, q: real)
    requires ExactDivision(m) && y != 0.0 && q == m.div(x, y)
    ensures q * y == x
  {
    assert Divides(m, x, y);
  }

  lemma Root(m: Math, x: real, r: real)
    requires ExactRoot(m) && x >= 0.0 && r == m.sqrt(x)
    ensures r >= 0.0 && r * r == x
  {
    assert IsRoot(m, x);
  }

  // The distance at an eccentric anomaly.
  ghost predicate Sums(am: real, k: Kepler, sc: (real, real), rl: real) {
    am > 0.0 && sc.0 * sc.0 + sc.1 * sc.1 == 1.0 && Ecose(k, sc) != 1.0 && rl == am * (1.0 - Ecose(k, sc))
  }

  lemma PlaceOf(m: Math, am: real, k: Kepler, sc: (real, real)) returns (rl: real, betal: real, temp: real, q: real)
    requires Orbiting(m, am, k, sc)
    ensures Sums(am, k, sc, rl)
    ensures Place(am, rl, betal, temp, q, k, sc, ConicOf(m, am, k, sc))
    ensures betal >= 0.0 && betal * betal == 1.0 - El2(k) && temp * (1.0 + betal) == Esine(k, sc)
  {
    rl, betal := am * (1.0 - Ecose(k, sc)), m.sqrt(1.0 - El2(k));
    NotNegative(am, 1.0 - El2(k));
    NotZero(am, 1.0 - Ecose(k, sc));
    Root(m, 1.0 - El2(k), betal);
    temp, q := m.div(Esine(k, sc), 1.0 + betal), m.div(am, rl);
    Quotient(m, Esine(k, sc), 1.0 + betal, temp);
    ConicPlace(m, am, Latus(am, k), rl, betal, Esine(k, sc), temp, k, sc);
  }

  lemma RatesOf(m: Math, am: real, k: Kepler, sc: (real, real)) returns (rl: real, ra: real, rp: real)
    requires Orbiting(m, am, k, sc)
    ensures Sums(am, k, sc, rl)
    ensures Rates(am, Latus(am, k), rl, Esine(k, sc), ra, rp, ConicOf(m, am, k, sc))
  {
    rl, ra, rp := am * (1.0 - Ecose(k, sc)), m.sqrt(am), m.sqrt(Latus(am, k));
    NotZero(am, 1.0 - Ecose(k, sc));
    var betal := m.sqrt(1.0 - El2(k));
    ConicRates(m, am, Latus(am, k), rl, betal, Esine(k, sc), m.div(Esine(k, sc), 1.0 + betal), k, sc);
  }

  lemma NotNegative(a: real, b: real)
    requires a > 0.0 && a * b >= 0.0
    ensures b >= 0.0
  {
    assert b < 0.0 ==> a * b < 0.0;
  }

  lemma NotZero(a: real, b: real)
    requires a > 0.0 && b != 0.0
    ensures a * b != 0.0
  {
  }

  // Coordinates in the orbital plane, from the ascending node; momentum and square of speed.
  function Abscissa(o: Conic): real { o.rl * o.cosu }
  function Ordinate(o: Conic): real { o.rl * o.sinu }
  function Momentum(o: Conic): real { o.rl * o.rvdotl }
  function Speed2(o: Conic): real { o.rdotl * o.rdotl + o.rvdotl * o.rvdotl }

  /** Kepler's first law: the orbit is a conic with the Earth's centre in its focus. */
  lemma FirstLaw(m: Math, am: real, k: Kepler, sc: (real, real))
    requires Orbiting(m, am, k, sc)
    ensures var o := ConicOf(m, am, k, sc); o.rl + k.axnl * Abscissa(o) + k.aynl * Ordinate(o) == Latus(am, k)
  {
    var rl, betal, temp, q := PlaceOf(m, am, k, sc);
    var o := ConicOf(m, am, k, sc);
    Coordinates(am, k, sc, rl, betal, temp, q, o);
    AlongVector(am, k.axnl, k.aynl, sc.0, sc.1, temp, Abscissa(o), Ordinate(o), Ecose(k, sc), El2(k));
  }

  lemma Coordinates(am: real, k: Kepler, sc: (real, real), rl: real, betal: real, temp: real, q: real, o: Conic)
    requires Place(am, rl, betal, temp, q, k, sc, o)
    ensures Abscissa(o) == am * (sc.1 - k.axnl + k.aynl * temp) && Ordinate(o) == am * (sc.0 - k.aynl - k.axnl * temp)
  {
    Regroup(rl, q, sc.1 - k.axnl + k.aynl * temp, am);
    Regroup(rl, q, sc.0 - k.aynl - k.axnl * temp, am);
  }

  lemma Regroup(rl: real, q: real, x: real, am: real)
    requires q * rl == am
    ensures rl * (q * x) == am * x
  {
    assert rl * (q * x) == (q * rl) * x;
  }

  lemma AlongVector(am: real, ax: real, ay: real, s: real, c: real, t: real, x: real, y: real, ecose: real, el2: real)
    requires ecose == ax * c + ay * s && el2 == ax * ax + ay * ay
    requires x == am * (c - ax + ay * t) && y == am * (s - ay - ax * t)
    ensures am * (1.0 - ecose) + ax * x + ay * y == am * (1.0 - el2)
  {
    var p, r := c - ax + ay * t, s - ay - ax * t;
    assert ax * p + ay * r == ecose - el2;
    assert ax * (am * p) + ay * (am * r) == am * (ax * p + ay * r);
  }

  function Circle(o: Conic): real { o.sinu * o.sinu + o.cosu * o.cosu }

  /** The argument of latitude is a true angle. */
  lemma UnitAngle(m: Math, am: real, k: Kepler, sc: (real, real))
    requires Orbiting(m, am, k, sc)
    ensures Circle(ConicOf(m, am, k, sc)) == 1.0
  {
    var rl, betal, temp, q := PlaceOf(m, am, k, sc);
    UnitConic(am, k, sc, rl, betal, temp, q, Ecose(k, sc), Esine(k, sc), El2(k), ConicOf(m, am, k, sc));
  }

  lemma UnitConic(am: real, k: Kepler, sc: (real, real), rl: real, betal: real, temp: real, q: real, ecose: real, esine: real, el2: real, o: Conic)
    requires Place(am, rl, betal, temp, q, k, sc, o) && am > 0.0 && rl == am * (1.0 - ecose) && sc.0 * sc.0 + sc.1 * sc.1 == 1.0
    requires ecose == Ecose(k, sc) && esine == Esine(k, sc) && el2 == El2(k)
    requires betal * betal == 1.0 - el2 && temp * (1.0 + betal) == esine
    ensures Circle(o) == 1.0
  {
    var x, y := sc.1 - k.axnl + k.aynl * temp, sc.0 - k.aynl - k.axnl * temp;
    Inside(k.axnl, k.aynl, sc.0, sc.1, temp, betal, ecose, esine, el2, x, y);
    Unit(am, rl, 1.0 - ecose, q, x, y);
  }

  lemma Unit(am: real, rl: real, w: real, q: real, x: real, y: real)
    requires am > 0.0 && rl == am * w && q * rl == am && x * x + y * y == w * w
    ensures (q * y) * (q * y) + (q * x) * (q * x) == 1.0
  {
    Cancel(am, q * w, 1.0);
    assert (q * y) * (q * y) + (q * x) * (q * x) == (q * q) * (x * x + y * y);
    assert (q * q) * (w * w) == (q * w) * (q * w);
  }

  lemma Cancel(r: real, x: real, y: real)
    requires r != 0.0 && r * x == r * y
    ensures x == y
  {
    assert r * (x - y) == 0.0;
  }

  // The square of the distance over the semi-major axis, without dividing by it.
  lemma Inside(ax: real, ay: real, s: real, c: real, t: real, beta: real, ecose: real, esine: real, el2: real, x: real, y: real)
    requires s * s + c * c == 1.0 && ecose == ax * c + ay * s && esine == ax * s - ay * c && el2 == ax * ax + ay * ay
    requires beta * beta == 1.0 - el2 && t * (1.0 + beta) == esine
    requires x == c - ax + ay * t && y == s - ay - ax * t
    ensures x * x + y * y == (1.0 - ecose) * (1.0 - ecose)
  {
    Expanding(ax, ay, s, c, t, ecose, esine, el2, x, y);
    Halving(t, beta, esine, el2);
    Pythagoras(ax, ay, s, c, ecose, esine, el2);
  }

  lemma Expanding(ax: real, ay: real, s: real, c: real, t: real, ecose: real, esine: real, el2: real, x: real, y: real)
    requires s * s + c * c == 1.0 && ecose == ax * c + ay * s && esine == ax * s - ay * c && el2 == ax * ax + ay * ay
    requires x == c - ax + ay * t && y == s - ay - ax * t
    ensures x * x + y * y == 1.0 - 2.0 * ecose + el2 - 2.0 * (t * esine) + (t * t) * el2
  {
    var p, r := c - ax, s - ay;
    assert x * x == p * p + 2.0 * (t * (p * ay)) + (t * t) * (ay * ay);
    assert y * y == r * r - 2.0 * (t * (r * ax)) + (t * t) * (ax * ax);
    assert p * p + r * r == 1.0 - 2.0 * ecose + el2;
    assert t * (p * ay) - t * (r * ax) == -(t * esine);
  }

  lemma Halving(t: real, beta: real, esine: real, el2: real)
    requires beta * beta == 1.0 - el2 && t * (1.0 + beta) == esine
    ensures (t * t) * el2 - 2.0 * (t * esine) == -(esine * esine)
  {
    assert (t * t) * (1.0 - beta * beta) == (t * (1.0 + beta)) * (t * (1.0 - beta));
    assert esine * (t * (1.0 - beta)) - 2.0 * (t * esine) == -(esine * (t * (1.0 + beta)));
  }

  lemma Pythagoras(ax: real, ay: real, s: real, c: real, ecose: real, esine: real, el2: real)
    requires s * s + c * c == 1.0 && ecose == ax * c + ay * s && esine == ax * s - ay * c && el2 == ax * ax + ay * ay
    ensures ecose * ecose + esine * esine == el2
  {
    assert ecose * ecose + esine * esine == (ax * ax + ay * ay) * (s * s + c * c);
  }

  /** Momentum and energy: the square of distance times speed across is the semi-latus rectum,
      and the square of the speed is 2 / r - 1 / a. */
  lemma MomentumAndEnergy(m: Math, am: real, k: Kepler, sc: (real, real))
    requires Orbiting(m, am, k, sc)
    ensures var o := ConicOf(m, am, k, sc);
      Momentum(o) * Momentum(o) == Latus(am, k) && Speed2(o) * (o.rl * am) == 2.0 * am - o.rl
  {
    var rl, ra, rp := RatesOf(m, am, k, sc);
    Pythagoras(k.axnl, k.aynl, sc.0, sc.1, Ecose(k, sc), Esine(k, sc), El2(k));
    MovingConic(am, rl, Ecose(k, sc), Esine(k, sc), El2(k), Latus(am, k), ra, rp, ConicOf(m, am, k, sc));
  }

  lemma MovingConic(am: real, rl: real, ecose: real, esine: real, el2: real, pl: real, ra: real, rp: real, o: Conic)
    requires am > 0.0 && ecose != 1.0 && rl == am * (1.0 - ecose) && ecose * ecose + esine * esine == el2
    requires pl == am * (1.0 - el2) && Rates(am, pl, rl, esine, ra, rp, o)
    ensures Momentum(o) * Momentum(o) == pl && Speed2(o) * (o.rl * am) == 2.0 * am - o.rl
  {
    Energy(am, rl, ecose, esine, el2, ra, rp, o.rdotl, o.rvdotl);
  }

  lemma Energy(am: real, rl: real, ecose: real, esine: real, el2: real, ra: real, rp: real, u: real, v: real)
    requires am > 0.0 && ecose != 1.0 && rl == am * (1.0 - ecose) && ecose * ecose + esine * esine == el2
    requires ra * ra == am && rp * rp == am * (1.0 - el2) && u * rl == ra * esine && v * rl == rp
    ensures (rl * v) * (rl * v) == am * (1.0 - el2)
    ensures (u * u + v * v) * (rl * am) == 2.0 * am - rl
  {
    var v2 := u * u + v * v;
    assert (u * rl) * (u * rl) == am * (esine * esine) by {
      assert (ra * esine) * (ra * esine) == (ra * ra) * (esine * esine);
    }
    assert v2 * (rl * rl) == (u * rl) * (u * rl) + (v * rl) * (v * rl);
    assert v2 * (rl * rl) == am * (1.0 - ecose * ecose);
    assert am * (1.0 - ecose * ecose) == rl * (1.0 + ecose);
    NotZero(am, 1.0 - ecose);
    Cancel(rl, v2 * rl, 1.0 + ecose);
    assert v2 * (rl * am) == am * (v2 * rl);
  }
}
