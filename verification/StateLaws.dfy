/** What is reported lies on an orbit: the vectors span its plane, distance and speed are those
    of the short-period quantities, and these differ from a Kepler orbit by the flattening of
    the Earth only. */
module StateLaws {
  import opened Integrator
  import opened Sgp4
  import opened Position
  import opened FrameLaws
  import opened OrbitLaws

  function Dot(u: Vector, v: Vector): real { u.x * v.x + u.y * v.y + u.z * v.z }

  function Cross(u: Vector, v: Vector): Vector {
    Vector(u.y * v.z - u.z * v.y, u.z * v.x - u.x * v.z, u.x * v.y - u.y * v.x)
  }

  // ---------- the orbital plane ----------

  // The ascending node, and the direction about which the satellite turns.
  function NodeLine(m: Math, s: Short): Vector { Vector(m.cos(s.xnode), m.sin(s.xnode), 0.0) }

  function Pole(m: Math, s: Short): Vector {
    Vector(m.sin(s.xnode) * m.sin(s.xinc), -m.cos(s.xnode) * m.sin(s.xinc), m.cos(s.xinc))
  }

  /** The direction to the satellite makes the argument of latitude with the ascending node, and
      turns towards the direction of motion, about the pole of the orbit. */
  lemma OrbitalPlane(m: Math, s: Short)
    requires Trigonometric(m)
    ensures Dot(Towards(m, s), NodeLine(m, s)) == m.cos(s.su) && Dot(Along(m, s), NodeLine(m, s)) == -m.sin(s.su)
    ensures Cross(Towards(m, s), Along(m, s)) == Pole(m, s)
  {
    FromNode(m, s);
    PoleXY(m, s);
    PoleZ(m, s);
  }

  lemma FromNode(m: Math, s: Short)
    requires Trigonometric(m)
    ensures Dot(Towards(m, s), NodeLine(m, s)) == m.cos(s.su) && Dot(Along(m, s), NodeLine(m, s)) == -m.sin(s.su)
  {
    assert Circular(m, s.xnode);
    OnNodeLine(m.sin(s.xnode), m.cos(s.xnode), m.cos(s.xinc), m.sin(s.su), m.cos(s.su));
    OnNodeLine(m.sin(s.xnode), m.cos(s.xnode), m.cos(s.xinc), m.cos(s.su), -m.sin(s.su));
  }

  lemma OnNodeLine(sn: real, cn: real, ci: real, a: real, b: real)
    requires sn * sn + cn * cn == 1.0
    ensures (-sn * ci * a + cn * b) * cn + (cn * ci * a + sn * b) * sn == b
  {
  }

  lemma PoleXY(m: Math, s: Short)
    requires Trigonometric(m)
    ensures var c, n := Cross(Towards(m, s), Along(m, s)), Pole(m, s); c.x == n.x && c.y == n.y
  {
    assert Circular(m, s.su);
    var sn, cn, si, ci, su, cu := m.sin(s.xnode), m.cos(s.xnode), m.sin(s.xinc), m.cos(s.xinc), m.sin(s.su), m.cos(s.su);
    var u, v := Towards(m, s), Along(m, s);
    Wedge(cn * ci, sn, si, su, cu, u.y, v.y, u.z, v.z);
    Wedge(-sn * ci, cn, si, su, cu, u.x, v.x, u.z, v.z);
  }

  lemma Wedge(p: real, a: real, q: real, s: real, c: real, u: real, v: real, uz: real, vz: real)
    requires s * s + c * c == 1.0
    requires u == p * s + a * c && v == p * c - a * s && uz == q * s && vz == q * c
    ensures u * vz - uz * v == a * q
  {
    assert u * vz - uz * v == a * q * (s * s + c * c);
  }

  lemma PoleZ(m: Math, s: Short)
    requires Trigonometric(m)
    ensures Cross(Towards(m, s), Along(m, s)).z == Pole(m, s).z
  {
    assert Circular(m, s.su) && Circular(m, s.xnode);
    var sn, cn, ci, su, cu := m.sin(s.xnode), m.cos(s.xnode), m.cos(s.xinc), m.sin(s.su), m.cos(s.su);
    var u, v := Towards(m, s), Along(m, s);
    Around(sn, cn, ci, su, cu, u.x, v.x, u.y, v.y);
  }

  lemma Around(sn: real, cn: real, ci: real, s: real, c: real, ux: real, vx: real, uy: real, vy: real)
    requires s * s + c * c == 1.0 && sn * sn + cn * cn == 1.0
    requires ux == -sn * ci * s + cn * c && vx == -sn * ci * c - cn * s && uy == cn * ci * s + sn * c && vy == cn * ci * c - sn * s
    ensures ux * vy - uy * vx == ci
  {
    assert ux * vy - uy * vx == ci * ((sn * sn + cn * cn) * (s * s + c * c));
  }

  // ---------- position and velocity ----------

  // Velocity unit in km/s.
  function Unit(g: Gravity): real { g.radius * g.xke / 60.0 }

  /** The distance is mrt Earth radii; the velocity has the part mvt along the position and the
      part rvdot across it, in the direction of motion. */
  lemma StateVectors(m: Math, g: Gravity, s: Short)
    requires Trigonometric(m)
    ensures var r, v := PositionOf(m, g, s), VelocityOf(m, g, s);
      && Norm2(r) == (s.mrt * g.radius) * (s.mrt * g.radius)
      && Dot(v, Towards(m, s)) == s.mvt * Unit(g) && Dot(v, Along(m, s)) == s.rvdot * Unit(g)
      && Norm2(v) == (s.mvt * s.mvt + s.rvdot * s.rvdot) * (Unit(g) * Unit(g))
  {
    OrientationOrthonormal(m, s);
    var u, w := Towards(m, s), Along(m, s);
    Lengthened(u, s.mrt, g.radius, PositionOf(m, g, s));
    Combined(u, w, s.mvt, s.rvdot, Unit(g), VelocityOf(m, g, s));
  }

  lemma Lengthened(u: Vector, k: real, radius: real, r: Vector)
    requires Norm2(u) == 1.0 && r == Vector((k * u.x) * radius, (k * u.y) * radius, (k * u.z) * radius)
    ensures Norm2(r) == (k * radius) * (k * radius)
  {
    var f := k * radius;
    assert r.x == f * u.x && r.y == f * u.y && r.z == f * u.z;
    assert Norm2(r) == f * f * Norm2(u);
  }

  lemma Combined(u: Vector, w: Vector, a: real, b: real, k: real, v: Vector)
    requires Norm2(u) == 1.0 && Norm2(w) == 1.0 && Dot(u, w) == 0.0
    requires v == Vector((a * u.x + b * w.x) * k, (a * u.y + b * w.y) * k, (a * u.z + b * w.z) * k)
    ensures Dot(v, u) == a * k && Dot(v, w) == b * k && Norm2(v) == (a * a + b * b) * (k * k)
  {
    Components(u, w, a, b, k, v);
    DotSum(u, w, a, b, k, v, v);
    DotTurned(u, v);
    DotTurned(w, v);
    Squares(a, b, k);
  }

  lemma Components(u: Vector, w: Vector, a: real, b: real, k: real, v: Vector)
    requires Norm2(u) == 1.0 && Norm2(w) == 1.0 && Dot(u, w) == 0.0
    requires v == Vector((a * u.x + b * w.x) * k, (a * u.y + b * w.y) * k, (a * u.z + b * w.z) * k)
    ensures Dot(v, u) == a * k && Dot(v, w) == b * k
  {
    DotSum(u, w, a, b, k, v, u);
    DotSum(u, w, a, b, k, v, w);
    DotTurned(u, w);
  }

  lemma DotSum(u: Vector, w: Vector, a: real, b: real, k: real, v: Vector, x: Vector)
    requires v == Vector((a * u.x + b * w.x) * k, (a * u.y + b * w.y) * k, (a * u.z + b * w.z) * k)
    ensures Dot(v, x) == k * (a * Dot(u, x) + b * Dot(w, x))
  {
    OneSum(u.x, w.x, a, b, k, x.x);
    OneSum(u.y, w.y, a, b, k, x.y);
    OneSum(u.z, w.z, a, b, k, x.z);
  }

  lemma OneSum(u: real, w: real, a: real, b: real, k: real, x: real)
    ensures ((a * u + b * w) * k) * x == k * (a * (u * x) + b * (w * x))
  {
  }

  lemma DotTurned(u: Vector, v: Vector)
    ensures Dot(u, v) == Dot(v, u) && Dot(u, u) == Norm2(u) && Dot(v, v) == Norm2(v)
  {
  }

  lemma Squares(a: real, b: real, k: real)
    ensures k * (a * (a * k) + b * (b * k)) == (a * a + b * b) * (k * k)
  {
  }

  /** Every state reported without error is such a pair of vectors, at least one radius out. */
  lemma ReportedState(m: Math, g: Gravity, el: Elements, lp0: LongPeriod, inc0: Inclined, t: real) returns (s: Short)
    requires Trigonometric(m) && Propagate(m, g, el, lp0, inc0, t).State?
    ensures s.mrt >= 1.0 && Propagate(m, g, el, lp0, inc0, t) == State(PositionOf(m, g, s), VelocityOf(m, g, s))
    ensures Norm2(PositionOf(m, g, s)) == (s.mrt * g.radius) * (s.mrt * g.radius)
    ensures Norm2(VelocityOf(m, g, s)) == (s.mvt * s.mvt + s.rvdot * s.rvdot) * (Unit(g) * Unit(g))
  {
    var o := OsculatingAt(m, g, el, t);
    s := ShortOf(m, g, el, lp0, inc0, o.am, o.nm, o.angles);
    StateVectors(m, g, s);
  }

  // ---------- the flattening ----------

  /** Without flattening the satellite is on the Kepler orbit. */
  lemma RoundEarth(m: Math, g: Gravity, nm: real, pl: real, c: Conic, a: Angles, sinip: real, cosip: real, inc: Inclined)
    requires ExactDivision(m) && g.j2 == 0.0 && g.xke != 0.0
    ensures Flattened(m, g, nm, pl, c, a, sinip, cosip, inc) ==
      Short(c.rl, c.rdotl, c.rvdotl, m.atan2(c.sinu, c.cosu), a.nodep, a.xincp)
  {
    assert Divides(m, 0.0, g.xke);
    Unperturbed(m, g, nm, Temp1(m, g, pl), Temp2(m, g, pl), Sin2u(c), Cos2u(c), c, a, sinip, cosip, inc);
  }

  lemma Unperturbed(m: Math, g: Gravity, nm: real, temp1: real, temp2: real, sin2u: real, cos2u: real,
                    c: Conic, a: Angles, sinip: real, cosip: real, inc: Inclined)
    requires temp1 == 0.0 && temp2 == 0.0 && m.div(0.0, g.xke) * g.xke == 0.0 && g.xke != 0.0
    ensures Perturbed(m, g, nm, temp1, temp2, sin2u, cos2u, c, a, sinip, cosip, inc) ==
      Short(c.rl, c.rdotl, c.rvdotl, m.atan2(c.sinu, c.cosu), a.nodep, a.xincp)
  {
    assert m.div(0.0, g.xke) == 0.0;
  }

  /** The flattening enters through j2 / 2p and j2 / 2p^2, and through sine and cosine of twice
      the argument of latitude. */
  lemma FlatEarth(m: Math, g: Gravity, pl: real, c: Conic)
    requires ExactDivision(m) && pl != 0.0 && Circle(c) == 1.0
    ensures 2.0 * Temp1(m, g, pl) * pl == g.j2 && Temp2(m, g, pl) * pl == Temp1(m, g, pl)
    ensures Sin2u(c) == 2.0 * (c.sinu * c.cosu) && Cos2u(c) == c.cosu * c.cosu - c.sinu * c.sinu
  {
    assert Divides(m, 1.0, pl);
    Shared(Temp1(m, g, pl), Temp2(m, g, pl), g.j2, m.div(1.0, pl), pl);
  }

  lemma Shared(temp1: real, temp2: real, j2: real, k: real, pl: real)
    requires k * pl == 1.0 && temp1 == 0.5 * j2 * k && temp2 == temp1 * k
    ensures 2.0 * temp1 * pl == j2 && temp2 * pl == temp1
  {
    assert temp1 * pl == 0.5 * j2 * (k * pl);
    assert temp2 * pl == temp1 * (k * pl);
  }

  /** Node, inclination and perigee move together: an equatorial orbit keeps its inclination, a
      polar one its plane, and the node moves one way on orbits inclined one way. */
  lemma PlaneMoves(m: Math, g: Gravity, nm: real, temp1: real, temp2: real, sin2u: real, cos2u: real,
                   c: Conic, a: Angles, sinip: real, cosip: real, inc: Inclined)
    ensures var s := Perturbed(m, g, nm, temp1, temp2, sin2u, cos2u, c, a, sinip, cosip, inc);
      && (s.xinc - a.xincp) * sin2u == (s.xnode - a.nodep) * (sinip * cos2u)
      && 6.0 * ((s.su - m.atan2(c.sinu, c.cosu)) * cosip) == -((s.xnode - a.nodep) * inc.x7thm1)
      && (sinip == 0.0 ==> s.xinc == a.xincp) && (cosip == 0.0 ==> s.xinc == a.xincp && s.xnode == a.nodep)
      && 2.0 * (s.xnode - a.nodep) == 3.0 * (temp2 * (cosip * sin2u))
  {
  }

  // The part of the distance that swings with cos2u, and its slope along the argument of latitude.
  function Swing(temp1: real, inc: Inclined, cos2u: real): real { temp1 * inc.x1mth2 * cos2u / 2.0 }
  function SwingSlope(temp1: real, inc: Inclined, sin2u: real): real { -(temp1 * inc.x1mth2 * sin2u) }

  /** The distance swings about a shifted mean, and the radial speed swings as its derivative in
      time, nm being the rate of the argument of latitude. */
  lemma DistanceSwings(m: Math, g: Gravity, nm: real, temp1: real, temp2: real, sin2u: real, cos2u: real,
                       c: Conic, a: Angles, sinip: real, cosip: real, inc: Inclined)
    requires ExactDivision(m) && g.xke != 0.0
    ensures var s := Perturbed(m, g, nm, temp1, temp2, sin2u, cos2u, c, a, sinip, cosip, inc);
      && s.mrt - Swing(temp1, inc, cos2u) == c.rl - 1.5 * (c.rl * temp2 * c.betal * inc.con41)
      && (s.mvt - c.rdotl) * g.xke == nm * SwingSlope(temp1, inc, sin2u)
      && (s.rvdot - c.rvdotl) * g.xke == nm * (2.0 * Swing(temp1, inc, cos2u) + 1.5 * (temp1 * inc.con41))
  {
    assert Divides(m, RadialSwing(nm, temp1, sin2u, inc), g.xke) && Divides(m, AcrossSwing(nm, temp1, cos2u, inc), g.xke);
  }

  /** The inclination terms, through the sine of the inclination. */
  lemma InclinationTerms(sinip: real, cosip: real)
    requires sinip * sinip + cosip * cosip == 1.0
    ensures var inc := InclinedOf(cosip);
      inc.x1mth2 == sinip * sinip && inc.con41 == 2.0 - 3.0 * (sinip * sinip) && inc.x7thm1 == 6.0 - 7.0 * (sinip * sinip)
  {
  }

  /** The long-period terms: their ratio, and that the second does not grow beyond all bounds
      when the inclination approaches 180 degrees. */
  lemma LongPeriodTerms(m: Math, g: Gravity, sinip: real, cosip: real)
    requires ExactDivision(m)
    ensures var lp, d := LongPeriodOf(m, g, sinip, cosip), if Abs(cosip + 1.0) > 0.0000000000015 then 1.0 + cosip else 0.0000000000015;
      && 2.0 * lp.aycof == -(g.j3oj2 * sinip)
      && 2.0 * (lp.xlcof * d) == lp.aycof * (3.0 + 5.0 * cosip)
  {
    var d := if Abs(cosip + 1.0) > 0.0000000000015 then 1.0 + cosip else 0.0000000000015;
    assert d != 0.0;
    assert Divides(m, LongitudeTerm(g, sinip, cosip), d);
  }

  // ---------- the orbit before the short periods ----------

  /** The long-period terms, divided by the orbit's parameter, shift the second component of the
      eccentricity vector and the longitude; Kepler's equation starts from mean anomaly plus
      perigee plus that shift. */
  lemma EccentricityVector(m: Math, am: real, a: Angles, lp: LongPeriod) returns (shift: real)
    requires ExactTurns(m) && ExactDivision(m) && Parameter(am, a.ep) != 0.0
    ensures var k, p := KeplerOf(m, am, a, lp), Parameter(am, a.ep);
      && k.axnl == a.ep * m.cos(a.argpp) && (k.aynl - a.ep * m.sin(a.argpp)) * p == lp.aycof
      && SameAngle(k.u, a.mp + a.argpp + shift) && shift * p == lp.xlcof * k.axnl
  {
    var p, axnl := Parameter(am, a.ep), a.ep * m.cos(a.argpp);
    var temp := m.div(1.0, p);
    assert Divides(m, 1.0, p);
    shift := Shift(m, am, a, lp);
    Scaling(temp, p, lp.aycof);
    Scaling(temp, p, lp.xlcof * axnl);
    StartingAngle(m, am, a, lp, shift);
  }

  /** Without long-period terms the vector has the eccentricity's length, and the parameter is
      the semi-latus rectum. */
  lemma EccentricityKept(m: Math, am: real, a: Angles, lp: LongPeriod)
    requires Trigonometric(m) && lp.aycof == 0.0
    ensures El2(KeplerOf(m, am, a, lp)) == a.ep * a.ep && Latus(am, KeplerOf(m, am, a, lp)) == Parameter(am, a.ep)
  {
    assert Circular(m, a.argpp);
    EccentricityLength(a.ep, m.sin(a.argpp), m.cos(a.argpp));
  }

  lemma Scaling(temp: real, p: real, x: real)
    requires temp * p == 1.0
    ensures (temp * x) * p == x
  {
    assert (temp * x) * p == (temp * p) * x;
  }

  lemma StartingAngle(m: Math, am: real, a: Angles, lp: LongPeriod, shift: real)
    requires ExactTurns(m) && shift == Shift(m, am, a, lp)
    ensures SameAngle(KeplerOf(m, am, a, lp).u, a.mp + a.argpp + shift)
  {
    var xl := a.mp + a.argpp + a.nodep + Shift(m, am, a, lp);
    assert SameAngle(m.fmod(xl - a.nodep, TWO_PI), xl - a.nodep);
  }

  lemma EccentricityLength(e: real, s: real, c: real)
    requires s * s + c * c == 1.0
    ensures (e * c) * (e * c) + (e * s) * (e * s) == e * e
  {
    assert (e * c) * (e * c) + (e * s) * (e * s) == (e * e) * (s * s + c * c);
  }

  // ---------- the axis ----------

  // Powers 2/3 and 3/2 undo each other.
  ghost predicate ExactPowers(m: Math) { forall x :: x > 0.0 ==> PowersUndo(m, x) }

  ghost predicate PowersUndo(m: Math, x: real) { m.pow(m.pow(x, 2.0 / 3.0), 1.5) == x }

  /** Kepler's third law gives the axis from the mean motion and the mean motion from the axis:
      without drag the mean motion is unchanged. */
  lemma ThirdLaw(m: Math, g: Gravity, s: Secular, nm: real)
    requires ExactDivision(m) && ExactPowers(m) && g.xke > 0.0 && nm > 0.0 && s.tempa == 1.0
    ensures Motion(m, g, Axis(m, g, s, nm)) == nm
  {
    var x := m.div(g.xke, nm);
    assert Divides(m, g.xke, nm);
    Positive(x, nm);
    assert PowersUndo(m, x);
    assert Axis(m, g, s, nm) == m.pow(x, 2.0 / 3.0);
    assert Divides(m, g.xke, x);
    SameFactor(x, Motion(m, g, Axis(m, g, s, nm)), nm);
  }

  lemma SameFactor(x: real, a: real, b: real)
    requires x > 0.0 && a * x == x * b
    ensures a == b
  {
    assert x * (a - b) == 0.0;
  }

  // ---------- turning the node around ----------

  // The half turn, in sine and cosine, and their parity.
  ghost predicate HalfTurns(m: Math) {
    && (forall x :: m.sin(-x) == -m.sin(x) && m.cos(-x) == m.cos(x))
    && (forall x :: m.sin(x + TWO_PI / 2.0) == -m.sin(x) && m.cos(x + TWO_PI / 2.0) == -m.cos(x))
  }

  // The satellite's angles when it is v past the perigee.
  function Ahead(a: Angles, v: real): Short { Short(1.0, 0.0, 0.0, a.argpp + v, a.nodep, a.xincp) }

  /** Making a negative inclination positive leaves the orbit where it is: the satellite stands
      and heads in the same directions. */
  lemma UprightSameOrbit(m: Math, a: Angles, v: real)
    requires HalfTurns(m)
    ensures Upright(a).xincp >= 0.0 && Upright(a).ep == a.ep && Upright(a).mp == a.mp
    ensures Upright(a).nodep + Upright(a).argpp == a.nodep + a.argpp && (a.xincp >= 0.0 ==> Upright(a) == a)
    ensures Towards(m, Ahead(Upright(a), v)) == Towards(m, Ahead(a, v)) && Along(m, Ahead(Upright(a), v)) == Along(m, Ahead(a, v))
  {
    if a.xincp < 0.0 {
      TurnedAround(m, a, v, Upright(a));
      SameDirections(m, Ahead(a, v), Ahead(Upright(a), v));
    }
  }

  lemma TurnedAround(m: Math, a: Angles, v: real, b: Angles)
    requires HalfTurns(m) && a.xincp < 0.0 && b == Upright(a)
    ensures m.sin(b.nodep) == -m.sin(a.nodep) && m.cos(b.nodep) == -m.cos(a.nodep)
    ensures m.sin(b.xincp) == -m.sin(a.xincp) && m.cos(b.xincp) == m.cos(a.xincp)
    ensures m.sin(a.argpp + v) == -m.sin(b.argpp + v) && m.cos(a.argpp + v) == -m.cos(b.argpp + v)
  {
    assert a.argpp + v == b.argpp + v + TWO_PI / 2.0;
  }

  lemma SameDirections(m: Math, s: Short, b: Short)
    requires m.sin(b.xnode) == -m.sin(s.xnode) && m.cos(b.xnode) == -m.cos(s.xnode)
    requires m.sin(b.xinc) == -m.sin(s.xinc) && m.cos(b.xinc) == m.cos(s.xinc)
    requires m.sin(s.su) == -m.sin(b.su) && m.cos(s.su) == -m.cos(b.su)
    ensures Towards(m, b) == Towards(m, s) && Along(m, b) == Along(m, s)
  {
    Mirrored(m.sin(s.xnode), m.cos(s.xnode), m.sin(s.xinc), m.cos(s.xinc), m.sin(b.su), m.cos(b.su));
  }

  lemma Mirrored(sn: real, cn: real, si: real, ci: real, s: real, c: real)
    ensures -(-sn) * ci * s + -cn * c == -sn * ci * -s + cn * -c
    ensures -cn * ci * s + -sn * c == cn * ci * -s + sn * -c
    ensures -si * s == si * -s
    ensures -(-sn) * ci * c - -cn * s == -sn * ci * -c - cn * -s
    ensures -cn * ci * c - -sn * s == cn * ci * -c - sn * -s
    ensures -si * c == si * -c
  {
  }

  // ---------- from elements to vectors ----------

  /** Around a round Earth what is reported has the energy of the orbit, whatever the angles:
      distance rl and square of speed v2 are related by v2 = 2 / rl - 1 / am. */
  lemma ReportedEnergy(m: Math, g: Gravity, el: Elements, lp0: LongPeriod, inc0: Inclined, am: real, nm: real, a: Angles)
    returns (rl: real, v2: real)
    requires Trigonometric(m) && ExactDivision(m) && ExactRoot(m) && g.j2 == 0.0 && g.xke != 0.0 && am > 0.0
    requires FromAngles(m, g, el, lp0, inc0, am, nm, a).State?
    ensures var o := FromAngles(m, g, el, lp0, inc0, am, nm, a);
      && rl >= 1.0 && v2 * (rl * am) == 2.0 * am - rl
      && Norm2(o.r) == (rl * g.radius) * (rl * g.radius) && Norm2(o.v) == v2 * (Unit(g) * Unit(g))
  {
    var sinip, cosip := m.sin(a.xincp), m.cos(a.xincp);
    var k := KeplerOf(m, am, a, if el.deep then LongPeriodOf(m, g, sinip, cosip) else lp0);
    var sc := Anomaly(m, k, k.u, 9999.9, 1, (0.0, 0.0));
    var inc := if el.deep then InclinedOf(cosip) else inc0;
    var s := ShortPeriod(m, g, am, nm, k, sc, a, sinip, cosip, inc);
    rl, v2 := RoundOrbit(m, g, am, nm, k, sc, a, sinip, cosip, inc, s);
  }

  lemma RoundOrbit(m: Math, g: Gravity, am: real, nm: real, k: Kepler, sc: (real, real), a: Angles, sinip: real, cosip: real, inc: Inclined, s: Short)
    returns (rl: real, v2: real)
    requires Trigonometric(m) && ExactDivision(m) && ExactRoot(m) && g.j2 == 0.0 && g.xke != 0.0 && am > 0.0
    requires sc == Anomaly(m, k, k.u, 9999.9, 1, (0.0, 0.0)) && s == ShortPeriod(m, g, am, nm, k, sc, a, sinip, cosip, inc)
    requires Latus(am, k) >= 0.0 && s.mrt >= 1.0
    ensures rl >= 1.0 && v2 * (rl * am) == 2.0 * am - rl
    ensures Norm2(PositionOf(m, g, s)) == (rl * g.radius) * (rl * g.radius) && Norm2(VelocityOf(m, g, s)) == v2 * (Unit(g) * Unit(g))
  {
    var c := ConicOf(m, am, k, sc);
    RoundEarth(m, g, nm, Latus(am, k), c, a, sinip, cosip, inc);
    rl, v2 := c.rl, Speed2(c);
    ConicEnergy(m, am, k, sc);
    ConicVectors(m, g, c, s);
  }

  lemma ConicEnergy(m: Math, am: real, k: Kepler, sc: (real, real))
    requires Trigonometric(m) && ExactDivision(m) && ExactRoot(m) && am > 0.0 && Latus(am, k) >= 0.0
    requires sc == Anomaly(m, k, k.u, 9999.9, 1, (0.0, 0.0)) && ConicOf(m, am, k, sc).rl >= 1.0
    ensures var c := ConicOf(m, am, k, sc); Speed2(c) * (c.rl * am) == 2.0 * am - c.rl
  {
    IsCircular(m, k, sc);
    NotFalling(am, Ecose(k, sc));
    EnergyAt(m, am, k, sc);
  }

  lemma IsCircular(m: Math, k: Kepler, sc: (real, real))
    requires Trigonometric(m) && ExactDivision(m) && sc == Anomaly(m, k, k.u, 9999.9, 1, (0.0, 0.0))
    ensures sc.0 * sc.0 + sc.1 * sc.1 == 1.0
  {
    var eo1, rounds := AnomalySolves(m, k);
    SineAndCosine(m, eo1, sc);
  }

  lemma SineAndCosine(m: Math, x: real, sc: (real, real))
    requires Trigonometric(m) && sc == (m.sin(x), m.cos(x))
    ensures sc.0 * sc.0 + sc.1 * sc.1 == 1.0
  {
    assert Circular(m, x);
  }

  lemma EnergyAt(m: Math, am: real, k: Kepler, sc: (real, real))
    requires Orbiting(m, am, k, sc)
    ensures var c := ConicOf(m, am, k, sc); Speed2(c) * (c.rl * am) == 2.0 * am - c.rl
  {
    MomentumAndEnergy(m, am, k, sc);
  }

  lemma ConicVectors(m: Math, g: Gravity, c: Conic, s: Short)
    requires Trigonometric(m) && s.mrt == c.rl && s.mvt == c.rdotl && s.rvdot == c.rvdotl
    ensures Norm2(PositionOf(m, g, s)) == (c.rl * g.radius) * (c.rl * g.radius)
    ensures Norm2(VelocityOf(m, g, s)) == Speed2(c) * (Unit(g) * Unit(g))
  {
    StateVectors(m, g, s);
  }

  lemma NotFalling(am: real, ecose: real)
    ensures am * (1.0 - ecose) != 0.0 ==> ecose != 1.0
  {
  }

  /** A deep-space answer does not depend on the terms set at initialization. */
  lemma DeepIgnoresInitial(m: Math, g: Gravity, el: Elements, lp0: LongPeriod, inc0: Inclined, lp1: LongPeriod, inc1: Inclined, t: real)
    requires el.deep
    ensures Propagate(m, g, el, lp0, inc0, t) == Propagate(m, g, el, lp1, inc1, t)
  {
  }

  /** Near the Earth the angles are the secular ones and the mean longitude grows by the drag as
      well, up to whole turns. */
  lemma NearEarthAngles(m: Math, g: Gravity, el: Elements, t: real) returns (a: Angles, x: Mean)
    requires ExactTurns(m) && !el.deep && OsculatingAt(m, g, el, t).Orbit?
    ensures a == OsculatingAt(m, g, el, t).angles
    ensures var s := SecularAt(m, el, t); x == Dragged(el, s, EpochMean(el, s))
    ensures SameAngle(a.nodep, x.nodem) && SameAngle(a.argpp, x.argpm) && SameAngle(a.mp + a.argpp + a.nodep, x.mm + x.argpm + x.nodem)
  {
    var s := SecularAt(m, el, t);
    x := Dragged(el, s, EpochMean(el, s));
    a := OsculatingAt(m, g, el, t).angles;
    NearEarthIs(m, g, el, t);
    TurnedOnly(m, x, Clamped(el.ecco - s.tempe));
  }

  lemma NearEarthIs(m: Math, g: Gravity, el: Elements, t: real)
    requires !el.deep && OsculatingAt(m, g, el, t).Orbit?
    ensures var s := SecularAt(m, el, t);
      OsculatingAt(m, g, el, t).angles == Reduced(m, Dragged(el, s, EpochMean(el, s)), Clamped(el.ecco - s.tempe))
  {
  }

  // ---------- errors ----------

  /** What the error codes of the mean elements say, and the eccentricities that are left. */
  lemma ErrorCodes(m: Math, g: Gravity, el: Elements, t: real)
    ensures var s := SecularAt(m, el, t);
      var e1 := if el.deep then DeepSpace(m, el.res, t, EpochMean(el, s)) else EpochMean(el, s);
      var o := OsculatingAt(m, g, el, t);
      && (o == Rejected(2) <==> e1.nm <= 0.0)
      && (o == Rejected(1) <==> e1.nm > 0.0 && !(-0.001 <= e1.em - s.tempe < 1.0))
      && (o == Rejected(3) ==> el.deep)
      && (o.Orbit? ==> !el.deep || 0.0 <= o.angles.ep <= 1.0)
      && (o.Orbit? && el.deep ==> o.angles.xincp >= 0.0)
      && (o.Orbit? ==> o.am == Axis(m, g, s, e1.nm) && o.nm == Motion(m, g, o.am))
      && (o.Orbit? && !el.deep ==> o.angles.ep == if e1.em - s.tempe < 0.000001 then 0.000001 else e1.em - s.tempe)
  {
  }
}
