/** Which way the Earth-fixed frame is turned, what it does to velocities, and the exact
    distances and speeds that are reported. */
module FrameLaws {
  import opened Integrator
  import opened Sgp4
  import opened Position

  function Minus(u: Vector, v: Vector): Vector { Vector(u.x - v.x, u.y - v.y, u.z - v.z) }

  const X := Vector(1.0, 0.0, 0.0)
  const Y := Vector(0.0, 1.0, 0.0)
  const Z := Vector(0.0, 0.0, 1.0)

  /** The frame turns eastwards with sidereal time: the direction at angle gmst from the equinox
      becomes the first axis, the one a quarter turn on the second, and the pole stays. */
  lemma SiderealAxes(m: Math, t: Instant)
    requires Trigonometric(m)
    ensures TemeToPef(m, t).Times(Vector(m.cos(t.gmst), m.sin(t.gmst), 0.0)) == X
    ensures TemeToPef(m, t).Times(Vector(-m.sin(t.gmst), m.cos(t.gmst), 0.0)) == Y
    ensures TemeToPef(m, t).Times(Z) == Z
  {
    assert Circular(m, t.gmst);
  }

  /** Polar motion: the directions of the Earth's crust axes, seen from the celestial pole. The
      crust's pole is displaced by xp away from the first and by yp towards the second axis. */
  lemma PolarAxes(m: Math, t: Instant)
    requires Trigonometric(m)
    ensures var cx, cy, sx, sy := m.cos(t.xp), m.cos(t.yp), m.sin(t.xp), m.sin(t.yp);
      && PefToItrf(m, t).Times(Vector(cx, sy * sx, cy * sx)) == X
      && PefToItrf(m, t).Times(Vector(0.0, cy, -sy)) == Y
      && PefToItrf(m, t).Times(Vector(-sx, sy * cx, cy * cx)) == Z
  {
    var cx, cy, sx, sy := m.cos(t.xp), m.cos(t.yp), m.sin(t.xp), m.sin(t.yp);
    assert Circular(m, t.xp) && Circular(m, t.yp);
    FirstAxis(cx, cy, sx, sy);
    LastAxis(cx, cy, sx, sy);
  }

  /** Both together: where the meridian of sidereal time and the celestial pole lie on the crust. */
  lemma CrustDirections(m: Math, t: Instant)
    requires Trigonometric(m)
    ensures var cx, cy, sx, sy := m.cos(t.xp), m.cos(t.yp), m.sin(t.xp), m.sin(t.yp);
      && TemeToItrf(m, Vector(m.cos(t.gmst), m.sin(t.gmst), 0.0), t) == Vector(cx, 0.0, -sx)
      && TemeToItrf(m, Z, t) == Vector(cy * sx, -sy, cy * cx)
  {
    SiderealAxes(m, t);
  }

  // The products of the matrix with its first and last row, the squares of yp taken together.
  lemma FirstAxis(cx: real, cy: real, sx: real, sy: real)
    requires sx * sx + cx * cx == 1.0 && sy * sy + cy * cy == 1.0
    ensures cx * cx + (sy * sx) * (sy * sx) + (cy * sx) * (cy * sx) == 1.0
    ensures 0.0 * cx + cy * (sy * sx) + -sy * (cy * sx) == 0.0
    ensures -sx * cx + (sy * cx) * (sy * sx) + (cy * cx) * (cy * sx) == 0.0
  {
    Grouped(sy, cy, sx, sx);
    Grouped(sy, cy, cx, sx);
    assert cy * (sy * sx) == sy * (cy * sx);
    assert -sx * cx == -(cx * sx);
  }

  lemma LastAxis(cx: real, cy: real, sx: real, sy: real)
    requires sx * sx + cx * cx == 1.0 && sy * sy + cy * cy == 1.0
    ensures cx * -sx + (sy * sx) * (sy * cx) + (cy * sx) * (cy * cx) == 0.0
    ensures 0.0 * -sx + cy * (sy * cx) + -sy * (cy * cx) == 0.0
    ensures -sx * -sx + (sy * cx) * (sy * cx) + (cy * cx) * (cy * cx) == 1.0
  {
    Grouped(sy, cy, sx, cx);
    Grouped(sy, cy, cx, cx);
    assert cy * (sy * cx) == sy * (cy * cx);
    assert cx * -sx == -(sx * cx) && -sx * -sx == sx * sx;
  }

  lemma Grouped(sy: real, cy: real, p: real, q: real)
    requires sy * sy + cy * cy == 1.0
    ensures (sy * p) * (sy * q) + (cy * p) * (cy * q) == p * q
  {
    assert (sy * p) * (sy * q) == (sy * sy) * (p * q) && (cy * p) * (cy * q) == (cy * cy) * (p * q);
    assert (sy * sy) * (p * q) + (cy * cy) * (p * q) == (sy * sy + cy * cy) * (p * q);
  }

  // ---------- velocities ----------

  // The velocity of a point at r that turns with the Earth.
  function Spin(omega: real, r: Vector): Vector { Vector(-omega * r.y, omega * r.x, 0.0) }

  lemma TurnedMinusSpin(c: real, s: real, omega: real, r: Vector, v: Vector)
    ensures c * (v.x - -omega * r.y) + s * (v.y - omega * r.x) == (c * v.x + s * v.y) + omega * (-s * r.x + c * r.y)
    ensures -s * (v.x - -omega * r.y) + c * (v.y - omega * r.x) == (-s * v.x + c * v.y) - omega * (c * r.x + s * r.y)
  {
    assert c * (v.x - -omega * r.y) == c * v.x + omega * (c * r.y) && s * (v.y - omega * r.x) == s * v.y - omega * (s * r.x);
    assert -s * (v.x - -omega * r.y) == -s * v.x - omega * (s * r.y) && c * (v.y - omega * r.x) == c * v.y - omega * (c * r.x);
  }

  lemma SpinRemoved(m: Math, r: Vector, v: Vector, t: Instant)
    ensures var a := TemeToPef(m, t);
      a.Times(Minus(v, Spin(t.omega, r))) ==
      Vector(a.Times(v).x + t.omega * a.Times(r).y, a.Times(v).y - t.omega * a.Times(r).x, a.Times(v).z)
  {
    TurnedMinusSpin(m.cos(t.gmst), m.sin(t.gmst), t.omega, r, v);
  }

  /** The reported velocity is the one relative to the turning Earth, in the frame's axes. */
  lemma VelocityIsRelative(m: Math, r: Vector, v: Vector, t: Instant)
    ensures VelocityToItrf(m, r, v, t) == TemeToItrf(m, Minus(v, Spin(t.omega, r)), t)
  {
    SpinRemoved(m, r, v, t);
  }

  /** A point that turns with the Earth stands still, and if the Earth stood still the speed
      would be kept. */
  lemma Standstill(m: Math, r: Vector, v: Vector, t: Instant)
    ensures VelocityToItrf(m, r, Spin(t.omega, r), t) == ORIGIN
    ensures Trigonometric(m) && t.omega == 0.0 ==> Norm2(VelocityToItrf(m, r, v, t)) == Norm2(v)
  {
    VelocityIsRelative(m, r, Spin(t.omega, r), t);
    VelocityIsRelative(m, r, v, t);
    if Trigonometric(m) && t.omega == 0.0 {
      FrameKeepsLength(m, Minus(v, Spin(t.omega, r)), t);
      assert Minus(v, Spin(t.omega, r)) == v;
    }
  }

  // ---------- what is reported ----------

  /** A reported position is as far from the centre as the propagated one, in metres, and the
      reported speed is that relative to the turning Earth, in metres per second. */
  lemma ReportedExactly(m: Math, el: Elements, lp0: LongPeriod, inc0: Inclined, t: Instant)
    requires Trigonometric(m) && Propagate(m, Wgs72(m), el, lp0, inc0, t.sinceEpoch).State?
    ensures var o := Propagate(m, Wgs72(m), el, lp0, inc0, t.sinceEpoch);
      && Norm2(PositionAt(m, el, lp0, inc0, t)) == 1000000.0 * Norm2(o.r)
      && Norm2(VelocityAt(m, el, lp0, inc0, t)) == 1000000.0 * Norm2(Minus(o.v, Spin(t.omega, o.r)))
  {
    var o := OutcomeOf(m, el, lp0, inc0, t);
    ReportExactly(m, o, t);
  }

  lemma OutcomeOf(m: Math, el: Elements, lp0: LongPeriod, inc0: Inclined, t: Instant) returns (o: Outcome)
    ensures o == Propagate(m, Wgs72(m), el, lp0, inc0, t.sinceEpoch)
  {
    o := Propagate(m, Wgs72(m), el, lp0, inc0, t.sinceEpoch);
  }

  lemma ReportExactly(m: Math, o: Outcome, t: Instant)
    requires Trigonometric(m) && o.State?
    ensures Norm2(PositionFrom(m, o, t)) == 1000000.0 * Norm2(o.r)
    ensures Norm2(VelocityFrom(m, o, t)) == 1000000.0 * Norm2(Minus(o.v, Spin(t.omega, o.r)))
  {
    FrameKeepsLength(m, o.r, t);
    VelocityIsRelative(m, o.r, o.v, t);
    FrameKeepsLength(m, Minus(o.v, Spin(t.omega, o.r)), t);
    MetresLength(TemeToItrf(m, o.r, t));
    MetresLength(VelocityToItrf(m, o.r, o.v, t));
  }

  lemma MetresLength(v: Vector)
    ensures Norm2(Metres(v)) == 1000000.0 * Norm2(v)
  {
  }

  // Division and square root as of real numbers.
  ghost predicate ExactDivision(m: Math) { forall x, y :: y != 0.0 ==> Divides(m, x, y) }

  ghost predicate Divides(m: Math, x: real, y: real) { m.div(x, y) * y == x }

  ghost predicate ExactRoot(m: Math) { forall x :: x >= 0.0 ==> IsRoot(m, x) }

  ghost predicate IsRoot(m: Math, x: real) { m.sqrt(x) >= 0.0 && m.sqrt(x) * m.sqrt(x) == x }

  /** The Earth model: xke is the mean motion, in radians per minute, of an orbit at one Earth
      radius (Kepler's third law), and the third harmonic is -0.00000253881. */
  lemma EarthModel(m: Math)
    requires ExactDivision(m) && ExactRoot(m)
    ensures var g := Wgs72(m);
      && g.xke > 0.0 && g.xke * g.xke * (g.radius * g.radius * g.radius) == 3600.0 * 398600.8
      && g.radius == 6378.135 && g.j2 == 0.001082616 && g.j3oj2 * g.j2 == -0.00000253881
  {
    var cube := 6378.135 * 6378.135 * 6378.135;
    var q := m.div(cube, 398600.8);
    assert Divides(m, cube, 398600.8) && IsRoot(m, q) && Divides(m, 60.0, m.sqrt(q)) && Divides(m, -0.00000253881, 0.001082616);
    RootOfThirdLaw(Wgs72(m).xke, m.sqrt(q), q, cube);
  }

  lemma RootOfThirdLaw(xke: real, s: real, q: real, cube: real)
    requires s >= 0.0 && s * s == q && q * 398600.8 == cube && cube > 0.0
    requires s != 0.0 ==> xke * s == 60.0
    ensures xke > 0.0 && xke * xke * cube == 3600.0 * 398600.8
  {
    assert s != 0.0;
    assert xke * xke * (s * s) == (xke * s) * (xke * s);
    Positive(xke, s);
  }

  lemma Positive(x: real, s: real)
    requires s >= 0.0 && x * s > 0.0
    ensures x > 0.0
  {
    assert x <= 0.0 ==> x * s <= 0.0;
  }
}
