/** Satellite positions in the Earth-fixed frame (satellite.cc), queried through a record
    that changes under a const interface. */
module Position {
  import opened Integrator
  import opened Sgp4

  ghost predicate Circular(m: Math, x: real) {
    m.sin(x) * m.sin(x) + m.cos(x) * m.cos(x) == 1.0
  }

  // sin and cos are related as they should; no other property of them is used.
  ghost predicate Trigonometric(m: Math) {
    forall x :: Circular(m, x)
  }

  function Norm2(v: Vector): real { v.x * v.x + v.y * v.y + v.z * v.z }

  // ---------- frames ----------

  datatype Matrix = Matrix(
    m00: real, m01: real, m02: real,
    m10: real, m11: real, m12: real,
    m20: real, m21: real, m22: real)
  {
    function Times(v: Vector): Vector {
      Vector(m00 * v.x + m01 * v.y + m02 * v.z, m10 * v.x + m11 * v.y + m12 * v.z, m20 * v.x + m21 * v.y + m22 * v.z)
    }
  }

  // What a date contributes: polar motion, sidereal time, spin rate, and minutes since the elements' epoch.
  datatype Instant = Instant(xp: real, yp: real, gmst: real, omega: real, sinceEpoch: real)

  function PefToItrf(m: Math, t: Instant): Matrix {
    var (cosxp, cosyp, sinxp, sinyp) := (m.cos(t.xp), m.cos(t.yp), m.sin(t.xp), m.sin(t.yp));
    Matrix(
      cosxp, sinyp * sinxp, cosyp * sinxp,
      0.0, cosyp, -sinyp,
      -sinxp, sinyp * cosxp, cosyp * cosxp)
  }

  function TemeToPef(m: Math, t: Instant): Matrix {
    var (cosg, sing) := (m.cos(t.gmst), m.sin(t.gmst));
    Matrix(
      cosg, sing, 0.0,
      -sing, cosg, 0.0,
      0.0, 0.0, 1.0)
  }

  function TemeToItrf(m: Math, r: Vector, t: Instant): Vector {
    PefToItrf(m, t).Times(TemeToPef(m, t).Times(r))
  }

  // Velocity also loses the rotation of the frame itself.
  function VelocityToItrf(m: Math, r: Vector, v: Vector, t: Instant): Vector {
    var (rp, vp) := (TemeToPef(m, t).Times(r), TemeToPef(m, t).Times(v));
    PefToItrf(m, t).Times(Vector(vp.x + t.omega * rp.y, vp.y - t.omega * rp.x, vp.z))
  }

  // (u, v) is (x, y) turned by the angle with sine s and cosine c.
  lemma TurnKeepsLength(x: real, y: real, s: real, c: real, u: real, v: real)
    requires s * s + c * c == 1.0
    requires u == c * x + s * y && v == c * y - s * x
    ensures u * u + v * v == x * x + y * y
  {
    var s2 := s * s;
    assert c * c == 1.0 - s2;
    assert (c * x + s * y) * (c * x + s * y) + (c * y - s * x) * (c * y - s * x) == (c * c + s2) * (x * x + y * y);
  }

  lemma TemeToPefKeepsLength(m: Math, r: Vector, t: Instant)
    requires Trigonometric(m)
    ensures Norm2(TemeToPef(m, t).Times(r)) == Norm2(r)
  {
    assert Circular(m, t.gmst);
    var w := TemeToPef(m, t).Times(r);
    TurnKeepsLength(r.x, r.y, m.sin(t.gmst), m.cos(t.gmst), w.x, w.y);
  }

  lemma PefToItrfKeepsLength(m: Math, r: Vector, t: Instant)
    requires Trigonometric(m)
    ensures Norm2(PefToItrf(m, t).Times(r)) == Norm2(r)
  {
    var (cx, cy, sx, sy) := (m.cos(t.xp), m.cos(t.yp), m.sin(t.xp), m.sin(t.yp));
    assert Circular(m, t.xp) && Circular(m, t.yp);
    var w := PefToItrf(m, t).Times(r);
    var p := sy * r.y + cy * r.z;
    TurnKeepsLength(r.z, r.y, sy, cy, p, w.y);
    TurnKeepsLength(r.x, p, sx, cx, w.x, w.z);
  }

  /** The frame change is a rotation: distances from the Earth's centre are kept. */
  lemma FrameKeepsLength(m: Math, r: Vector, t: Instant)
    requires Trigonometric(m)
    ensures Norm2(TemeToItrf(m, r, t)) == Norm2(r)
  {
    TemeToPefKeepsLength(m, r, t);
    PefToItrfKeepsLength(m, TemeToPef(m, t).Times(r), t);
  }

  // ---------- direction and altitude ----------

  lemma DirectionIsUnit(m: Math, s: Short)
    requires Trigonometric(m)
    ensures Norm2(Towards(m, s)) == 1.0
  {
    var (sn, cn, si, ci, su, cu) := (m.sin(s.xnode), m.cos(s.xnode), m.sin(s.xinc), m.cos(s.xinc), m.sin(s.su), m.cos(s.su));
    assert Circular(m, s.xnode) && Circular(m, s.xinc) && Circular(m, s.su);
    var u := Towards(m, s);
    var a := ci * su;
    TurnKeepsLength(cu, -a, sn, cn, u.x, -u.y);
    TurnKeepsLength(su, 0.0, si, ci, a, -u.z);
  }

  /** The two orientation vectors of the orbit are orthonormal. */
  lemma OrientationOrthonormal(m: Math, s: Short)
    requires Trigonometric(m)
    ensures var u, v := Towards(m, s), Along(m, s);
      Norm2(u) == 1.0 && Norm2(v) == 1.0 && u.x * v.x + u.y * v.y + u.z * v.z == 0.0
  {
    var (sn, cn, si, ci, su, cu) := (m.sin(s.xnode), m.cos(s.xnode), m.sin(s.xinc), m.cos(s.xinc), m.sin(s.su), m.cos(s.su));
    assert Circular(m, s.xnode) && Circular(m, s.xinc) && Circular(m, s.su);
    DirectionIsUnit(m, s);
    AlongIsUnit(m, s);
    var u, v := Towards(m, s), Along(m, s);
    TurnKeepsLength(cu - su, -(ci * (su + cu)), sn, cn, u.x + v.x, -(u.y + v.y));
    TurnKeepsLength(su + cu, 0.0, si, ci, ci * (su + cu), -(u.z + v.z));
    SumOfSquares(u, v);
    assert Norm2(Vector(u.x + v.x, u.y + v.y, u.z + v.z)) == (cu - su) * (cu - su) + (su + cu) * (su + cu);
  }

  lemma AlongIsUnit(m: Math, s: Short)
    requires Trigonometric(m)
    ensures Norm2(Along(m, s)) == 1.0
  {
    var (sn, cn, si, ci, su, cu) := (m.sin(s.xnode), m.cos(s.xnode), m.sin(s.xinc), m.cos(s.xinc), m.sin(s.su), m.cos(s.su));
    assert Circular(m, s.xnode) && Circular(m, s.xinc) && Circular(m, s.su);
    var v := Along(m, s);
    TurnKeepsLength(-su, -(ci * cu), sn, cn, v.x, -v.y);
    TurnKeepsLength(cu, 0.0, si, ci, ci * cu, -v.z);
  }

  lemma SumOfSquares(u: Vector, v: Vector)
    ensures Norm2(Vector(u.x + v.x, u.y + v.y, u.z + v.z)) == Norm2(u) + Norm2(v) + 2.0 * (u.x * v.x + u.y * v.y + u.z * v.z)
  {
  }

  lemma ScaledDirection(u: Vector, k: real, radius: real, r: Vector)
    requires Norm2(u) == 1.0 && k >= 1.0 && radius > 0.0
    requires r == Vector((k * u.x) * radius, (k * u.y) * radius, (k * u.z) * radius)
    ensures Norm2(r) >= radius * radius
  {
    var f := k * radius;
    assert r.x == f * u.x && r.y == f * u.y && r.z == f * u.z;
    assert Norm2(r) == f * f * Norm2(u);
    assert f >= radius;
    assert f * f >= radius * radius;
  }

  lemma ShortAboveSurface(m: Math, g: Gravity, s: Short)
    requires Trigonometric(m) && g.radius > 0.0 && s.mrt >= 1.0
    ensures Norm2(PositionOf(m, g, s)) >= g.radius * g.radius
  {
    DirectionIsUnit(m, s);
    ScaledDirection(Towards(m, s), s.mrt, g.radius, PositionOf(m, g, s));
  }

  lemma ShortOf(m: Math, g: Gravity, el: Elements, lp0: LongPeriod, inc0: Inclined, am: real, nm: real, a: Angles) returns (s: Short)
    requires FromAngles(m, g, el, lp0, inc0, am, nm, a).State?
    ensures s.mrt >= 1.0 && FromAngles(m, g, el, lp0, inc0, am, nm, a) == State(PositionOf(m, g, s), VelocityOf(m, g, s))
  {
    var (sinip, cosip) := (m.sin(a.xincp), m.cos(a.xincp));
    var k := KeplerOf(m, am, a, if el.deep then LongPeriodOf(m, g, sinip, cosip) else lp0);
    var sc := Anomaly(m, k, k.u, 9999.9, 1, (0.0, 0.0));
    s := ShortPeriod(m, g, am, nm, k, sc, a, sinip, cosip, if el.deep then InclinedOf(cosip) else inc0);
  }

  ghost predicate FarEnough(o: Outcome, radius: real) {
    o.State? ==> Norm2(o.r) >= radius * radius
  }

  /** A position that is reported at all is at least one Earth radius from the centre. */
  lemma PositionAboveSurface(m: Math, g: Gravity, el: Elements, lp0: LongPeriod, inc0: Inclined, t: real)
    requires Trigonometric(m) && g.radius > 0.0
    ensures FarEnough(Propagate(m, g, el, lp0, inc0, t), g.radius)
  {
    if Propagate(m, g, el, lp0, inc0, t).State? {
      var o := OsculatingAt(m, g, el, t);
      var s := ShortOf(m, g, el, lp0, inc0, o.am, o.nm, o.angles);
      ShortAboveSurface(m, g, s);
    }
  }

  // ---------- the satellite object ----------

  // wgs72, the constants the satellite object uses.
  function Wgs72(m: Math): Gravity {
    var radius := 6378.135;
    var j2 := 0.001082616;
    Gravity(m.div(60.0, m.sqrt(m.div(radius * radius * radius, 398600.8))), j2, m.div(-0.00000253881, j2), radius)
  }

  function Metres(v: Vector): Vector { Vector(v.x * 1000.0, v.y * 1000.0, v.z * 1000.0) }

  const ORIGIN := Vector(0.0, 0.0, 0.0)

  function PositionFrom(m: Math, o: Outcome, t: Instant): Vector {
    match o
    case Failed(_) => ORIGIN
    case State(r, _) => Metres(TemeToItrf(m, r, t))
  }

  function VelocityFrom(m: Math, o: Outcome, t: Instant): Vector {
    match o
    case Failed(_) => ORIGIN
    case State(r, v) => Metres(VelocityToItrf(m, r, v, t))
  }

  // Position and velocity as functions of elements and date.
  function PositionAt(m: Math, el: Elements, lp0: LongPeriod, inc0: Inclined, t: Instant): Vector {
    PositionFrom(m, Propagate(m, Wgs72(m), el, lp0, inc0, t.sinceEpoch), t)
  }

  function VelocityAt(m: Math, el: Elements, lp0: LongPeriod, inc0: Inclined, t: Instant): Vector {
    VelocityFrom(m, Propagate(m, Wgs72(m), el, lp0, inc0, t.sinceEpoch), t)
  }

  /** A reported position is the zero vector or lies at least 6378135 m from the Earth's centre. */
  lemma ReportedPosition(m: Math, el: Elements, lp0: LongPeriod, inc0: Inclined, t: Instant)
    requires Trigonometric(m)
    ensures var p := PositionAt(m, el, lp0, inc0, t);
      p == ORIGIN || Norm2(p) >= 6378135.0 * 6378135.0
  {
    var o := PropagatedFar(m, el, lp0, inc0, t);
    OutcomeFar(m, o, t);
  }

  /** The zero vector is reported exactly on error. */
  lemma ZeroMeansError(m: Math, el: Elements, lp0: LongPeriod, inc0: Inclined, t: Instant)
    requires Trigonometric(m)
    ensures PositionAt(m, el, lp0, inc0, t) == ORIGIN <==> Propagate(m, Wgs72(m), el, lp0, inc0, t.sinceEpoch).Failed?
  {
    var o := PropagatedFar(m, el, lp0, inc0, t);
    OutcomeFar(m, o, t);
  }

  lemma PropagatedFar(m: Math, el: Elements, lp0: LongPeriod, inc0: Inclined, t: Instant) returns (o: Outcome)
    requires Trigonometric(m)
    ensures o == Propagate(m, Wgs72(m), el, lp0, inc0, t.sinceEpoch)
    ensures FarEnough(o, 6378.135)
  {
    var g := Wgs72(m);
    assert g.radius == 6378.135;
    o := Propagate(m, g, el, lp0, inc0, t.sinceEpoch);
    PositionAboveSurface(m, g, el, lp0, inc0, t.sinceEpoch);
  }

  lemma OutcomeFar(m: Math, o: Outcome, t: Instant)
    requires Trigonometric(m) && FarEnough(o, 6378.135)
    ensures PositionFrom(m, o, t) == ORIGIN || Norm2(PositionFrom(m, o, t)) >= 6378135.0 * 6378135.0
    ensures PositionFrom(m, o, t) == ORIGIN <==> o.Failed?
  {
    if o.State? {
      FarReport(m, o.r, t);
    }
  }

  lemma FarReport(m: Math, r: Vector, t: Instant)
    requires Trigonometric(m) && Norm2(r) >= 6378.135 * 6378.135
    ensures Norm2(Metres(TemeToItrf(m, r, t))) >= 6378135.0 * 6378135.0
    ensures Metres(TemeToItrf(m, r, t)) != ORIGIN
  {
    FrameKeepsLength(m, r, t);
    FarInMetres(TemeToItrf(m, r, t));
  }

  lemma FarInMetres(v: Vector)
    requires Norm2(v) >= 6378.135 * 6378.135
    ensures Norm2(Metres(v)) >= 6378135.0 * 6378135.0
    ensures Metres(v) != ORIGIN
  {
    assert Norm2(Metres(v)) == 1000000.0 * Norm2(v);
  }

  class Satellite {
    const initialized: bool
    const rec: SatRecord

    ghost predicate Valid()
      reads this, rec, rec.integrator
    {
      rec.Valid() && rec.g == Wgs72(rec.m)
    }

    constructor (initialized: bool, m: Math, el: Elements, lp0: LongPeriod, inc0: Inclined)
      ensures Valid() && this.initialized == initialized && fresh(rec) && fresh(rec.integrator)
      ensures rec.m == m && rec.el == el && rec.lp0 == lp0 && rec.inc0 == inc0
    {
      this.initialized := initialized;
      rec := new SatRecord(m, Wgs72(m), el, lp0, inc0);
    }

    /** Though the record is written, the answer is that of a fresh record. */
    method GetPosition(t: Instant) returns (p: Vector)
      requires Valid()
      modifies rec, rec.integrator
      ensures Valid()
      ensures p == if initialized then PositionAt(rec.m, rec.el, rec.lp0, rec.inc0, t) else ORIGIN
    {
      if !initialized {
        return ORIGIN;
      }
      var ok, r, v := rec.Sgp4(t.sinceEpoch);
      if rec.error != 0 {
        return ORIGIN;
      }
      return Metres(TemeToItrf(rec.m, r, t));
    }

    method GetVelocity(t: Instant) returns (p: Vector)
      requires Valid()
      modifies rec, rec.integrator
      ensures Valid()
      ensures p == if initialized then VelocityAt(rec.m, rec.el, rec.lp0, rec.inc0, t) else ORIGIN
    {
      if !initialized {
        return ORIGIN;
      }
      var ok, r, v := rec.Sgp4(t.sinceEpoch);
      if rec.error != 0 {
        return ORIGIN;
      }
      return Metres(VelocityToItrf(rec.m, r, v, t));
    }
  }

  datatype Query = WherePosition(t: Instant) | WhereVelocity(t: Instant)

  ghost function Answer(sat: Satellite, q: Query): Vector {
    if !sat.initialized then ORIGIN
    else match q
      case WherePosition(t) => PositionAt(sat.rec.m, sat.rec.el, sat.rec.lp0, sat.rec.inc0, t)
      case WhereVelocity(t) => VelocityAt(sat.rec.m, sat.rec.el, sat.rec.lp0, sat.rec.inc0, t)
  }

  // The first queries have been answered.
  ghost predicate Answered(sat: Satellite, queries: seq<Query>, answers: seq<Vector>) {
    |answers| <= |queries| && forall i :: 0 <= i < |answers| ==> answers[i] == Answer(sat, queries[i])
  }

  lemma OneMoreAnswer(sat: Satellite, queries: seq<Query>, answers: seq<Vector>, p: Vector)
    requires Answered(sat, queries, answers) && |answers| < |queries| && p == Answer(sat, queries[|answers|])
    ensures Answered(sat, queries, answers + [p])
  {
  }

  method AskOne(sat: Satellite, q: Query) returns (p: Vector)
    requires sat.Valid()
    modifies sat.rec, sat.rec.integrator
    ensures sat.Valid() && p == Answer(sat, q)
  {
    match q {
      case WherePosition(t) => p := sat.GetPosition(t);
      case WhereVelocity(t) => p := sat.GetVelocity(t);
    }
  }

  /** Any sequence of queries, at times in any order, gets the answers each query would get
      alone. */
  method Ask(sat: Satellite, queries: seq<Query>) returns (answers: seq<Vector>)
    requires sat.Valid()
    modifies sat.rec, sat.rec.integrator
    ensures sat.Valid() && |answers| == |queries|
    ensures Answered(sat, queries, answers)
  {
    answers := [];
    while |answers| < |queries|
      invariant sat.Valid() && Answered(sat, queries, answers)
    {
      var p := AskOne(sat, queries[|answers|]);
      OneMoreAnswer(sat, queries, answers, p);
      answers := answers + [p];
    }
  }
}
