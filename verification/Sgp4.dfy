/** The sgp4 propagator as a record that is written at every query (sgp4 in sgp4unit.cpp),
    and the pure function of elements and time that its answers turn out to be. */
module Sgp4 {
  import opened Integrator

  datatype Vector = Vector(x: real, y: real, z: real)

  // Earth model constants; radius in km.
  datatype Gravity = Gravity(xke: real, j2: real, j3oj2: real, radius: real)

  datatype Angles = Angles(ep: real, xincp: real, nodep: real, argpp: real, mp: real)

  // The fields that initialization sets and sgp4 only reads. `periodics` stands for dpper,
  // the lunar-solar periodics of the record at a given time.
  datatype Elements = Elements(
    deep: bool, isimp: bool, res: Resonance,
    mo: real, mdot: real, nodeo: real, nodedot: real, nodecf: real, ecco: real, inclo: real, bstar: real,
    cc1: real, cc4: real, cc5: real, d2: real, d3: real, d4: real,
    t2cof: real, t3cof: real, t4cof: real, t5cof: real,
    omgcof: real, eta: real, xmcof: real, delmo: real, sinmao: real,
    periodics: (real, Angles) -> Angles)

  // The fields that sgp4 writes again for every deep-space query.
  datatype LongPeriod = LongPeriod(aycof: real, xlcof: real)
  datatype Inclined = Inclined(con41: real, x1mth2: real, x7thm1: real)

  datatype Outcome = Failed(code: int) | State(r: Vector, v: Vector)

  // ---------- stages ----------

  datatype Secular = Secular(mm: real, argpm: real, nodem: real, tempa: real, tempe: real, templ: real)

  function SecularAt(m: Math, el: Elements, t: real): Secular {
    var xmdf := el.mo + el.mdot * t;
    var argpdf := el.res.argpo + el.res.argpdot * t;
    var nodedf := el.nodeo + el.nodedot * t;
    var t2 := t * t;
    var nodem := nodedf + el.nodecf * t2;
    var tempa := 1.0 - el.cc1 * t;
    var tempe := el.bstar * el.cc4 * t;
    var templ := el.t2cof * t2;
    if el.isimp then Secular(xmdf, argpdf, nodem, tempa, tempe, templ)
    else
      var delomg := el.omgcof * t;
      var delmtemp := 1.0 + el.eta * m.cos(xmdf);
      var delm := el.xmcof * (delmtemp * delmtemp * delmtemp - el.delmo);
      var temp := delomg + delm;
      var mm := xmdf + temp;
      var t3 := t2 * t;
      var t4 := t3 * t;
      Secular(mm, argpdf - temp, nodem,
        tempa - el.d2 * t2 - el.d3 * t3 - el.d4 * t4,
        tempe + el.bstar * el.cc5 * (m.sin(mm) - el.sinmao),
        templ + el.t3cof * t3 + t4 * (el.t4cof + t * el.t5cof))
  }

  function EpochMean(el: Elements, s: Secular): Mean {
    Mean(el.ecco, s.argpm, el.inclo, s.mm, s.nodem, el.res.no)
  }

  // Semi-major axis and mean motion after drag.
  function Axis(m: Math, g: Gravity, s: Secular, nm: real): real {
    m.pow(m.div(g.xke, nm), 2.0 / 3.0) * s.tempa * s.tempa
  }

  function Motion(m: Math, g: Gravity, am: real): real {
    m.div(g.xke, m.pow(am, 1.5))
  }

  function Clamped(em: real): real { if em < 0.000001 then 0.000001 else em }

  // Drag moves the mean longitude.
  function Dragged(el: Elements, s: Secular, e1: Mean): Mean { e1.(mm := e1.mm + el.res.no * s.templ) }

  // Mean angles reduced to one revolution.
  function Reduced(m: Math, x: Mean, em: real): Angles {
    var xlm := m.fmod(x.mm + x.argpm + x.nodem, TWO_PI);
    var nodem := m.fmod(x.nodem, TWO_PI);
    var argpm := m.fmod(x.argpm, TWO_PI);
    Angles(em, x.inclm, nodem, argpm, m.fmod(xlm - argpm - nodem, TWO_PI))
  }

  // A negative inclination turns the node around.
  function Upright(a: Angles): Angles {
    if a.xincp < 0.0 then
      a.(xincp := -a.xincp, nodep := a.nodep + TWO_PI / 2.0, argpp := a.argpp - TWO_PI / 2.0)
    else a
  }

  function LongPeriodOf(m: Math, g: Gravity, sinip: real, cosip: real): LongPeriod {
    var d := if Abs(cosip + 1.0) > 0.0000000000015 then 1.0 + cosip else 0.0000000000015;
    LongPeriod(-0.5 * g.j3oj2 * sinip, m.div(LongitudeTerm(g, sinip, cosip), d))
  }

  function LongitudeTerm(g: Gravity, sinip: real, cosip: real): real { -0.25 * g.j3oj2 * sinip * (3.0 + 5.0 * cosip) }

  function InclinedOf(cosip: real): Inclined {
    var c := cosip * cosip;
    Inclined(3.0 * c - 1.0, 1.0 - c, 7.0 * c - 1.0)
  }

  datatype Kepler = Kepler(u: real, axnl: real, aynl: real)

  function KeplerOf(m: Math, am: real, a: Angles, lp: LongPeriod): Kepler {
    var axnl := a.ep * m.cos(a.argpp);
    var temp := m.div(1.0, Parameter(am, a.ep));
    var aynl := a.ep * m.sin(a.argpp) + temp * lp.aycof;
    var xl := a.mp + a.argpp + a.nodep + Shift(m, am, a, lp);
    Kepler(m.fmod(xl - a.nodep, TWO_PI), axnl, aynl)
  }

  function Parameter(am: real, ep: real): real { am * (1.0 - ep * ep) }
  function Shift(m: Math, am: real, a: Angles, lp: LongPeriod): real {
    m.div(1.0, Parameter(am, a.ep)) * lp.xlcof * (a.ep * m.cos(a.argpp))
  }

  // The Newton correction, limited to 0.95 either way.
  function Correction(m: Math, k: Kepler, eo1: real): real {
    var d := m.div(Numerator(m, k, eo1), Denominator(m, k, eo1));
    if Abs(d) >= 0.95 then (if d > 0.0 then 0.95 else -0.95) else d
  }

  function Numerator(m: Math, k: Kepler, eo1: real): real { k.u - k.aynl * m.cos(eo1) + k.axnl * m.sin(eo1) - eo1 }
  function Denominator(m: Math, k: Kepler, eo1: real): real { 1.0 - m.cos(eo1) * k.axnl - m.sin(eo1) * k.aynl }

  // Sine and cosine of the eccentric anomaly as of the last round of at most ten.
  function Anomaly(m: Math, k: Kepler, eo1: real, tem5: real, ktr: nat, sc: (real, real)): (real, real)
    decreases 11 - ktr
  {
    if Abs(tem5) >= 0.000000000001 && ktr <= 10 then
      var d := Correction(m, k, eo1);
      Anomaly(m, k, eo1 + d, d, ktr + 1, (m.sin(eo1), m.cos(eo1)))
    else sc
  }

  // Short-period quantities: distance in earth radii, its rates, and the orientation angles.
  datatype Short = Short(mrt: real, mvt: real, rvdot: real, su: real, xnode: real, xinc: real)

  // Sums of the eccentricity vector with sine and cosine of the eccentric anomaly.
  function Ecose(k: Kepler, sc: (real, real)): real { k.axnl * sc.1 + k.aynl * sc.0 }
  function Esine(k: Kepler, sc: (real, real)): real { k.axnl * sc.0 - k.aynl * sc.1 }
  function El2(k: Kepler): real { k.axnl * k.axnl + k.aynl * k.aynl }

  function Latus(am: real, k: Kepler): real { am * (1.0 - El2(k)) }

  // The orbit around a round Earth: distance, its rate and the rate across, and the argument of
  // latitude by its sine and cosine.
  datatype Conic = Conic(rl: real, rdotl: real, rvdotl: real, betal: real, sinu: real, cosu: real)

  function ConicOf(m: Math, am: real, k: Kepler, sc: (real, real)): Conic {
    var betal := m.sqrt(1.0 - El2(k));
    ConicAt(m, am, Latus(am, k), am * (1.0 - Ecose(k, sc)), betal, Esine(k, sc), m.div(Esine(k, sc), 1.0 + betal), k, sc)
  }

  // Distance times its rate.
  function Radial(m: Math, am: real, esine: real): real { m.sqrt(am) * esine }

  function ConicAt(m: Math, am: real, pl: real, rl: real, betal: real, esine: real, temp: real, k: Kepler, sc: (real, real)): Conic {
    Conic(rl, m.div(Radial(m, am, esine), rl), m.div(m.sqrt(pl), rl), betal,
      m.div(am, rl) * (sc.0 - k.aynl - k.axnl * temp),
      m.div(am, rl) * (sc.1 - k.axnl + k.aynl * temp))
  }

  // The short-period effects of the flattening on it.
  function Flattened(m: Math, g: Gravity, nm: real, pl: real, c: Conic, a: Angles, sinip: real, cosip: real, inc: Inclined): Short {
    Perturbed(m, g, nm, Temp1(m, g, pl), Temp2(m, g, pl), Sin2u(c), Cos2u(c), c, a, sinip, cosip, inc)
  }

  function Temp1(m: Math, g: Gravity, pl: real): real { 0.5 * g.j2 * m.div(1.0, pl) }
  function Temp2(m: Math, g: Gravity, pl: real): real { Temp1(m, g, pl) * m.div(1.0, pl) }
  function Sin2u(c: Conic): real { (c.cosu + c.cosu) * c.sinu }
  function Cos2u(c: Conic): real { 1.0 - 2.0 * c.sinu * c.sinu }

  function Perturbed(m: Math, g: Gravity, nm: real, temp1: real, temp2: real, sin2u: real, cos2u: real,
                     c: Conic, a: Angles, sinip: real, cosip: real, inc: Inclined): Short
  {
    Short(
      c.rl * (1.0 - 1.5 * temp2 * c.betal * inc.con41) + 0.5 * temp1 * inc.x1mth2 * cos2u,
      c.rdotl - m.div(RadialSwing(nm, temp1, sin2u, inc), g.xke),
      c.rvdotl + m.div(AcrossSwing(nm, temp1, cos2u, inc), g.xke),
      m.atan2(c.sinu, c.cosu) - 0.25 * temp2 * inc.x7thm1 * sin2u,
      a.nodep + 1.5 * temp2 * cosip * sin2u,
      a.xincp + 1.5 * temp2 * cosip * sinip * cos2u)
  }

  function RadialSwing(nm: real, temp1: real, sin2u: real, inc: Inclined): real { nm * temp1 * inc.x1mth2 * sin2u }

  function AcrossSwing(nm: real, temp1: real, cos2u: real, inc: Inclined): real {
    nm * temp1 * (inc.x1mth2 * cos2u + 1.5 * inc.con41)
  }

  function ShortPeriod(m: Math, g: Gravity, am: real, nm: real, k: Kepler, sc: (real, real), a: Angles, sinip: real, cosip: real, inc: Inclined): Short {
    Flattened(m, g, nm, Latus(am, k), ConicOf(m, am, k, sc), a, sinip, cosip, inc)
  }

  // Orientation vectors: towards the satellite, and along its motion.
  function Towards(m: Math, s: Short): Vector {
    var xmx := -m.sin(s.xnode) * m.cos(s.xinc);
    var xmy := m.cos(s.xnode) * m.cos(s.xinc);
    Vector(xmx * m.sin(s.su) + m.cos(s.xnode) * m.cos(s.su),
           xmy * m.sin(s.su) + m.sin(s.xnode) * m.cos(s.su),
           m.sin(s.xinc) * m.sin(s.su))
  }

  function Along(m: Math, s: Short): Vector {
    var xmx := -m.sin(s.xnode) * m.cos(s.xinc);
    var xmy := m.cos(s.xnode) * m.cos(s.xinc);
    Vector(xmx * m.cos(s.su) - m.cos(s.xnode) * m.sin(s.su),
           xmy * m.cos(s.su) - m.sin(s.xnode) * m.sin(s.su),
           m.sin(s.xinc) * m.cos(s.su))
  }

  function PositionOf(m: Math, g: Gravity, s: Short): Vector {
    var u := Towards(m, s);
    Vector((s.mrt * u.x) * g.radius, (s.mrt * u.y) * g.radius, (s.mrt * u.z) * g.radius)
  }

  function VelocityOf(m: Math, g: Gravity, s: Short): Vector {
    var u, v := Towards(m, s), Along(m, s);
    var k := g.radius * g.xke / 60.0;
    Vector((s.mvt * u.x + s.rvdot * v.x) * k, (s.mvt * u.y + s.rvdot * v.y) * k, (s.mvt * u.z + s.rvdot * v.z) * k)
  }

  // ---------- the answer as a function of elements and time ----------

  // From osculating angles on.
  function FromAngles(m: Math, g: Gravity, el: Elements, lp0: LongPeriod, inc0: Inclined, am: real, nm: real, a: Angles): Outcome {
    var (sinip, cosip) := (m.sin(a.xincp), m.cos(a.xincp));
    var k := KeplerOf(m, am, a, if el.deep then LongPeriodOf(m, g, sinip, cosip) else lp0);
    if Latus(am, k) < 0.0 then Failed(4)
    else
      var sc := Anomaly(m, k, k.u, 9999.9, 1, (0.0, 0.0));
      var s := ShortPeriod(m, g, am, nm, k, sc, a, sinip, cosip, if el.deep then InclinedOf(cosip) else inc0);
      if s.mrt < 1.0 then Failed(6) else State(PositionOf(m, g, s), VelocityOf(m, g, s))
  }

  datatype Osculating = Rejected(code: int) | Orbit(am: real, nm: real, angles: Angles)

  // Mean elements at t, with all periodics but the short ones.
  function OsculatingAt(m: Math, g: Gravity, el: Elements, t: real): Osculating {
    var s := SecularAt(m, el, t);
    var e1 := if el.deep then DeepSpace(m, el.res, t, EpochMean(el, s)) else EpochMean(el, s);
    if e1.nm <= 0.0 then Rejected(2)
    else
      var am := Axis(m, g, s, e1.nm);
      var em := e1.em - s.tempe;
      if em >= 1.0 || em < -0.001 then Rejected(1)
      else
        var mean := Reduced(m, Dragged(el, s, e1), Clamped(em));
        var a := if el.deep then Upright(el.periodics(t, mean)) else mean;
        if el.deep && (a.ep < 0.0 || a.ep > 1.0) then Rejected(3) else Orbit(am, Motion(m, g, am), a)
  }

  // lp0 and inc0 are the values set at initialization; only near-earth records use them.
  function Propagate(m: Math, g: Gravity, el: Elements, lp0: LongPeriod, inc0: Inclined, t: real): Outcome {
    match OsculatingAt(m, g, el, t)
    case Rejected(code) => Failed(code)
    case Orbit(am, nm, a) => FromAngles(m, g, el, lp0, inc0, am, nm, a)
  }

  // ---------- the record ----------

  class SatRecord {
    const m: Math
    const g: Gravity
    const el: Elements
    const integrator: DeepSpaceRecord
    const lp0: LongPeriod
    const inc0: Inclined
    var lp: LongPeriod
    var inc: Inclined
    var t: real
    var error: int

    ghost predicate Valid()
      reads this, integrator
    {
      && integrator.Valid() && integrator.math == m && integrator.e == el.res
      && (!el.deep ==> lp == lp0 && inc == inc0)
    }

    constructor (m: Math, g: Gravity, el: Elements, lp0: LongPeriod, inc0: Inclined)
      ensures Valid() && fresh(integrator)
      ensures this.m == m && this.g == g && this.el == el && this.lp0 == lp0 && this.inc0 == inc0
    {
      this.m, this.g, this.el, this.lp0, this.inc0 := m, g, el, lp0, inc0;
      integrator := new DeepSpaceRecord(m, el.res);
      lp, inc, t, error := lp0, inc0, 0.0, 0;
    }

    method SolveKepler(k: Kepler) returns (sineo1: real, coseo1: real)
      ensures (sineo1, coseo1) == Anomaly(m, k, k.u, 9999.9, 1, (0.0, 0.0))
    {
      var eo1, tem5, ktr := k.u, 9999.9, 1;
      sineo1, coseo1 := 0.0, 0.0;
      while Abs(tem5) >= 0.000000000001 && ktr <= 10
        invariant ktr >= 1
        invariant Anomaly(m, k, eo1, tem5, ktr, (sineo1, coseo1)) == Anomaly(m, k, k.u, 9999.9, 1, (0.0, 0.0))
        decreases 11 - ktr
      {
        sineo1, coseo1 := m.sin(eo1), m.cos(eo1);
        tem5 := Correction(m, k, eo1);
        eo1 := eo1 + tem5;
        ktr := ktr + 1;
      }
    }

    // Everything after the lunar-solar periodics. Long-period and inclination terms are
    // written before they are read when the orbit is deep-space.
    method Finish(am: real, nm: real, a: Angles) returns (ok: bool, r: Vector, v: Vector)
      requires !el.deep ==> lp == lp0 && inc == inc0
      requires error == 0
      modifies this
      ensures t == old(t)
      ensures !el.deep ==> lp == lp0 && inc == inc0
      ensures ok <==> error == 0
      ensures (if ok then State(r, v) else Failed(error)) == FromAngles(m, g, el, lp0, inc0, am, nm, a)
    {
      r, v := Vector(0.0, 0.0, 0.0), Vector(0.0, 0.0, 0.0);
      var sinip, cosip := m.sin(a.xincp), m.cos(a.xincp);
      if el.deep {
        lp := LongPeriodOf(m, g, sinip, cosip);
      }
      var k := KeplerOf(m, am, a, lp);
      var sineo1, coseo1 := SolveKepler(k);
      if Latus(am, k) < 0.0 {
        error := 4;
        return false, r, v;
      }
      if el.deep {
        inc := InclinedOf(cosip);
      }
      var s := ShortPeriod(m, g, am, nm, k, (sineo1, coseo1), a, sinip, cosip, inc);
      r, v := PositionOf(m, g, s), VelocityOf(m, g, s);
      if s.mrt < 1.0 {
        error := 6;
        return false, r, v;
      }
      return true, r, v;
    }

    /** The answer depends on the elements and the query time only. */
    method Sgp4(tsince: real) returns (ok: bool, r: Vector, v: Vector)
      requires Valid()
      modifies this, integrator
      ensures Valid() && t == tsince
      ensures ok <==> error == 0
      ensures (if ok then State(r, v) else Failed(error)) == Propagate(m, g, el, lp0, inc0, tsince)
    {
      r, v := Vector(0.0, 0.0, 0.0), Vector(0.0, 0.0, 0.0);
      t := tsince;
      error := 0;
      var s := SecularAt(m, el, t);
      var e1 := EpochMean(el, s);
      if el.deep {
        e1 := integrator.Dspace(t, e1);
      }
      if e1.nm <= 0.0 {
        error := 2;
        return false, r, v;
      }
      var am := Axis(m, g, s, e1.nm);
      var em := e1.em - s.tempe;
      if em >= 1.0 || em < -0.001 {
        error := 1;
        return false, r, v;
      }
      var a := Reduced(m, Dragged(el, s, e1), Clamped(em));
      if el.deep {
        a := Upright(el.periodics(t, a));
        if a.ep < 0.0 || a.ep > 1.0 {
          error := 3;
          return false, r, v;
        }
      }
      ok, r, v := Finish(am, Motion(m, g, am), a);
    }
  }
}
