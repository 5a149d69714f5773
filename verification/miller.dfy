/**
 * The Miller parametrisation of a flux surface, shared by the geometry
 * layer plot and the 3D profile plot:
 *
 *   R(theta) = R_c + r cos(theta + arcsin(delta) sin theta)
 *   Z(theta) = Z_c + kappa r sin theta
 *
 * with the triangularity delta clamped to [-0.99, 0.99] before arcsin.
 */
module Miller {
  import opened RealMath

  /** The clamp bound applied to the triangularity. */
  const DeltaLimit: real := 0.99

  /** `np.clip(delta, -0.99, 0.99)`. */
  function ClampDelta(delta: real): (d: real)
    ensures -DeltaLimit <= d <= DeltaLimit
  {
    Clip(delta, -DeltaLimit, DeltaLimit)
  }

  /** A triangularity already in range is left alone, anything else goes to
      the nearer bound, and clamping twice is clamping once. */
  lemma ClampDeltaLaws(delta: real)
    ensures -DeltaLimit <= delta <= DeltaLimit <==> ClampDelta(delta) == delta
    ensures delta > DeltaLimit ==> ClampDelta(delta) == DeltaLimit
    ensures delta < -DeltaLimit ==> ClampDelta(delta) == -DeltaLimit
    ensures ClampDelta(ClampDelta(delta)) == ClampDelta(delta)
  {
  }

  /** The major-radius coordinate of the surface point at angle theta. A
      surface of zero minor radius is the single point at its centre. */
  function MillerR(m: Maths, rc: real, r: real, delta: real, theta: real): (x: real)
    ensures r == 0.0 ==> x == rc
  {
    rc + r * m.cos(ShiftedAngle(m, delta, theta))
  }

  /** The argument of the cosine, theta + arcsin(delta) sin theta. */
  function ShiftedAngle(m: Maths, delta: real, theta: real): real {
    theta + m.arcsin(ClampDelta(delta)) * m.sin(theta)
  }

  /** The vertical coordinate of the surface point at angle theta; it stays
      at the centre height when r or kappa is zero. */
  function MillerZ(m: Maths, zc: real, kappa: real, r: real, theta: real): (z: real)
    ensures r == 0.0 || kappa == 0.0 ==> z == zc
  {
    zc + kappa * r * m.sin(theta)
  }

  /** A surface outline: one (R, Z) pair per sampled angle. */
  datatype Outline = Outline(rs: seq<real>, zs: seq<real>)

  /** The outline of the surface with centre (rc, zc), minor radius r,
      elongation kappa and triangularity delta, sampled at `thetas`. */
  function Surface(m: Maths, rc: real, zc: real, r: real, kappa: real, delta: real,
                   thetas: seq<real>): (o: Outline)
    ensures |o.rs| == |thetas| && |o.zs| == |thetas|
  {
    Outline(
      seq(|thetas|, j requires 0 <= j < |thetas| => MillerR(m, rc, r, delta, thetas[j])),
      seq(|thetas|, j requires 0 <= j < |thetas| => MillerZ(m, zc, kappa, r, thetas[j])))
  }

  /** Multiplying by a factor in [-1, 1] does not increase magnitude. */
  lemma BoundedFactor(x: real, c: real)
    requires -1.0 <= c <= 1.0
    ensures Abs(x * c) <= Abs(x)
  {
    Distribute(x, c);
    if x >= 0.0 {
      ProductNonNegative(x, 1.0 - c);
      ProductNonNegative(x, 1.0 + c);
    } else {
      ProductNonPositive(x, 1.0 - c);
      ProductNonPositive(x, 1.0 + c);
    }
  }

  /** Each surface point lies in the box |R - R_c| <= |r|,
      |Z - Z_c| <= |kappa r| around the centre. */
  lemma PointInBox(m: Maths, rc: real, zc: real, r: real, kappa: real, delta: real, theta: real)
    requires TrigBounded(m)
    ensures Abs(MillerR(m, rc, r, delta, theta) - rc) <= Abs(r)
    ensures Abs(MillerZ(m, zc, kappa, r, theta) - zc) <= Abs(kappa * r)
  {
    RadialInBox(m, rc, r, delta, theta);
    VerticalInBox(m, zc, kappa, r, theta);
  }

  lemma RadialInBox(m: Maths, rc: real, r: real, delta: real, theta: real)
    requires TrigBounded(m)
    ensures Abs(MillerR(m, rc, r, delta, theta) - rc) <= Abs(r)
  {
    var c := m.cos(ShiftedAngle(m, delta, theta));
    assert -1.0 <= c <= 1.0;
    BoundedFactor(r, c);
  }

  lemma VerticalInBox(m: Maths, zc: real, kappa: real, r: real, theta: real)
    requires TrigBounded(m)
    ensures Abs(MillerZ(m, zc, kappa, r, theta) - zc) <= Abs(kappa * r)
  {
    var s := m.sin(theta);
    assert -1.0 <= s <= 1.0;
    BoundedFactor(kappa * r, s);
  }

  /** The values sin 0 = 0 and cos 0 = 1. */
  ghost predicate TrigAtZero(m: Maths) {
    m.sin(0.0) == 0.0 && m.cos(0.0) == 1.0
  }

  /** At theta = 0 the surface passes through the outboard midplane point
      (R_c + r, Z_c), whatever the triangularity and elongation. */
  lemma OutboardMidplane(m: Maths, rc: real, zc: real, r: real, kappa: real, delta: real)
    requires TrigAtZero(m)
    ensures MillerR(m, rc, r, delta, 0.0) == rc + r
    ensures MillerZ(m, zc, kappa, r, 0.0) == zc
  {
    assert ShiftedAngle(m, delta, 0.0) == 0.0;
  }

  /** Every sampled point of an outline lies in the box of `PointInBox`. */
  lemma OutlineInBox(m: Maths, rc: real, zc: real, r: real, kappa: real, delta: real,
                     thetas: seq<real>, j: nat)
    requires TrigBounded(m) && j < |thetas|
    ensures var o := Surface(m, rc, zc, r, kappa, delta, thetas);
      Abs(o.rs[j] - rc) <= Abs(r) && Abs(o.zs[j] - zc) <= Abs(kappa * r)
  {
    PointInBox(m, rc, zc, r, kappa, delta, thetas[j]);
  }
}
