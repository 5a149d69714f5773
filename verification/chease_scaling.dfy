/**
 * The CHEASE profile normaliser. CHEASE writes every radial channel in
 * units normalised to the major radius R_major and the vacuum field B_0.
 * Building the geometry intermediates multiplies each channel, element by
 * element, by the power of R_major and B_0 (and of pi and mu_0) that undoes
 * that normalisation, then derives the normalised toroidal radius `rhon`
 * and the volume derivative `vpr` from the toroidal flux Phi.
 */
module CheaseScaling {
  import opened RealMath

  /** The raw CHEASE channels, one value per flux surface. */
  datatype CheaseData = CheaseData(
    psi: seq<real>,              // PSIchease = psi / 2pi
    ipProfile: seq<real>,        // Ipprofile
    rhoTor: seq<real>,           // RHO_TOR = sqrt(Phi / pi / B0)
    rInboard: seq<real>,         // R_INBOARD
    rOutboard: seq<real>,        // R_OUTBOARD
    rBphi: seq<real>,            // T = R B_phi
    intJdchi: seq<real>,         // Int(R dl_p / |grad psi|)
    avgInvR: seq<real>,          // <1/R>
    avgInvR2: seq<real>,         // <1/R**2>
    avgBp2: seq<real>,           // <Bp**2>
    avgGradPsi: seq<real>,       // <|grad psi|>
    avgGradPsi2: seq<real>,      // <|grad psi|**2>
    avgB2: seq<real>,            // <B**2>
    avgInvB2: seq<real>,         // <1/B**2>
    deltaUpper: seq<real>,
    deltaBottom: seq<real>,
    elongation: seq<real>)

  /** The geometry intermediates in SI units. */
  datatype Intermediates = Intermediates(
    ipFromParameters: bool,
    rMajor: real,
    aMinor: real,
    b0: real,
    psi: seq<real>,
    ipProfile: seq<real>,
    phi: seq<real>,
    rIn: seq<real>,
    rOut: seq<real>,
    f: seq<real>,
    intDlOverBp: seq<real>,
    avgInvR: seq<real>,
    avgInvR2: seq<real>,
    avgGradPsi2OverR2: seq<real>,
    avgGradPsi: seq<real>,
    avgGradPsi2: seq<real>,
    avgB2: seq<real>,
    avgInvB2: seq<real>,
    deltaUpperFace: seq<real>,
    deltaLowerFace: seq<real>,
    elongation: seq<real>,
    vpr: seq<real>,
    nRho: int,
    hiresFactor: int)

  // ---------------------------------------------------------------------
  // Element-wise scaling
  // ---------------------------------------------------------------------

  /** Multiplies every element by `c`. */
  function Scale(xs: seq<real>, c: real): (ys: seq<real>)
    ensures |ys| == |xs|
  {
    seq(|xs|, i requires 0 <= i < |xs| => xs[i] * c)
  }

  /** x c / c = x for non-zero c. */
  lemma MulDivCancel(x: real, c: real)
    requires c != 0.0
    ensures x * c * (1.0 / c) == x
  {
  }

  /** Scaling by a non-zero factor is undone by scaling by its inverse. */
  lemma ScaleInverse(xs: seq<real>, c: real)
    requires c != 0.0
    ensures Scale(Scale(xs, c), 1.0 / c) == xs
  {
    forall i | 0 <= i < |xs|
      ensures Scale(Scale(xs, c), 1.0 / c)[i] == xs[i]
    {
      MulDivCancel(xs[i], c);
    }
  }

  /** The channels rescaled by a constant factor. */
  datatype Channel =
    | Psi | Ip | RIn | ROut | RBphi | IntJdchi | InvR | InvR2
    | Bp2 | GradPsi | GradPsi2 | B2 | InvB2

  /** Non-zero R_major, B_0 and mu_0: every factor is then defined. */
  predicate Scalable(m: Maths, rMajor: real, b0: real) {
    m.mu0 != 0.0 && rMajor != 0.0 && b0 != 0.0
  }

  /** `psiunnormfactor`, R_major squared times B_0 times 2 pi. */
  function PsiUnnormFactor(m: Maths, rMajor: real, b0: real): real {
    Square(rMajor) * b0 * 2.0 * m.pi
  }

  /** The factor each channel is multiplied by. The plasma current is
      divided by mu_0 and multiplied by R_major and B_0, which over the
      reals is the product with R_major B_0 / mu_0. With pi positive every
      factor is non-zero, so every channel can be scaled back. */
  function Factor(c: Channel, m: Maths, rMajor: real, b0: real): (f: real)
    requires Scalable(m, rMajor, b0)
    ensures PiPositive(m) ==> f != 0.0
  {
    PsiUnnormFactorNonZero(m, rMajor, b0);
    match c
    case Psi => PsiUnnormFactor(m, rMajor, b0)
    case Ip => rMajor * b0 / m.mu0
    case RIn => rMajor
    case ROut => rMajor
    case RBphi => rMajor * b0
    case IntJdchi => rMajor / b0
    case InvR => 1.0 / rMajor
    case InvR2 => 1.0 / Square(rMajor)
    case Bp2 => Square(b0) * (4.0 * Square(m.pi))
    case GradPsi => PsiUnnormFactor(m, rMajor, b0) / rMajor
    case GradPsi2 => Square(PsiUnnormFactor(m, rMajor, b0)) / Square(rMajor)
    case B2 => Square(b0)
    case InvB2 => 1.0 / Square(b0)
  }

  lemma PsiUnnormFactorNonZero(m: Maths, rMajor: real, b0: real)
    requires rMajor != 0.0 && b0 != 0.0
    ensures PiPositive(m) ==> PsiUnnormFactor(m, rMajor, b0) != 0.0
  {
  }

  /** Scaling one channel by its factor and back returns the raw channel. */
  lemma UnscaleScale(c: Channel, m: Maths, rMajor: real, b0: real, xs: seq<real>)
    requires PiPositive(m) && Scalable(m, rMajor, b0)
    ensures Scale(Scale(xs, Factor(c, m, rMajor, b0)), 1.0 / Factor(c, m, rMajor, b0)) == xs
  {
    ScaleInverse(xs, Factor(c, m, rMajor, b0));
  }

  // ---------------------------------------------------------------------
  // Toroidal flux, rhon and vpr
  // ---------------------------------------------------------------------

  /** The toroidal flux through one surface, (rho_tor R_major)^2 B_0 pi. */
  function Flux(m: Maths, rho: real, rMajor: real, b0: real): real {
    Square(rho * rMajor) * b0 * m.pi
  }

  /** The toroidal flux profile Phi. */
  function ToroidalFlux(m: Maths, rhoTor: seq<real>, rMajor: real, b0: real): (phi: seq<real>)
    ensures |phi| == |rhoTor|
  {
    seq(|rhoTor|, i requires 0 <= i < |rhoTor| => Flux(m, rhoTor[i], rMajor, b0))
  }

  lemma FluxAt(m: Maths, rhoTor: seq<real>, rMajor: real, b0: real, i: nat)
    requires i < |rhoTor|
    ensures ToroidalFlux(m, rhoTor, rMajor, b0)[i] == Flux(m, rhoTor[i], rMajor, b0)
  {
  }

  /** The flux vanishes exactly on the magnetic axis, rho_tor = 0. */
  lemma FluxZeroIff(m: Maths, rho: real, rMajor: real, b0: real)
    requires PiPositive(m) && rMajor != 0.0 && b0 != 0.0
    ensures Flux(m, rho, rMajor, b0) == 0.0 <==> rho == 0.0
  {
    if rho != 0.0 {
      var s := rho * rMajor;
      assert s != 0.0;
      SquareSign(s);
      NonZeroProduct3(Square(s), b0, m.pi);
    }
  }

  lemma NonZeroProduct3(a: real, b: real, c: real)
    requires a != 0.0 && b != 0.0 && c != 0.0
    ensures a * b * c != 0.0
  {
  }

  lemma NonNegativeProduct3(a: real, b: real, c: real)
    requires a >= 0.0 && b >= 0.0 && c >= 0.0
    ensures a * b * c >= 0.0
  {
    assert Mul(a, b) >= 0.0;
    assert Mul(Mul(a, b), c) >= 0.0;
  }

  /** With B_0 >= 0 the flux profile is non-negative. */
  lemma FluxNonNegative(m: Maths, rhoTor: seq<real>, rMajor: real, b0: real, i: nat)
    requires PiPositive(m) && b0 >= 0.0 && i < |rhoTor|
    ensures ToroidalFlux(m, rhoTor, rMajor, b0)[i] >= 0.0
  {
    FluxAt(m, rhoTor, rMajor, b0, i);
    var s := rhoTor[i] * rMajor;
    SquareSign(s);
    NonNegativeProduct3(Square(s), b0, m.pi);
  }

  /** `rhon`, the square root of Phi / Phi[-1]. */
  function NormalisedRadius(m: Maths, phi: seq<real>): (rhon: seq<real>)
    requires |phi| >= 1 && phi[|phi| - 1] != 0.0
    ensures |rhon| == |phi|
  {
    seq(|phi|, i requires 0 <= i < |phi| => m.sqrt(phi[i] / phi[|phi| - 1]))
  }

  lemma CancelFlux(x: real, y: real, b: real, p: real)
    requires y != 0.0 && b != 0.0 && p != 0.0
    ensures y * b * p != 0.0
    ensures (x * b * p) / (y * b * p) == x / y
  {
  }

  lemma ScaledSquares(a: real, e: real, r: real)
    requires e != 0.0 && r != 0.0
    ensures Square(e * r) != 0.0
    ensures Square(a * r) / Square(e * r) == Square(a / e)
  {
    SquareOfProduct(a, r);
    SquareOfProduct(e, r);
    SquareSign(e);
    SquareSign(r);
    CancelFactor(Square(a), Square(e), Square(r));
    SquareOfQuotient(a, e);
  }

  /** Phi / Phi[-1] is (rho_tor / rho_tor[-1])^2: R_major, B_0 and pi
      cancel. */
  lemma {:induction false} FluxRatio(m: Maths, rhoTor: seq<real>, rMajor: real, b0: real, i: nat)
    requires PiPositive(m) && rMajor != 0.0 && b0 != 0.0
    requires |rhoTor| >= 1 && rhoTor[|rhoTor| - 1] != 0.0 && i < |rhoTor|
    ensures var phi := ToroidalFlux(m, rhoTor, rMajor, b0);
      phi[|phi| - 1] != 0.0 && phi[i] / phi[|phi| - 1] == Square(rhoTor[i] / rhoTor[|rhoTor| - 1])
  {
    var a, e := rhoTor[i], rhoTor[|rhoTor| - 1];
    FluxAt(m, rhoTor, rMajor, b0, i);
    FluxAt(m, rhoTor, rMajor, b0, |rhoTor| - 1);
    ScaledSquares(a, e, rMajor);
    CancelFlux(Square(a * rMajor), Square(e * rMajor), b0, m.pi);
  }

  /** `rhon` is |rho_tor / rho_tor[-1]|: whatever R_major and B_0 are, the
      normalised radius is the toroidal radius over its edge value, and it
      is 1 at the edge. */
  lemma RadiusRatio(m: Maths, rhoTor: seq<real>, rMajor: real, b0: real, i: nat)
    requires PiPositive(m) && SqrtLaw(m) && rMajor != 0.0 && b0 != 0.0
    requires |rhoTor| >= 1 && rhoTor[|rhoTor| - 1] != 0.0 && i < |rhoTor|
    ensures var phi := ToroidalFlux(m, rhoTor, rMajor, b0);
      phi[|phi| - 1] != 0.0 && NormalisedRadius(m, phi)[i] == Abs(rhoTor[i] / rhoTor[|rhoTor| - 1])
  {
    FluxRatio(m, rhoTor, rMajor, b0, i);
    SqrtOfSquare(m, rhoTor[i] / rhoTor[|rhoTor| - 1]);
  }

  /** The edge value of `rhon` is 1. */
  lemma RadiusAtEdge(m: Maths, rhoTor: seq<real>, rMajor: real, b0: real)
    requires PiPositive(m) && SqrtLaw(m) && rMajor != 0.0 && b0 != 0.0
    requires |rhoTor| >= 1 && rhoTor[|rhoTor| - 1] != 0.0
    ensures var phi := ToroidalFlux(m, rhoTor, rMajor, b0);
      phi[|phi| - 1] != 0.0 && NormalisedRadius(m, phi)[|phi| - 1] == 1.0
  {
    var e := rhoTor[|rhoTor| - 1];
    RadiusRatio(m, rhoTor, rMajor, b0, |rhoTor| - 1);
    assert e / e == 1.0;
  }

  /** The edge flux is non-zero exactly when the edge toroidal radius is. */
  lemma EdgeFluxNonZero(m: Maths, rhoTor: seq<real>, rMajor: real, b0: real)
    requires PiPositive(m) && rMajor != 0.0 && b0 != 0.0 && |rhoTor| >= 1
    ensures ToroidalFlux(m, rhoTor, rMajor, b0)[|rhoTor| - 1] != 0.0 <==> rhoTor[|rhoTor| - 1] != 0.0
  {
    FluxAt(m, rhoTor, rMajor, b0, |rhoTor| - 1);
    FluxZeroIff(m, rhoTor[|rhoTor| - 1], rMajor, b0);
  }

  /** `vpr`, 4 pi Phi[-1] rhon / (F <1/R^2>), one surface at a time. */
  function Vpr(m: Maths, phiEdge: real, rhon: real, f: real, invR2: real): real
    requires f * invR2 != 0.0
  {
    4.0 * m.pi * phiEdge * rhon / (f * invR2)
  }

  function VolumeDerivative(m: Maths, phi: seq<real>, rhon: seq<real>, f: seq<real>, avgInvR2: seq<real>): (vpr: seq<real>)
    requires |phi| >= 1 && |rhon| == |f| == |avgInvR2|
    requires forall i :: 0 <= i < |f| ==> f[i] * avgInvR2[i] != 0.0
    ensures |vpr| == |rhon|
  {
    seq(|rhon|, i requires 0 <= i < |rhon| => Vpr(m, phi[|phi| - 1], rhon[i], f[i], avgInvR2[i]))
  }

  /** The volume derivative vanishes where the normalised radius does. */
  lemma VprZeroAtZeroRadius(m: Maths, phiEdge: real, f: real, invR2: real)
    requires f * invR2 != 0.0
    ensures Vpr(m, phiEdge, 0.0, f, invR2) == 0.0
  {
  }

  // ---------------------------------------------------------------------
  // Building the intermediates
  // ---------------------------------------------------------------------

  /** F = T R_major B_0, the toroidal field flux function. */
  function FieldFunction(m: Maths, d: CheaseData, rMajor: real, b0: real): seq<real>
    requires Scalable(m, rMajor, b0)
  {
    Scale(d.rBphi, Factor(RBphi, m, rMajor, b0))
  }

  /** <1/R^2> in SI units. */
  function InvR2Average(m: Maths, d: CheaseData, rMajor: real, b0: real): seq<real>
    requires Scalable(m, rMajor, b0)
  {
    Scale(d.avgInvR2, Factor(InvR2, m, rMajor, b0))
  }

  /** What the construction needs in order not to divide by zero: non-zero
      R_major, B_0 and mu_0, a non-empty toroidal radius whose edge flux
      Phi[-1] is non-zero, and on every surface a non-zero product
      F <1/R^2>. `rhon`, F and <1/R^2> are combined element by element, so
      those channels share one length. */
  ghost predicate Constructible(m: Maths, d: CheaseData, rMajor: real, b0: real) {
    && Scalable(m, rMajor, b0)
    && |d.rhoTor| >= 1
    && |d.rBphi| == |d.rhoTor| && |d.avgInvR2| == |d.rhoTor|
    && ToroidalFlux(m, d.rhoTor, rMajor, b0)[|d.rhoTor| - 1] != 0.0
    && (forall i :: 0 <= i < |d.rBphi| ==>
          FieldFunction(m, d, rMajor, b0)[i] * InvR2Average(m, d, rMajor, b0)[i] != 0.0)
  }

  /** The intermediates built from the CHEASE channels. */
  function Construct(m: Maths, d: CheaseData, ipFromParameters: bool, nRho: int,
                     rMajor: real, aMinor: real, b0: real, hiresFactor: int): (g: Intermediates)
    requires Constructible(m, d, rMajor, b0)
    ensures |g.psi| == |d.psi| && |g.ipProfile| == |d.ipProfile| && |g.phi| == |d.rhoTor|
    ensures |g.rIn| == |d.rInboard| && |g.rOut| == |d.rOutboard| && |g.f| == |d.rBphi|
    ensures |g.intDlOverBp| == |d.intJdchi| && |g.avgInvR| == |d.avgInvR| && |g.avgInvR2| == |d.avgInvR2|
    ensures |g.avgGradPsi2OverR2| == |d.avgBp2| && |g.avgGradPsi| == |d.avgGradPsi|
    ensures |g.avgGradPsi2| == |d.avgGradPsi2| && |g.avgB2| == |d.avgB2| && |g.avgInvB2| == |d.avgInvB2|
    ensures |g.vpr| == |d.rhoTor|
    ensures g.rMajor == rMajor && g.aMinor == aMinor && g.b0 == b0
    ensures g.ipFromParameters == ipFromParameters && g.nRho == nRho && g.hiresFactor == hiresFactor
    ensures g.deltaUpperFace == d.deltaUpper && g.deltaLowerFace == d.deltaBottom && g.elongation == d.elongation
  {
    var phi := ToroidalFlux(m, d.rhoTor, rMajor, b0);
    var rhon := NormalisedRadius(m, phi);
    Intermediates(
      ipFromParameters, rMajor, aMinor, b0,
      Scale(d.psi, Factor(Psi, m, rMajor, b0)),
      Scale(d.ipProfile, Factor(Ip, m, rMajor, b0)),
      phi,
      Scale(d.rInboard, Factor(RIn, m, rMajor, b0)),
      Scale(d.rOutboard, Factor(ROut, m, rMajor, b0)),
      FieldFunction(m, d, rMajor, b0),
      Scale(d.intJdchi, Factor(IntJdchi, m, rMajor, b0)),
      Scale(d.avgInvR, Factor(InvR, m, rMajor, b0)),
      InvR2Average(m, d, rMajor, b0),
      Scale(d.avgBp2, Factor(Bp2, m, rMajor, b0)),
      Scale(d.avgGradPsi, Factor(GradPsi, m, rMajor, b0)),
      Scale(d.avgGradPsi2, Factor(GradPsi2, m, rMajor, b0)),
      Scale(d.avgB2, Factor(B2, m, rMajor, b0)),
      Scale(d.avgInvB2, Factor(InvB2, m, rMajor, b0)),
      d.deltaUpper, d.deltaBottom, d.elongation,
      VolumeDerivative(m, phi, rhon, FieldFunction(m, d, rMajor, b0), InvR2Average(m, d, rMajor, b0)),
      nRho, hiresFactor)
  }

  /** x (a / b) = x a / b. */
  lemma TimesQuotient(x: real, a: real, b: real)
    requires b != 0.0
    ensures x * (a / b) == x * a / b
  {
  }

  /** x (a b) = x a b. */
  lemma TimesProduct(x: real, a: real, b: real)
    ensures x * (a * b) == x * a * b
  {
  }

  /** x (r b / mu) = x / mu r b, the order in which the plasma current is
      rescaled. */
  lemma CurrentOrder(x: real, r: real, b: real, mu: real)
    requires mu != 0.0
    ensures x * (r * b / mu) == x / mu * r * b
  {
    TimesQuotient(x, r * b, mu);
    TimesProduct(x, r, b);
  }

  /** Each rescaled channel of the intermediates is its CHEASE channel scaled
      by that channel's factor. */
  lemma ConstructScales(m: Maths, d: CheaseData, ipFromParameters: bool, nRho: int,
                        rMajor: real, aMinor: real, b0: real, hiresFactor: int)
    requires Constructible(m, d, rMajor, b0)
    ensures var g := Construct(m, d, ipFromParameters, nRho, rMajor, aMinor, b0, hiresFactor);
      && g.psi == Scale(d.psi, Factor(Psi, m, rMajor, b0))
      && g.ipProfile == Scale(d.ipProfile, Factor(Ip, m, rMajor, b0))
      && g.phi == ToroidalFlux(m, d.rhoTor, rMajor, b0)
      && g.rIn == Scale(d.rInboard, Factor(RIn, m, rMajor, b0))
      && g.rOut == Scale(d.rOutboard, Factor(ROut, m, rMajor, b0))
      && g.f == Scale(d.rBphi, Factor(RBphi, m, rMajor, b0))
      && g.intDlOverBp == Scale(d.intJdchi, Factor(IntJdchi, m, rMajor, b0))
      && g.avgInvR == Scale(d.avgInvR, Factor(InvR, m, rMajor, b0))
      && g.avgInvR2 == Scale(d.avgInvR2, Factor(InvR2, m, rMajor, b0))
      && g.avgGradPsi2OverR2 == Scale(d.avgBp2, Factor(Bp2, m, rMajor, b0))
      && g.avgGradPsi == Scale(d.avgGradPsi, Factor(GradPsi, m, rMajor, b0))
      && g.avgGradPsi2 == Scale(d.avgGradPsi2, Factor(GradPsi2, m, rMajor, b0))
      && g.avgB2 == Scale(d.avgB2, Factor(B2, m, rMajor, b0))
      && g.avgInvB2 == Scale(d.avgInvB2, Factor(InvB2, m, rMajor, b0))
  {
  }

  /* The factors applied to one value, in the form the normaliser writes
     each product: the CHEASE value multiplied or divided by the powers of
     R_major, B_0, pi and mu_0 that undo its normalisation. */

  lemma FluxFactors(m: Maths, rMajor: real, b0: real, x: real)
    requires Scalable(m, rMajor, b0)
    ensures x * Factor(Psi, m, rMajor, b0) == x * PsiUnnormFactor(m, rMajor, b0)
    ensures x * Factor(Ip, m, rMajor, b0) == x / m.mu0 * rMajor * b0
    ensures x * Factor(RBphi, m, rMajor, b0) == x * rMajor * b0
  {
    CurrentOrder(x, rMajor, b0, m.mu0);
    TimesProduct(x, rMajor, b0);
  }

  lemma LengthFactors(m: Maths, rMajor: real, b0: real, x: real)
    requires Scalable(m, rMajor, b0)
    ensures x * Factor(RIn, m, rMajor, b0) == x * rMajor
    ensures x * Factor(ROut, m, rMajor, b0) == x * rMajor
    ensures x * Factor(IntJdchi, m, rMajor, b0) == x * rMajor / b0
    ensures x * Factor(InvR, m, rMajor, b0) == x / rMajor
    ensures x * Factor(InvR2, m, rMajor, b0) == x / Square(rMajor)
  {
    TimesQuotient(x, rMajor, b0);
    TimesQuotient(x, 1.0, rMajor);
    TimesQuotient(x, 1.0, Square(rMajor));
  }

  lemma FieldFactors(m: Maths, rMajor: real, b0: real, x: real)
    requires Scalable(m, rMajor, b0)
    ensures var p := PsiUnnormFactor(m, rMajor, b0);
      && x * Factor(Bp2, m, rMajor, b0) == x * Square(b0) * (4.0 * Square(m.pi))
      && x * Factor(GradPsi, m, rMajor, b0) == x * p / rMajor
      && x * Factor(GradPsi2, m, rMajor, b0) == x * Square(p) / Square(rMajor)
      && x * Factor(B2, m, rMajor, b0) == x * Square(b0)
      && x * Factor(InvB2, m, rMajor, b0) == x / Square(b0)
  {
    var p := PsiUnnormFactor(m, rMajor, b0);
    TimesProduct(x, Square(b0), 4.0 * Square(m.pi));
    TimesQuotient(x, p, rMajor);
    TimesQuotient(x, Square(p), Square(rMajor));
    TimesQuotient(x, 1.0, Square(b0));
  }

  /** Undoes the scaling of every rescaled channel: the raw CHEASE channels
      recovered from the intermediates. The toroidal radius is recovered only
      up to its edge value (see `RadiusRatio`), so it is not part of the
      inverse; the shaping channels pass through unchanged. */
  function Denormalise(m: Maths, g: Intermediates, rhoTor: seq<real>): (d: CheaseData)
    requires Scalable(m, g.rMajor, g.b0)
    requires PiPositive(m)
  {
    var back := (c: Channel, xs: seq<real>) requires Scalable(m, g.rMajor, g.b0) =>
      Scale(xs, 1.0 / Factor(c, m, g.rMajor, g.b0));
    CheaseData(
      back(Psi, g.psi), back(Ip, g.ipProfile), rhoTor,
      back(RIn, g.rIn), back(ROut, g.rOut), back(RBphi, g.f),
      back(IntJdchi, g.intDlOverBp), back(InvR, g.avgInvR), back(InvR2, g.avgInvR2),
      back(Bp2, g.avgGradPsi2OverR2), back(GradPsi, g.avgGradPsi), back(GradPsi2, g.avgGradPsi2),
      back(B2, g.avgB2), back(InvB2, g.avgInvB2),
      g.deltaUpperFace, g.deltaLowerFace, g.elongation)
  }

  /** Denormalising the constructed intermediates gives back the CHEASE
      channels exactly. */
  lemma DenormaliseConstruct(m: Maths, d: CheaseData, ipFromParameters: bool, nRho: int,
                             rMajor: real, aMinor: real, b0: real, hiresFactor: int)
    requires PiPositive(m) && Constructible(m, d, rMajor, b0)
    ensures Denormalise(m, Construct(m, d, ipFromParameters, nRho, rMajor, aMinor, b0, hiresFactor), d.rhoTor) == d
  {
    UnscaleScale(Psi, m, rMajor, b0, d.psi);
    UnscaleScale(Ip, m, rMajor, b0, d.ipProfile);
    UnscaleScale(RIn, m, rMajor, b0, d.rInboard);
    UnscaleScale(ROut, m, rMajor, b0, d.rOutboard);
    UnscaleScale(RBphi, m, rMajor, b0, d.rBphi);
    UnscaleScale(IntJdchi, m, rMajor, b0, d.intJdchi);
    UnscaleScale(InvR, m, rMajor, b0, d.avgInvR);
    UnscaleScale(InvR2, m, rMajor, b0, d.avgInvR2);
    UnscaleScale(Bp2, m, rMajor, b0, d.avgBp2);
    UnscaleScale(GradPsi, m, rMajor, b0, d.avgGradPsi);
    UnscaleScale(GradPsi2, m, rMajor, b0, d.avgGradPsi2);
    UnscaleScale(B2, m, rMajor, b0, d.avgB2);
    UnscaleScale(InvB2, m, rMajor, b0, d.avgInvB2);
  }

  /** The constructed profiles on the magnetic axis: where rho_tor[0] = 0,
      the flux, `rhon` and `vpr` all vanish there. */
  lemma OnAxis(m: Maths, d: CheaseData, ipFromParameters: bool, nRho: int,
               rMajor: real, aMinor: real, b0: real, hiresFactor: int)
    requires PiPositive(m) && SqrtLaw(m) && Constructible(m, d, rMajor, b0)
    requires d.rhoTor[0] == 0.0
    ensures var g := Construct(m, d, ipFromParameters, nRho, rMajor, aMinor, b0, hiresFactor);
      g.phi[0] == 0.0 && g.vpr[0] == 0.0
  {
    var phi := ToroidalFlux(m, d.rhoTor, rMajor, b0);
    EdgeFluxNonZero(m, d.rhoTor, rMajor, b0);
    RadiusRatio(m, d.rhoTor, rMajor, b0, 0);
    FluxAt(m, d.rhoTor, rMajor, b0, 0);
    FluxZeroIff(m, 0.0, rMajor, b0);
    var f := FieldFunction(m, d, rMajor, b0);
    var r2 := InvR2Average(m, d, rMajor, b0);
    var rhon := NormalisedRadius(m, phi);
    VprZeroAtZeroRadius(m, phi[|phi| - 1], f[0], r2[0]);
    var g := Construct(m, d, ipFromParameters, nRho, rMajor, aMinor, b0, hiresFactor);
    assert g.phi == phi;
    assert g.vpr == VolumeDerivative(m, phi, rhon, f, r2);
  }

  /** `vpr` in terms of the toroidal radius: on every surface it is
      4 pi Phi[-1] |rho_tor / rho_tor[-1]| / (F <1/R^2>), that is `Vpr`
      taken at the normalised radius |rho_tor / rho_tor[-1]|. */
  lemma VprOfRadius(m: Maths, d: CheaseData, ipFromParameters: bool, nRho: int,
                    rMajor: real, aMinor: real, b0: real, hiresFactor: int, i: nat)
    requires PiPositive(m) && SqrtLaw(m) && Constructible(m, d, rMajor, b0)
    requires i < |d.rhoTor|
    ensures var g := Construct(m, d, ipFromParameters, nRho, rMajor, aMinor, b0, hiresFactor);
      && d.rhoTor[|d.rhoTor| - 1] != 0.0 && g.f[i] * g.avgInvR2[i] != 0.0
      && g.vpr[i] == Vpr(m, g.phi[|g.phi| - 1], Abs(d.rhoTor[i] / d.rhoTor[|d.rhoTor| - 1]),
                         g.f[i], g.avgInvR2[i])
  {
    var phi := ToroidalFlux(m, d.rhoTor, rMajor, b0);
    EdgeFluxNonZero(m, d.rhoTor, rMajor, b0);
    RadiusRatio(m, d.rhoTor, rMajor, b0, i);
    var f := FieldFunction(m, d, rMajor, b0);
    var r2 := InvR2Average(m, d, rMajor, b0);
    var rhon := NormalisedRadius(m, phi);
    var g := Construct(m, d, ipFromParameters, nRho, rMajor, aMinor, b0, hiresFactor);
    assert g.phi == phi && g.f == f && g.avgInvR2 == r2;
    assert g.vpr == VolumeDerivative(m, phi, rhon, f, r2);
  }

  /** With B_0 >= 0, `vpr` is non-negative on every surface where
      F <1/R^2> is positive. */
  lemma VprNonNegative(m: Maths, d: CheaseData, ipFromParameters: bool, nRho: int,
                       rMajor: real, aMinor: real, b0: real, hiresFactor: int, i: nat)
    requires PiPositive(m) && SqrtLaw(m) && Constructible(m, d, rMajor, b0) && b0 >= 0.0
    requires i < |d.rhoTor|
    requires FieldFunction(m, d, rMajor, b0)[i] * InvR2Average(m, d, rMajor, b0)[i] > 0.0
    ensures Construct(m, d, ipFromParameters, nRho, rMajor, aMinor, b0, hiresFactor).vpr[i] >= 0.0
  {
    var g := Construct(m, d, ipFromParameters, nRho, rMajor, aMinor, b0, hiresFactor);
    var e := d.rhoTor[|d.rhoTor| - 1];
    VprOfRadius(m, d, ipFromParameters, nRho, rMajor, aMinor, b0, hiresFactor, i);
    FluxNonNegative(m, d.rhoTor, rMajor, b0, |d.rhoTor| - 1);
    assert g.phi == ToroidalFlux(m, d.rhoTor, rMajor, b0);
    assert g.f[i] * g.avgInvR2[i] > 0.0;
    VprSign(m, g.phi[|g.phi| - 1], Abs(d.rhoTor[i] / e), g.f[i], g.avgInvR2[i]);
  }

  /** The sign of `Vpr` on one surface. */
  lemma VprSign(m: Maths, phiEdge: real, rhon: real, f: real, invR2: real)
    requires m.pi > 0.0 && phiEdge >= 0.0 && rhon >= 0.0 && f * invR2 > 0.0
    ensures Vpr(m, phiEdge, rhon, f, invR2) >= 0.0
  {
    assert Mul(4.0 * m.pi, phiEdge) >= 0.0;
    assert Mul(4.0 * m.pi * phiEdge, rhon) >= 0.0;
  }

  // ---------------------------------------------------------------------
  // Examples
  // ---------------------------------------------------------------------

  /** With R_major = B_0 = 1 a psi profile of ones becomes 2 pi everywhere. */
  lemma PsiOfOnes(m: Maths, ones: seq<real>)
    requires Scalable(m, 1.0, 1.0)
    requires forall i :: 0 <= i < |ones| ==> ones[i] == 1.0
    ensures forall i :: 0 <= i < |ones| ==> Scale(ones, Factor(Psi, m, 1.0, 1.0))[i] == 2.0 * m.pi
  {
    assert Factor(Psi, m, 1.0, 1.0) == 2.0 * m.pi by {
      assert Square(1.0) == 1.0;
    }
  }

  /** With R_major = B_0 = 1 the flux is pi rho_tor^2. */
  lemma FluxExample(m: Maths)
    ensures ToroidalFlux(m, [0.0, 0.25, 0.5, 0.75, 1.0], 1.0, 1.0)
         == [0.0, 0.0625 * m.pi, 0.25 * m.pi, 0.5625 * m.pi, m.pi]
  {
    var rho := [0.0, 0.25, 0.5, 0.75, 1.0];
    var phi := ToroidalFlux(m, rho, 1.0, 1.0);
    var want := [0.0, 0.0625 * m.pi, 0.25 * m.pi, 0.5625 * m.pi, m.pi];
    assert Square(0.0 * 1.0) == 0.0;
    assert Square(0.25 * 1.0) == 0.0625;
    assert Square(0.5 * 1.0) == 0.25;
    assert Square(0.75 * 1.0) == 0.5625;
    assert Square(1.0 * 1.0) == 1.0;
    forall i | 0 <= i < 5
      ensures phi[i] == want[i]
    {
      FluxAt(m, rho, 1.0, 1.0, i);
    }
  }
}
