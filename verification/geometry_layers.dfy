/**
 * The flux-surface layer plot of a reconstructed equilibrium: the guarded
 * normalised radius, the choice of which surfaces to draw, the Miller shape
 * of each drawn surface, and the tagging of the last closed flux surface
 * (LCFS).
 */
module GeometryLayers {
  import opened RealMath
  import opened Miller
  import opened CheaseScaling

  // ---------------------------------------------------------------------
  // The guarded normalised radius
  // ---------------------------------------------------------------------

  /** The value written over exact zeros of the toroidal flux, 1e-9. */
  const FluxFloor: real := 0.000000001

  /** The flux with every exact zero replaced by `FluxFloor`. */
  function SafeFlux(phi: seq<real>): (safe: seq<real>)
    ensures |safe| == |phi|
    ensures forall i :: 0 <= i < |phi| ==> safe[i] != 0.0
    ensures forall i :: 0 <= i < |phi| && phi[i] != 0.0 ==> safe[i] == phi[i]
  {
    seq(|phi|, i requires 0 <= i < |phi| => if phi[i] == 0.0 then FluxFloor else phi[i])
  }

  /** The guard changes nothing exactly when the flux has no zero entry,
      and guarding twice is guarding once. */
  lemma SafeFluxIdentity(phi: seq<real>)
    ensures (forall i :: 0 <= i < |phi| ==> phi[i] != 0.0) <==> SafeFlux(phi) == phi
    ensures SafeFlux(SafeFlux(phi)) == SafeFlux(phi)
  {
    if SafeFlux(phi) == phi {
      forall i | 0 <= i < |phi|
        ensures phi[i] != 0.0
      {
        assert SafeFlux(phi)[i] != 0.0;
      }
    }
  }

  /** rho_N = sqrt(Phi_safe / Phi[-1]) with the axis value then overwritten
      by 0. The divisor is the unguarded edge flux. */
  function GuardedRadius(m: Maths, phi: seq<real>): (rhon: seq<real>)
    requires |phi| >= 1 && phi[|phi| - 1] != 0.0
    ensures |rhon| == |phi| && rhon[0] == 0.0
  {
    var safe := SafeFlux(phi);
    var raw := seq(|phi|, i requires 0 <= i < |phi| => m.sqrt(safe[i] / phi[|phi| - 1]));
    raw[0 := 0.0]
  }

  /** Off the axis the guarded radius is the unguarded one wherever the flux
      is non-zero, and sqrt(1e-9 / Phi[-1]) where it is zero. */
  lemma GuardedRadiusAgrees(m: Maths, phi: seq<real>, i: nat)
    requires |phi| >= 1 && phi[|phi| - 1] != 0.0 && 1 <= i < |phi|
    ensures phi[i] != 0.0 ==> GuardedRadius(m, phi)[i] == NormalisedRadius(m, phi)[i]
    ensures phi[i] == 0.0 ==> GuardedRadius(m, phi)[i] == m.sqrt(FluxFloor / phi[|phi| - 1])
  {
  }

  /** For a flux built from rho_tor, every off-axis point with non-zero
      rho_tor has guarded radius |rho_tor[i] / rho_tor[-1]|. Off the axis
      where rho_tor is zero, so is the flux, and the guard gives
      sqrt(1e-9 / Phi[-1]) instead of 0. */
  lemma GuardedRadiusOfFlux(m: Maths, rhoTor: seq<real>, rMajor: real, b0: real, i: nat)
    requires PiPositive(m) && SqrtLaw(m) && rMajor != 0.0 && b0 != 0.0
    requires |rhoTor| >= 1 && rhoTor[|rhoTor| - 1] != 0.0
    requires 1 <= i < |rhoTor|
    ensures var phi := ToroidalFlux(m, rhoTor, rMajor, b0); phi[|phi| - 1] != 0.0
    ensures var phi := ToroidalFlux(m, rhoTor, rMajor, b0);
      rhoTor[i] != 0.0 ==> GuardedRadius(m, phi)[i] == Abs(rhoTor[i] / rhoTor[|rhoTor| - 1])
    ensures var phi := ToroidalFlux(m, rhoTor, rMajor, b0);
      rhoTor[i] == 0.0 ==> GuardedRadius(m, phi)[i] == m.sqrt(FluxFloor / phi[|phi| - 1])
  {
    var phi := ToroidalFlux(m, rhoTor, rMajor, b0);
    EdgeFluxNonZero(m, rhoTor, rMajor, b0);
    FluxAt(m, rhoTor, rMajor, b0, i);
    FluxZeroIff(m, rhoTor[i], rMajor, b0);
    GuardedRadiusAgrees(m, phi, i);
    RadiusRatio(m, rhoTor, rMajor, b0, i);
  }

  /** sqrt(1) = 1. */
  lemma SqrtOne(m: Maths)
    requires SqrtLaw(m)
    ensures m.sqrt(1.0) == 1.0
  {
    SqrtOfSquare(m, 1.0);
    assert Square(1.0) == 1.0;
  }

  /** With at least two points the edge of the guarded radius is 1. */
  lemma GuardedRadiusAtEdge(m: Maths, phi: seq<real>)
    requires SqrtLaw(m) && |phi| >= 2 && phi[|phi| - 1] != 0.0
    ensures GuardedRadius(m, phi)[|phi| - 1] == 1.0
  {
    SqrtOne(m);
    var e := phi[|phi| - 1];
    assert SafeFlux(phi)[|phi| - 1] / e == 1.0;
  }

  // ---------------------------------------------------------------------
  // Which surfaces are drawn
  // ---------------------------------------------------------------------

  /** The number of samples asked of the index grid. */
  const SurfaceCount: nat := 10

  /** Sample k of `linspace(1, n - 1, 10)` cast to int. The exact sample is
      1 + k (n - 2) / 9, non-negative, so the cast is integer division. It
      lies in [1, n - 1], so it always names an existing surface. */
  function LinspaceIndex(n: nat, k: nat): (i: nat)
    requires n >= 2 && k < SurfaceCount
    ensures 1 <= i <= n - 1
  {
    ProductMonotone(k, 9, n - 2);
    DivMonotone(k * (n - 2), 9 * (n - 2));
    1 + (k * (n - 2)) / 9
  }

  /** The integer sample is the floor of the exact real grid sample. */
  lemma LinspaceIndexIsFloor(n: nat, k: nat)
    requires n >= 2 && k < SurfaceCount
    ensures var x := Linspace(1.0, (n - 1) as real, SurfaceCount)[k];
      LinspaceIndex(n, k) as real <= x < LinspaceIndex(n, k) as real + 1.0
  {
    var d := n - 2;
    var q, r := (k * d) / 9, (k * d) % 9;
    assert k * d == 9 * q + r && 0 <= r < 9;
    var step := LinspaceStep(1.0, (n - 1) as real, SurfaceCount);
    assert step == (d as real) / 9.0;
    ProductAsReal(k, d);
    assert (k as real) * step == ((k * d) as real) / 9.0;
    assert Sample(1.0, step, k) == (q as real) + (r as real) / 9.0 + 1.0;
  }

  lemma ProductAsReal(a: nat, b: nat)
    ensures (a * b) as real == (a as real) * (b as real)
  {
  }

  /** The integer index grid `linspace(1, n - 1, num=10, dtype=int)`. */
  function IndexGrid(n: nat): (ks: seq<nat>)
    requires n >= 2
    ensures |ks| == SurfaceCount
    ensures forall k :: 0 <= k < |ks| ==> 1 <= ks[k] <= n - 1
  {
    seq(SurfaceCount, k requires 0 <= k < SurfaceCount => LinspaceIndex(n, k))
  }

  lemma DivMonotone(a: nat, b: nat)
    requires a <= b
    ensures a / 9 <= b / 9
  {
  }

  lemma DivStep(a: nat, b: nat)
    requires b >= 9
    ensures (a + b) / 9 >= a / 9 + 1
  {
    DivMonotone(a + 9, a + b);
  }

  lemma ProductMonotone(j: nat, k: nat, d: nat)
    requires j <= k
    ensures j * d <= k * d
  {
    assert k * d == j * d + (k - j) * d;
  }

  /** Later samples are no smaller, and strictly larger once n - 2 >= 9. */
  lemma IndexMonotone(n: nat, j: nat, k: nat)
    requires n >= 2 && j <= k < SurfaceCount
    ensures LinspaceIndex(n, j) <= LinspaceIndex(n, k)
    ensures n >= 11 && j < k ==> LinspaceIndex(n, j) < LinspaceIndex(n, k)
  {
    var d := n - 2;
    ProductMonotone(j, k, d);
    DivMonotone(j * d, k * d);
    if n >= 11 && j < k {
      assert k * d == j * d + (k - j) * d;
      ProductMonotone(1, k - j, d);
      DivStep(j * d, (k - j) * d);
    }
  }

  /** The grid runs from 1 to n - 1 without decreasing, and rises by at least
      one at every step once n - 2 >= 9. */
  lemma IndexGridShape(n: nat)
    requires n >= 2
    ensures IndexGrid(n)[0] == 1 && IndexGrid(n)[SurfaceCount - 1] == n - 1
    ensures forall k :: 0 <= k < SurfaceCount ==> 1 <= IndexGrid(n)[k] <= n - 1
    ensures NonDecreasing(IndexGrid(n))
    ensures n >= 11 ==> StrictlyIncreasing(IndexGrid(n))
  {
    var ks := IndexGrid(n);
    assert ks[SurfaceCount - 1] == 1 + (9 * (n - 2)) / 9;
    forall j, k | 0 <= j <= k < SurfaceCount
      ensures ks[j] <= ks[k] && (n >= 11 && j < k ==> ks[j] < ks[k])
    {
      IndexMonotone(n, j, k);
    }
  }

  predicate NonDecreasing(xs: seq<nat>) {
    forall j, k :: 0 <= j <= k < |xs| ==> xs[j] <= xs[k]
  }

  predicate StrictlyIncreasing(xs: seq<nat>) {
    forall j, k :: 0 <= j < k < |xs| ==> xs[j] < xs[k]
  }

  /** Adjacent duplicates removed. */
  function Dedup(xs: seq<nat>): (ys: seq<nat>)
    ensures |ys| <= |xs|
    ensures forall x :: x in ys <==> x in xs
    ensures |xs| >= 1 ==> |ys| >= 1 && ys[0] == xs[0] && ys[|ys| - 1] == xs[|xs| - 1]
  {
    if |xs| <= 1 then xs
    else if xs[0] == xs[1] then Dedup(xs[1..])
    else [xs[0]] + Dedup(xs[1..])
  }

  /** What `numpy.unique` promises: the distinct values of xs in
      increasing order. */
  predicate IsUniqueOf(ys: seq<nat>, xs: seq<nat>) {
    && StrictlyIncreasing(ys)
    && (forall x :: x in ys ==> x in xs)
    && (forall x :: x in xs ==> x in ys)
  }

  /** On sorted input, dropping adjacent duplicates is `numpy.unique`. */
  lemma {:induction false} DedupSorted(xs: seq<nat>)
    requires NonDecreasing(xs)
    ensures IsUniqueOf(Dedup(xs), xs)
    decreases |xs|
  {
    if |xs| > 1 {
      var tail := xs[1..];
      assert NonDecreasing(tail);
      DedupSorted(tail);
      var t := Dedup(tail);
      if xs[0] != xs[1] {
        forall j, k | 0 <= j < k < |[xs[0]] + t|
          ensures ([xs[0]] + t)[j] < ([xs[0]] + t)[k]
        {
          if j == 0 {
            assert t[k - 1] in tail;
          }
        }
      }
    }
  }

  /** A strictly increasing sequence is determined by its set of elements,
      so `numpy.unique` has exactly one answer. */
  lemma {:induction false} UniqueIsUnique(a: seq<nat>, b: seq<nat>, xs: seq<nat>)
    requires IsUniqueOf(a, xs) && IsUniqueOf(b, xs)
    ensures a == b
    decreases |a|
  {
    if |a| == 0 {
      if |b| > 0 {
        FirstIsMember(b);
        assert false;
      }
    } else {
      assert |b| > 0 by {
        assert a[0] in xs;
      }
      assert a[0] in b;
      assert b[0] in a;
      assert a[0] == b[0];
      var rest := a[1..];
      forall x
        ensures x in rest <==> x in b[1..]
      {
        if x in rest {
          assert x in b;
          assert x != b[0];
        }
        if x in b[1..] {
          assert x in a;
          assert x != a[0];
        }
      }
      assert IsUniqueOf(a[1..], rest);
      assert IsUniqueOf(b[1..], rest);
      UniqueIsUnique(a[1..], b[1..], rest);
    }
  }

  lemma FirstIsMember(b: seq<nat>)
    requires |b| > 0
    ensures b[0] in b
  {
  }

  /** Strictly increasing input has no adjacent duplicates. */
  lemma {:induction false} DedupStrict(xs: seq<nat>)
    requires StrictlyIncreasing(xs)
    ensures Dedup(xs) == xs
    decreases |xs|
  {
    if |xs| > 1 {
      assert StrictlyIncreasing(xs[1..]);
      DedupStrict(xs[1..]);
      assert [xs[0]] + xs[1..] == xs;
    }
  }

  /** `np.unique(np.linspace(1, n - 1, num=10, dtype=int))`. */
  function SelectedIndices(n: nat): (idxs: seq<nat>)
    requires n >= 2
    ensures 1 <= |idxs| <= SurfaceCount
    ensures IsUniqueOf(idxs, IndexGrid(n))
    ensures idxs[0] == 1 && idxs[|idxs| - 1] == n - 1
    ensures forall j :: 0 <= j < |idxs| ==> 1 <= idxs[j] <= n - 1
  {
    IndexGridShape(n);
    DedupSorted(IndexGrid(n));
    var idxs := Dedup(IndexGrid(n));
    assert forall j :: 0 <= j < |idxs| ==> idxs[j] in IndexGrid(n);
    idxs
  }

  /** With at least eleven radial points all ten grid samples are distinct
      surfaces. */
  lemma TenSurfacesWhenFine(n: nat)
    requires n >= 11
    ensures |SelectedIndices(n)| == SurfaceCount
  {
    IndexGridShape(n);
    DedupStrict(IndexGrid(n));
  }

  // ---------------------------------------------------------------------
  // The drawn layers
  // ---------------------------------------------------------------------

  /** The mean of two values, used for the triangularity (upper and lower)
      and the geometric centre (inboard and outboard radius). */
  function Midpoint(x: real, y: real): real {
    (x + y) / 2.0
  }

  /** The midpoint lies between its arguments and is symmetric. */
  lemma MidpointBetween(x: real, y: real)
    ensures Min(x, y) <= Midpoint(x, y) <= Max(x, y)
    ensures Midpoint(x, y) == Midpoint(y, x) && Midpoint(x, x) == x
  {
  }

  /** The 360 poloidal angles `linspace(0, 2 pi, 360)`. */
  function LayerAngles(m: Maths): (thetas: seq<real>)
    ensures |thetas| == 360
  {
    Linspace(0.0, 2.0 * m.pi, 360)
  }

  /** One drawn surface. */
  datatype Layer = Layer(
    index: nat, rho: real, r: real, kappa: real, delta: real,
    rc: real, zc: real, outline: Outline, lcfs: bool)

  /** The channel lengths the plot indexes into: at least two radial points,
      a non-zero edge flux, and the profiles read at each drawn index. */
  predicate Drawable(g: Intermediates) {
    && |g.phi| >= 2 && g.phi[|g.phi| - 1] != 0.0
    && |g.elongation| >= |g.phi|
    && |g.deltaUpperFace| == |g.deltaLowerFace| >= |g.phi|
    && |g.rIn| == |g.rOut| >= |g.phi|
  }

  /** The surface at radial index idx; `last` is the last selected index. */
  function LayerAt(m: Maths, g: Intermediates, rhon: seq<real>, idx: nat, last: nat): (l: Layer)
    requires Drawable(g) && |rhon| == |g.phi| && idx < |g.phi|
    ensures l.index == idx && l.rho == rhon[idx] && l.r == g.aMinor * l.rho
    ensures l.kappa == g.elongation[idx] && l.zc == 0.0 && (l.lcfs <==> idx == last)
    ensures l.delta == Midpoint(g.deltaUpperFace[idx], g.deltaLowerFace[idx])
    ensures l.rc == Midpoint(g.rIn[idx], g.rOut[idx])
    ensures l.outline == Surface(m, l.rc, 0.0, l.r, l.kappa, l.delta, LayerAngles(m))
  {
    var r := g.aMinor * rhon[idx];
    var kappa := g.elongation[idx];
    var delta := Midpoint(g.deltaUpperFace[idx], g.deltaLowerFace[idx]);
    var rc := Midpoint(g.rIn[idx], g.rOut[idx]);
    Layer(idx, rhon[idx], r, kappa, delta, rc, 0.0,
          Surface(m, rc, 0.0, r, kappa, delta, LayerAngles(m)), idx == last)
  }

  /** The layers of `plot_geometry_layers`, innermost first. */
  function Layers(m: Maths, g: Intermediates): (ls: seq<Layer>)
    requires Drawable(g)
    ensures |ls| == |SelectedIndices(|g.phi|)|
    ensures forall j :: 0 <= j < |ls| ==> ls[j].index == SelectedIndices(|g.phi|)[j]
  {
    var rhon := GuardedRadius(m, g.phi);
    var idxs := SelectedIndices(|g.phi|);
    seq(|idxs|, j requires 0 <= j < |idxs| => LayerAt(m, g, rhon, idxs[j], idxs[|idxs| - 1]))
  }

  /** Between one and ten layers are drawn, on strictly increasing radial
      indices in [1, n - 1]; exactly one is tagged LCFS, the outermost, and
      it sits on the last radial index n - 1. */
  lemma ExactlyOneLcfs(m: Maths, g: Intermediates)
    requires Drawable(g)
    ensures var ls := Layers(m, g);
      && 1 <= |ls| <= SurfaceCount
      && (forall j :: 0 <= j < |ls| ==> (ls[j].lcfs <==> j == |ls| - 1))
      && ls[|ls| - 1].index == |g.phi| - 1
      && (forall j, k :: 0 <= j < k < |ls| ==> ls[j].index < ls[k].index)
      && (forall j :: 0 <= j < |ls| ==> 1 <= ls[j].index <= |g.phi| - 1)
  {
    var ls := Layers(m, g);
    var idxs := SelectedIndices(|g.phi|);
    forall j | 0 <= j < |ls|
      ensures ls[j].lcfs <==> j == |ls| - 1
    {
      if j < |ls| - 1 {
        assert idxs[j] < idxs[|idxs| - 1];
      }
    }
  }

  /** The LCFS has rho_N = 1, so its minor radius is the full a_minor. */
  lemma LcfsRadius(m: Maths, g: Intermediates)
    requires Drawable(g) && SqrtLaw(m)
    ensures var ls := Layers(m, g);
      ls[|ls| - 1].rho == 1.0 && ls[|ls| - 1].r == g.aMinor
  {
    ExactlyOneLcfs(m, g);
    GuardedRadiusAtEdge(m, g.phi);
  }

  /** The first sample of every outline is the outboard midplane point
      (R_c + r, 0). */
  lemma LayerOutboardPoint(m: Maths, g: Intermediates)
    requires Drawable(g) && TrigAtZero(m)
    ensures forall j :: 0 <= j < |Layers(m, g)| ==>
      Layers(m, g)[j].outline.rs[0] == Layers(m, g)[j].rc + Layers(m, g)[j].r
      && Layers(m, g)[j].outline.zs[0] == 0.0
  {
    LinspaceShape(0.0, 2.0 * m.pi, 360);
    assert LayerAngles(m)[0] == 0.0;
    forall j | 0 <= j < |Layers(m, g)|
      ensures Layers(m, g)[j].outline.rs[0] == Layers(m, g)[j].rc + Layers(m, g)[j].r
      ensures Layers(m, g)[j].outline.zs[0] == 0.0
    {
      var l := Layers(m, g)[j];
      OutboardMidplane(m, l.rc, 0.0, l.r, l.kappa, l.delta);
    }
  }

  /** Every outline point of a drawn surface stays within |R - R_c| <= |r|
      and |Z| <= |kappa r|. */
  lemma LayerInBox(m: Maths, g: Intermediates, rhon: seq<real>, idx: nat, last: nat, t: nat)
    requires Drawable(g) && |rhon| == |g.phi| && idx < |g.phi|
    requires TrigBounded(m) && t < 360
    ensures var l := LayerAt(m, g, rhon, idx, last);
      Abs(l.outline.rs[t] - l.rc) <= Abs(l.r) && Abs(l.outline.zs[t]) <= Abs(l.kappa * l.r)
  {
    var l := LayerAt(m, g, rhon, idx, last);
    OutlineInBox(m, l.rc, 0.0, l.r, l.kappa, l.delta, LayerAngles(m), t);
  }
}
