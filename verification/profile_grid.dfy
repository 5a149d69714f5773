/**
 * The surface grid of the 3D profile plot: a cell-centred normalised radius,
 * an endpoint-inclusive poloidal angle, their 'ij' meshgrid, the 1-D profile
 * broadcast along angle, and the Miller coordinates of every grid node for a
 * fixed ITER-like shape.
 */
module ProfileGrid {
  import opened RealMath
  import opened Miller

  /** The fixed shape of the plotted plasma: major radius R0 [m], minor
      radius a [m], elongation kappa and triangularity delta. */
  const MajorRadius: real := 6.2
  const MinorRadius: real := 2.0
  const Elongation: real := 1.8
  const Triangularity: real := 0.4

  /** The number of poloidal angles. */
  const AngleCount: nat := 180

  /** A two-dimensional array, row by row. */
  type Grid = seq<seq<real>>

  /** The grid has `rows` rows of `cols` entries each. */
  predicate IsShape(grid: Grid, rows: nat, cols: nat) {
    |grid| == rows && forall i :: 0 <= i < rows ==> |grid[i]| == cols
  }

  /** Column j of a grid: entry j of every row. */
  function Column(grid: Grid, j: nat): (col: seq<real>)
    requires forall i :: 0 <= i < |grid| ==> j < |grid[i]|
    ensures |col| == |grid|
  {
    seq(|grid|, i requires 0 <= i < |grid| => grid[i][j])
  }

  // ---------------------------------------------------------------------
  // The radial and angular axes
  // ---------------------------------------------------------------------

  /** `(arange(n) + 0.5) / n`: the centres of n equal cells of [0, 1]. */
  function RhoNorm(n: nat): (rho: seq<real>)
    ensures |rho| == n
  {
    seq(n, i requires 0 <= i < n => ((i as real) + 0.5) / (n as real))
  }

  lemma DivLess(x: real, y: real, d: real)
    requires d > 0.0 && x < y
    ensures x / d < y / d
  {
    assert y / d - x / d == (y - x) / d;
    PositiveQuotient(y - x, d);
  }

  lemma PositiveQuotient(p: real, d: real)
    requires p > 0.0 && d > 0.0
    ensures p / d > 0.0
  {
  }

  lemma DivUnitInterval(x: real, d: real)
    requires 0.0 < x < d
    ensures 0.0 < x / d < 1.0
  {
    PositiveQuotient(x, d);
    DivLess(x, d, d);
    assert d / d == 1.0;
  }

  lemma DivShift(x: real, d: real)
    requires d > 0.0
    ensures (x + 1.0) / d - x / d == 1.0 / d
  {
  }

  /** Every rho_norm value lies strictly inside (0, 1); the values increase
      strictly with constant spacing 1/n; and value i is the midpoint of the
      cell [i/n, (i+1)/n]. */
  lemma RhoNormShape(n: nat)
    ensures forall i :: 0 <= i < n ==> 0.0 < RhoNorm(n)[i] < 1.0
    ensures forall i :: 0 <= i < n - 1 ==> RhoNorm(n)[i + 1] - RhoNorm(n)[i] == 1.0 / (n as real)
    ensures forall i, j :: 0 <= i < j < n ==> RhoNorm(n)[i] < RhoNorm(n)[j]
    ensures forall i :: 0 <= i < n ==>
      RhoNorm(n)[i] == ((i as real) / (n as real) + ((i + 1) as real) / (n as real)) / 2.0
  {
    forall i | 0 <= i < n
      ensures 0.0 < RhoNorm(n)[i] < 1.0
    {
      RhoNormInside(n, i);
    }
    forall i | 0 <= i < n - 1
      ensures RhoNorm(n)[i + 1] - RhoNorm(n)[i] == 1.0 / (n as real)
    {
      DivShift((i as real) + 0.5, n as real);
    }
    forall i, j | 0 <= i < j < n
      ensures RhoNorm(n)[i] < RhoNorm(n)[j]
    {
      DivLess((i as real) + 0.5, (j as real) + 0.5, n as real);
    }
    forall i | 0 <= i < n
      ensures RhoNorm(n)[i] == ((i as real) / (n as real) + ((i + 1) as real) / (n as real)) / 2.0
    {
      CellCentre(i as real, n as real);
    }
  }

  lemma CellCentre(x: real, d: real)
    requires d > 0.0
    ensures (x + 0.5) / d == (x / d + (x + 1.0) / d) / 2.0
  {
  }

  /** One rho_norm value lies strictly inside (0, 1). */
  lemma RhoNormInside(n: nat, i: nat)
    requires i < n
    ensures 0.0 < RhoNorm(n)[i] < 1.0
  {
    DivUnitInterval((i as real) + 0.5, n as real);
  }

  /** For 25 radial cells the grid runs from 0.02 to 0.98. */
  lemma RhoNormOf25()
    ensures RhoNorm(25)[0] == 0.02 && RhoNorm(25)[24] == 0.98
  {
    var rho := RhoNorm(25);
    assert rho[0] == 0.5 / 25.0;
    assert rho[24] == 24.5 / 25.0;
  }

  /** The poloidal angles `linspace(0, 2 pi, 180)`, endpoint included. */
  function AngleGrid(m: Maths): (theta: seq<real>)
    ensures |theta| == AngleCount
  {
    Linspace(0.0, 2.0 * m.pi, AngleCount)
  }

  /** The angle grid starts at 0, ends at 2 pi and increases with spacing
      2 pi / 179. */
  lemma AngleGridShape(m: Maths)
    requires PiPositive(m)
    ensures AngleGrid(m)[0] == 0.0 && AngleGrid(m)[AngleCount - 1] == 2.0 * m.pi
    ensures forall j :: 0 <= j < AngleCount - 1 ==>
      AngleGrid(m)[j + 1] - AngleGrid(m)[j] == 2.0 * m.pi / 179.0
    ensures forall j, k :: 0 <= j <= k < AngleCount ==> AngleGrid(m)[j] <= AngleGrid(m)[k]
  {
    LinspaceShape(0.0, 2.0 * m.pi, AngleCount);
    LinspaceOrdered(0.0, 2.0 * m.pi, AngleCount);
  }

  // ---------------------------------------------------------------------
  // Meshgrid and broadcast
  // ---------------------------------------------------------------------

  /** n copies of x. */
  function Fill(x: real, n: nat): (row: seq<real>)
    ensures |row| == n && forall j :: 0 <= j < n ==> row[j] == x
  {
    seq(n, _ => x)
  }

  /** `np.meshgrid(xs, ys, indexing='ij')`: the first grid varies down the
      rows, the second across the columns. */
  function Meshgrid(xs: seq<real>, ys: seq<real>): (grids: (Grid, Grid))
    ensures IsShape(grids.0, |xs|, |ys|) && IsShape(grids.1, |xs|, |ys|)
  {
    (seq(|xs|, i requires 0 <= i < |xs| => Fill(xs[i], |ys|)),
     seq(|xs|, _ => ys))
  }

  /** The 'ij' meshgrid places xs[i] and ys[j] at node (i, j), and each
      axis is recovered from its grid: every column of the first grid is xs
      and every row of the second is ys. */
  lemma MeshgridAxes(xs: seq<real>, ys: seq<real>)
    ensures var (gx, gy) := Meshgrid(xs, ys);
      && (forall i, j :: 0 <= i < |xs| && 0 <= j < |ys| ==> gx[i][j] == xs[i] && gy[i][j] == ys[j])
      && (forall j :: 0 <= j < |ys| ==> Column(gx, j) == xs)
      && (forall i :: 0 <= i < |xs| ==> gy[i] == ys)
  {
  }

  /** `np.tile(data[:, np.newaxis], (1, n))`: each row repeats one value. */
  function Tile(data: seq<real>, n: nat): (grid: Grid)
    ensures IsShape(grid, |data|, n)
  {
    seq(|data|, i requires 0 <= i < |data| => Fill(data[i], n))
  }

  /** The broadcast profile is constant along every row, every column of it
      is the profile itself, and it is the first grid of the meshgrid of
      the profile against any n values. */
  lemma TileLaws(data: seq<real>, ys: seq<real>)
    ensures var t := Tile(data, |ys|);
      && (forall i, j :: 0 <= i < |data| && 0 <= j < |ys| ==> t[i][j] == data[i])
      && (forall j :: 0 <= j < |ys| ==> Column(t, j) == data)
      && t == Meshgrid(data, ys).0
  {
  }

  /** Every entry of a grid multiplied by c. */
  function ScaleGrid(grid: Grid, c: real): (scaled: Grid)
    ensures |scaled| == |grid|
    ensures forall i :: 0 <= i < |grid| ==> |scaled[i]| == |grid[i]|
  {
    seq(|grid|, i requires 0 <= i < |grid| =>
      seq(|grid[i]|, j requires 0 <= j < |grid[i]| => c * grid[i][j]))
  }

  /** The radius grid a rho_norm[i] lies strictly between 0 and a for a > 0. */
  lemma RadiusGridBounds(a: real, n: nat, theta: seq<real>)
    requires a > 0.0
    ensures var r := ScaleGrid(Meshgrid(RhoNorm(n), theta).0, a);
      forall i, j :: 0 <= i < n && 0 <= j < |theta| ==>
        r[i][j] == a * RhoNorm(n)[i] && 0.0 < r[i][j] < a
  {
    var rho := RhoNorm(n);
    var gx := Meshgrid(rho, theta).0;
    var r := ScaleGrid(gx, a);
    forall i, j | 0 <= i < n && 0 <= j < |theta|
      ensures r[i][j] == a * rho[i] && 0.0 < r[i][j] < a
    {
      assert gx[i] == Fill(rho[i], |theta|);
      assert gx[i][j] == rho[i];
      assert r[i][j] == a * gx[i][j];
      RhoNormInside(n, i);
      FractionOf(r[i][j], a, rho[i]);
    }
  }

  lemma FractionOf(v: real, a: real, x: real)
    requires v == a * x && a > 0.0 && 0.0 < x < 1.0
    ensures 0.0 < v < a
  {
    FractionBelow(v, a, x);
    PositiveProduct(a, x);
  }

  lemma FractionBelow(v: real, a: real, x: real)
    requires v == a * x && a > 0.0 && 0.0 < x < 1.0
    ensures v < a
  {
    Distribute(a, x);
    PositiveProduct(a, 1.0 - x);
  }

  // ---------------------------------------------------------------------
  // The plotted surface
  // ---------------------------------------------------------------------

  /** The three grids handed to the surface plot: major radius (x), height
      (y) and the profile value (z). */
  datatype PlotSurface = PlotSurface(rx: Grid, zy: Grid, value: Grid)

  /** The radius grid of `n` cells against the angle grid. */
  function RadiusGrid(m: Maths, n: nat): (r: Grid)
    ensures IsShape(r, n, AngleCount)
  {
    ScaleGrid(Meshgrid(RhoNorm(n), AngleGrid(m)).0, MinorRadius)
  }

  /** The grids built by `visualize_real_data` from a radial profile. */
  function Visualize(m: Maths, data: seq<real>): (p: PlotSurface)
    ensures IsShape(p.rx, |data|, AngleCount) && IsShape(p.zy, |data|, AngleCount)
    ensures IsShape(p.value, |data|, AngleCount)
  {
    var n := |data|;
    var thetaGrid := Meshgrid(RhoNorm(n), AngleGrid(m)).1;
    var r := RadiusGrid(m, n);
    var deltaSafe := ClampDelta(Triangularity);
    PlotSurface(
      seq(n, i requires 0 <= i < n =>
        seq(AngleCount, j requires 0 <= j < AngleCount =>
          MillerR(m, MajorRadius, r[i][j], deltaSafe, thetaGrid[i][j]))),
      seq(n, i requires 0 <= i < n =>
        seq(AngleCount, j requires 0 <= j < AngleCount =>
          MillerZ(m, 0.0, Elongation, r[i][j], thetaGrid[i][j]))),
      Tile(data, AngleCount))
  }

  /** The configured triangularity is within the clamp and passes through. */
  lemma TriangularityUnclamped()
    ensures ClampDelta(Triangularity) == Triangularity
  {
    ClampDeltaLaws(Triangularity);
  }

  /** Row i of the coordinate grids is the Miller outline, centred at
      (R0, 0), of the flux surface of minor radius a rho_norm[i]. */
  lemma RowIsMillerSurface(m: Maths, data: seq<real>, i: nat)
    requires i < |data|
    ensures var p := Visualize(m, data);
      var o := Surface(m, MajorRadius, 0.0, MinorRadius * RhoNorm(|data|)[i],
                       Elongation, Triangularity, AngleGrid(m));
      p.rx[i] == o.rs && p.zy[i] == o.zs
  {
    var p := Visualize(m, data);
    var r := MinorRadius * RhoNorm(|data|)[i];
    var o := Surface(m, MajorRadius, 0.0, r, Elongation, Triangularity, AngleGrid(m));
    TriangularityUnclamped();
    RadiusGridBounds(MinorRadius, |data|, AngleGrid(m));
    assert p.rx[i] == o.rs;
    assert p.zy[i] == o.zs;
  }

  /** The plotted value is the profile at every angle: each column of the
      value grid is the data. */
  lemma ValueAlongAngle(m: Maths, data: seq<real>, j: nat)
    requires j < AngleCount
    ensures Column(Visualize(m, data).value, j) == data
  {
    TileLaws(data, AngleGrid(m));
  }

  /** Every node lies strictly inside the box |R - R0| < a, |Z| < kappa a. */
  lemma SurfaceInBox(m: Maths, data: seq<real>, i: nat, j: nat)
    requires TrigBounded(m) && i < |data| && j < AngleCount
    ensures var p := Visualize(m, data);
      Abs(p.rx[i][j] - MajorRadius) < MinorRadius && Abs(p.zy[i][j]) < Elongation * MinorRadius
  {
    var p := Visualize(m, data);
    var r := MinorRadius * RhoNorm(|data|)[i];
    RowIsMillerSurface(m, data, i);
    RadiusGridBounds(MinorRadius, |data|, AngleGrid(m));
    OutlineInBox(m, MajorRadius, 0.0, r, Elongation, Triangularity, AngleGrid(m), j);
  }

  // ---------------------------------------------------------------------
  // The output file
  // ---------------------------------------------------------------------

  /** `'frames/' + file_name + '.png'`. */
  function OutputPath(fileName: string): (path: string)
    ensures |path| == |fileName| + 11
    ensures path[..7] == "frames/" && path[|path| - 4..] == ".png"
  {
    "frames/" + fileName + ".png"
  }

  /** The file name is recovered from the path, so distinct names never
      share a path. */
  lemma OutputPathInjective(a: string, b: string)
    ensures OutputPath(a)[7..|OutputPath(a)| - 4] == a
    ensures OutputPath(a) == OutputPath(b) ==> a == b
  {
    assert OutputPath(a)[7..|OutputPath(a)| - 4] == a;
    assert OutputPath(b)[7..|OutputPath(b)| - 4] == b;
  }

  /** The default name already ends in ".png", which is appended again. */
  lemma DefaultOutputPath()
    ensures OutputPath("output.png") == "frames/output.png.png"
  {
  }
}
