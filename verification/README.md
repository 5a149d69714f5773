# Boundary extraction, CHEASE normalisation and Miller surfaces

This project is a Dafny model of the geometry and plotting core of the
TORAX pellet-injection transport study. It has three parts.

- **The EQDSK boundary extractor** (`geometry/process_qedsk.py`).
  - It skips the first 3465 lines of an EQDSK file and scans the rest for
    numerals of the form
    `[-+]?\d*\.\d+E[-+]?\d+`. Modules `TokenScanner` and
    `BoundaryExtractor` model this step.
  - It reads the numerals two at a time as (R, Z) points and drops every
    point with |Z| > 3.99, reporting the even token index of each dropped
    point.
  - It writes the kept coordinates into the `outline.z` and `outline.r`
    entries of an equilibrium document.
- **The CHEASE profile normaliser and the geometry layer plot**
  (`geometry/reconstruct_from_geo.py`). Modules `CheaseScaling`,
  `GeometryLayers` and `Miller` model this part.
  - Each rescaled CHEASE channel is multiplied by the power of R_major, B_0,
    pi and mu_0 that undoes CHEASE's normalisation. The triangularities and
    the elongation pass through unchanged.
  - rho_tor is not rescaled. It gives the toroidal flux
    Phi = (rho_tor R_major)^2 B_0 pi, from which the normalised radius `rhon`
    and the volume derivative `vpr` are derived.
  - The plot computes a guarded `rhon` and selects up to ten surface
    indices with `unique(linspace(1, n-1, 10, dtype=int))`.
  - For each selected surface it builds the Miller outline
    `R = R_c + r cos(theta + arcsin(delta) sin theta)`,
    `Z = kappa r sin theta`, with delta clamped to [-0.99, 0.99]. The
    outermost surface is tagged as the LCFS (last closed flux surface).
- **The 3D profile grid** (`plot/plot_3D.py`, module `ProfileGrid`).
  - A radial profile of n values is placed on cell-centred radii
    `(i + 0.5) / n` and on 180 poloidal angles.
  - The profile is broadcast along the angle axis.
  - The (R, Z) coordinates of every node come from the Miller formula with
    R0 = 6.2, a = 2.0, kappa = 1.8 and delta = 0.4.
  - The figure path is `'frames/' + name + '.png'`.

Floating-point numbers are modelled as exact reals. The numbers pi and mu_0
and the functions sqrt, sin, cos and arcsin are fields of a `RealMath.Maths`
value. Each property names, as a precondition, the law it needs about them:
`PiPositive`, `SqrtLaw`, `TrigBounded` or `Miller.TrigAtZero`.

The modules are:

- `Options`: the option type.
- `RealMath`: reals, clip, linspace and sqrt laws.
- `TokenScanner`: the regular expression, findall and float conversion.
- `BoundaryExtractor`: pairing, the |Z| filter and the JSON update.
- `CheaseScaling`: channel scaling, Phi, `rhon` and `vpr`.
- `Miller`: the surface parametrisation.
- `GeometryLayers`: the layer plot.
- `ProfileGrid`: the 3D plot grids.

## Model

| member | source | states |
|---|---|---|
| TokenScanner.MatchAtIff | geometry/process_qedsk.py:5 | The matcher returns numeral n at position p exactly when n is written there element by element: optional sign, digits, '.', at least one digit, upper-case 'E', optional sign, at least one digit. No further digit follows. |
| TokenScanner.MatchAt | geometry/process_qedsk.py:5 | Whatever the pattern matches has the digit counts it admits: digits only before the '.', at least one digit after it, and at least one exponent digit. |
| TokenScanner.MatchSpellRoundTrip | geometry/process_qedsk.py:5 | Matching the spelling of any valid numeral gives back that numeral. |
| TokenScanner.NoMarkerNoTokens | geometry/process_qedsk.py:5 | A line with no upper-case 'E', or with no '.', yields no value. |
| TokenScanner.RejectedSpellings | geometry/process_qedsk.py:5 | `1E5` (no '.') and `1.0e+00` (lower-case e) are not numerals. |
| TokenScanner.FindAll | geometry/process_qedsk.py:15 | Every token findall returns is a valid numeral of the pattern. Every match spells at least four characters, so there are at most (\|s\| - p)/4 tokens. |
| TokenScanner.FindAllSound | geometry/process_qedsk.py:15 | For any pattern that moves forward and any text, token k of findall is the pattern's match at start position k. The start positions lie from p on, and each match ends before the next one starts. |
| TokenScanner.FindAllComplete | geometry/process_qedsk.py:15 | Every position from p on where the pattern matches lies inside one of the returned matches, so findall misses only matches that overlap an earlier one. |
| TokenScanner.LineTokens | geometry/process_qedsk.py:5-15 | On any line, each returned token is written in full at its start position, the tokens do not overlap, and every position where a numeral is written is covered by a returned token. |
| TokenScanner.AdjacentTokens | geometry/process_qedsk.py:15 | Two numerals written with no blank between them, the second signed, are found as exactly those two tokens. |
| TokenScanner.AbuttingSign | geometry/process_qedsk.py:15-17 | The text `1.0E+00-2.0E+00` reads as the two values 1 and -2. |
| TokenScanner.NoMatchNoTokens | geometry/process_qedsk.py:15 | If the pattern matches nowhere from p on, findall returns nothing. |
| TokenScanner.JoinScan | geometry/process_qedsk.py:15 | For any pattern that reads every numeral back from its spelling, findall over blank-separated numerals returns exactly those numerals, in order. |
| TokenScanner.JoinValues | geometry/process_qedsk.py:15-17 | Scanning a line of blank-separated numerals yields their values in order. |
| TokenScanner.Value | geometry/process_qedsk.py:17 | A numeral with a '-' sign converts to a value <= 0, and any other numeral to a value >= 0. |
| TokenScanner.ValueDecimal | geometry/process_qedsk.py:17 | For a numeral with a non-negative exponent e, the value times 10^(number of fraction digits) equals the integer spelled by its whole and fraction digits times 10^e. A '-' sign negates it. |
| TokenScanner.ValueDecimalNegative | geometry/process_qedsk.py:17 | For a numeral with a negative exponent -e, the value times 10^(fraction digits + e) equals the integer spelled by its whole and fraction digits. A '-' sign negates it. |
| TokenScanner.QuarterValue | geometry/process_qedsk.py:17 | `2.5E-01` is a numeral of the pattern and converts to 0.25. |
| TokenScanner.ScaledNegativeValue | geometry/process_qedsk.py:17 | `-1.234E+02` is a numeral of the pattern and converts to -123.4. |
| TokenScanner.ValueSign | geometry/process_qedsk.py:17 | A '+' sign does not change the value, a '-' sign negates it, and an unsigned or '+' numeral is non-negative. |
| TokenScanner.UnitValue | geometry/process_qedsk.py:17 | The numeral `w.0E+00` converts to the integer value of its digits w. |
| TokenScanner.Values | geometry/process_qedsk.py:17 | `float` is applied to every token, giving one value per token. The value of each token is stated by ValueDecimal, ValueDecimalNegative and ValueSign. |
| TokenScanner.LineValues | geometry/process_qedsk.py:15-17 | A line of c characters yields at most c/4 values. |
| TokenScanner.ScanLines | geometry/process_qedsk.py:16-17 | The values read from a list of lines number at most a quarter of their characters. |
| TokenScanner.ScanFrom | geometry/process_qedsk.py:14-17 | Only lines from the offset on are read. The values number at most a quarter of those lines' characters, and an offset past the end gives no value. |
| TokenScanner.ScanLinesAppend | geometry/process_qedsk.py:14-17 | The values of a concatenation of lines are the values of each part, concatenated (`p.extend`). |
| TokenScanner.HeaderSkipped | geometry/process_qedsk.py:14 | Lines before the offset contribute nothing: scanning header + body from \|header\| reads only the body. |
| TokenScanner.ScanFromAppend | geometry/process_qedsk.py:14-17 | Lines appended after the offset add their values at the end. |
| TokenScanner.SixTokenLine | geometry/process_qedsk.py:14-17 | The line `1.0E+00 2.0E+00 3.0E+00 99.0E+00 5.0E+00 6.0E+00` scans to [1, 2, 3, 99, 5, 6]. |
| BoundaryExtractor.PairsFlatten | geometry/process_qedsk.py:21-22 | Pairing the flattened coordinates of any point list gives the list back. |
| BoundaryExtractor.FlattenPairs | geometry/process_qedsk.py:21-22 | Pairing keeps every token except a trailing odd one: flattening the pairs gives the longest even-length prefix. |
| BoundaryExtractor.Pairs | geometry/process_qedsk.py:21-22 | The loop over `range(0, len(p) - 1, 2)` forms \|p\|/2 points, dropping a trailing odd token. |
| BoundaryExtractor.Split | geometry/process_qedsk.py:21-28 | R and Z lists have equal length, and every point is either kept or reported. |
| BoundaryExtractor.SplitInside | geometry/process_qedsk.py:23-28 | Every kept Z satisfies \|Z\| <= 3.99. |
| BoundaryExtractor.SplitReports | geometry/process_qedsk.py:23-24 | Each report names an even token index, the point at that index and a \|Z\| above 3.99. Reports are in increasing index order. |
| BoundaryExtractor.SplitKeeps | geometry/process_qedsk.py:26-28 | The kept (R, Z) pairs are exactly the points with \|Z\| <= 3.99, in input order. |
| BoundaryExtractor.SplitRejectsExactly | geometry/process_qedsk.py:23-28 | Point k is reported, at token index 2k, if and only if its \|Z\| exceeds 3.99. |
| BoundaryExtractor.ExtractBoundary | geometry/process_qedsk.py:21-28 | The loop over the token values computes the split of the pairs. Kept plus reported points number \|p\|/2. Each report's point is (p[i], p[i+1]) with \|p[i+1]\| > 3.99. |
| BoundaryExtractor.SplitExample | geometry/process_qedsk.py:21-28 | Tokens [1, 2, 3, 99, 5, 6] keep R = [1] and Z = [2], and report indices 2 and 4. |
| BoundaryExtractor.ExtractExample | geometry/process_qedsk.py:14-28 | A file whose first data line holds those six numerals gives the same boundary. |
| BoundaryExtractor.ExtractFromLines | geometry/process_qedsk.py:14-28 | From the file's lines, the kept R and Z lists have equal length, kept plus reported points number half the scanned values, and every kept Z satisfies \|Z\| <= 3.99. |
| BoundaryExtractor.WriteOutline | geometry/process_qedsk.py:38-39 | The document afterwards holds Z at `outline.z` and R at `outline.r`. It gains no other key, and every other entry is unchanged. |
| CheaseScaling.Scale | geometry/reconstruct_from_geo.py:25-53 | Multiplying a channel by its factor keeps one value per CHEASE value. ScaleInverse states that the scaling can be undone. |
| CheaseScaling.ScaleInverse | geometry/reconstruct_from_geo.py:25-53 | Scaling a channel by a non-zero factor is undone by scaling by its reciprocal. |
| CheaseScaling.Factor | geometry/reconstruct_from_geo.py:24-53 | With pi > 0 and non-zero R_major, B_0 and mu_0, every channel factor is non-zero, so no channel is scaled to zero. The factor of each channel is stated by FluxFactors, LengthFactors and FieldFactors. |
| CheaseScaling.FluxFactors | geometry/reconstruct_from_geo.py:24-35 | A value x is scaled as written in the source: psi becomes x R_major^2 B_0 2 pi (`psiunnormfactor`), the current x / mu_0 R_major B_0, and the field function F = x R_major B_0. |
| CheaseScaling.LengthFactors | geometry/reconstruct_from_geo.py:32-41 | R_inboard and R_outboard become x R_major, the contour integral x R_major / B_0, <1/R> x / R_major and <1/R^2> x / R_major^2. |
| CheaseScaling.FieldFactors | geometry/reconstruct_from_geo.py:43-53 | <Bp^2> becomes x B_0^2 4 pi^2, <\|grad psi\|> x psiunnormfactor / R_major, <\|grad psi\|^2> x psiunnormfactor^2 / R_major^2, <B^2> x B_0^2 and <1/B^2> x / B_0^2. |
| CheaseScaling.ConstructScales | geometry/reconstruct_from_geo.py:24-53 | Every rescaled channel of the intermediates is its CHEASE channel multiplied element-wise by that channel's factor (so F and <1/R^2> are the scaled `T=RBphi` and `<1/R**2>`), and Phi is the toroidal flux of rho_tor. |
| CheaseScaling.UnscaleScale | geometry/reconstruct_from_geo.py:24-53 | Every rescaled channel can be scaled back to its raw CHEASE values. |
| CheaseScaling.PsiOfOnes | geometry/reconstruct_from_geo.py:24-25 | With R_major = B_0 = 1, a psi profile of ones, of any length, becomes 2 pi at every point. |
| CheaseScaling.FluxZeroIff | geometry/reconstruct_from_geo.py:30 | The flux of a surface is zero exactly when rho_tor is zero. |
| CheaseScaling.FluxNonNegative | geometry/reconstruct_from_geo.py:30 | With B_0 >= 0 every Phi value is non-negative. |
| CheaseScaling.EdgeFluxNonZero | geometry/reconstruct_from_geo.py:30 | Phi[-1] is non-zero if and only if rho_tor[-1] is. |
| CheaseScaling.ToroidalFlux | geometry/reconstruct_from_geo.py:30 | Phi has one value per rho_tor value, each being (rho R_major)^2 B_0 pi. Its values are stated by FluxZeroIff, FluxNonNegative and FluxRatio. |
| CheaseScaling.FluxExample | geometry/reconstruct_from_geo.py:30 | With R_major = B_0 = 1, rho_tor = [0, 0.25, 0.5, 0.75, 1] gives Phi = [0, pi/16, pi/4, 9 pi/16, pi]. |
| CheaseScaling.FluxRatio | geometry/reconstruct_from_geo.py:30-55 | Phi / Phi[-1] equals (rho_tor / rho_tor[-1])^2, whatever R_major and B_0 are. |
| CheaseScaling.RadiusRatio | geometry/reconstruct_from_geo.py:55 | `rhon` equals \|rho_tor / rho_tor[-1]\|. |
| CheaseScaling.RadiusAtEdge | geometry/reconstruct_from_geo.py:55 | The edge value of `rhon` is 1. |
| CheaseScaling.NormalisedRadius | geometry/reconstruct_from_geo.py:55 | `rhon` has one value per Phi value whenever Phi[-1] is non-zero. Its values are stated by RadiusRatio and RadiusAtEdge. |
| CheaseScaling.VolumeDerivative | geometry/reconstruct_from_geo.py:56 | `vpr` has one value per surface whenever no F <1/R^2> is zero. Its values are stated by VprOfRadius. |
| CheaseScaling.VprOfRadius | geometry/reconstruct_from_geo.py:55-56 | For a constructible profile, rho_tor[-1] and F_i <1/R^2>_i are non-zero. vpr_i = 4 pi Phi[-1] \|rho_tor_i / rho_tor[-1]\| / (F_i <1/R^2>_i), the formula of line 56 applied to `rhon`. |
| CheaseScaling.VprNonNegative | geometry/reconstruct_from_geo.py:30-56 | With B_0 >= 0, vpr_i >= 0 wherever F_i <1/R^2>_i > 0. |
| CheaseScaling.VprZeroAtZeroRadius | geometry/reconstruct_from_geo.py:56 | `vpr` is zero wherever `rhon` is zero. |
| CheaseScaling.Construct | geometry/reconstruct_from_geo.py:58-92 | Every intermediate channel has the length of its CHEASE channel, and Phi and `vpr` have the length of rho_tor. The scalars and flags are passed through. The triangularities and the elongation are carried over unchanged. |
| CheaseScaling.DenormaliseConstruct | geometry/reconstruct_from_geo.py:24-92 | Denormalising the constructed intermediates returns the CHEASE data exactly. |
| CheaseScaling.OnAxis | geometry/reconstruct_from_geo.py:30-56 | Where rho_tor[0] = 0, both Phi[0] and vpr[0] are zero. |
| RealMath.Clip | geometry/reconstruct_from_geo.py:128 | The clipped value lies in [lo, hi]. It equals x when x is inside and the nearer bound otherwise. |
| RealMath.ClipIdempotentMonotone | geometry/reconstruct_from_geo.py:128 | Clipping twice is clipping once, and clipping preserves order. |
| RealMath.Linspace | geometry/reconstruct_from_geo.py:96 | `linspace` returns num samples. Their values are stated by LinspaceShape and LinspaceOrdered. |
| RealMath.LinspaceShape | geometry/reconstruct_from_geo.py:96 | The grid has num samples. It starts at start, ends exactly at stop and has constant spacing (stop - start)/(num - 1). |
| RealMath.LinspaceOrdered | geometry/reconstruct_from_geo.py:96 | For start <= stop the samples are non-decreasing and lie in [start, stop]. |
| RealMath.SqrtOfSquare | geometry/reconstruct_from_geo.py:55 | sqrt(x^2) = \|x\|. |
| Miller.MillerR | geometry/reconstruct_from_geo.py:130 | A surface of zero minor radius has R = R_c at every angle. |
| Miller.MillerZ | geometry/reconstruct_from_geo.py:131 | With r = 0 or kappa = 0, Z = Z_c at every angle. |
| Miller.Surface | geometry/reconstruct_from_geo.py:130-131 | The outline has one R and one Z per sampled angle. Its points are stated by PointInBox and OutboardMidplane. |
| Miller.ClampDelta | geometry/reconstruct_from_geo.py:128 | The clamped triangularity lies in [-0.99, 0.99]. ClampDeltaLaws states which value it takes. |
| Miller.ClampDeltaLaws | geometry/reconstruct_from_geo.py:128 | A triangularity in [-0.99, 0.99] is kept if and only if it is in range. Values outside go to the nearer bound, and clamping is idempotent. |
| Miller.PointInBox | geometry/reconstruct_from_geo.py:130-131 | Each surface point satisfies \|R - R_c\| <= \|r\| and \|Z - Z_c\| <= \|kappa r\|. |
| Miller.OutboardMidplane | geometry/reconstruct_from_geo.py:130-131 | At theta = 0 the surface passes through (R_c + r, Z_c), whatever delta and kappa are. |
| Miller.OutlineInBox | geometry/reconstruct_from_geo.py:130-131 | Every sampled outline point lies in that box. |
| GeometryLayers.SafeFlux | geometry/reconstruct_from_geo.py:99 | `Phi_safe` has no zero and agrees with Phi wherever Phi is non-zero. |
| GeometryLayers.SafeFluxIdentity | geometry/reconstruct_from_geo.py:99 | The guard changes nothing exactly when Phi has no zero, and it is idempotent. |
| GeometryLayers.GuardedRadius | geometry/reconstruct_from_geo.py:100-101 | The guarded `rhon` has the length of Phi and is 0 on the axis. |
| GeometryLayers.GuardedRadiusAgrees | geometry/reconstruct_from_geo.py:98-101 | Off the axis, the guarded radius equals the unguarded sqrt(Phi/Phi[-1]) where Phi is non-zero, and sqrt(1e-9/Phi[-1]) where Phi is zero. |
| GeometryLayers.GuardedRadiusOfFlux | geometry/reconstruct_from_geo.py:98-101 | Applied to the constructed Phi, the guarded radius at every off-axis index where rho_tor is non-zero is \|rho_tor[i] / rho_tor[-1]\|. Where rho_tor is zero off the axis, Phi is zero and the guarded radius is sqrt(1e-9/Phi[-1]). |
| GeometryLayers.GuardedRadiusAtEdge | geometry/reconstruct_from_geo.py:100-101 | With two or more points the guarded radius is 1 at the edge. |
| GeometryLayers.LinspaceIndex | geometry/reconstruct_from_geo.py:113 | Each of the ten integer samples lies in [1, n-1], so it names an existing surface. |
| GeometryLayers.IndexGrid | geometry/reconstruct_from_geo.py:113 | The integer grid has ten samples, all in [1, n-1]. |
| GeometryLayers.LinspaceIndexIsFloor | geometry/reconstruct_from_geo.py:113 | Each integer index is the floor of the real sample of `linspace(1, n-1, 10)`. |
| GeometryLayers.IndexGridShape | geometry/reconstruct_from_geo.py:113 | The integer grid starts at 1, ends at n-1, lies in [1, n-1] and is non-decreasing. For n >= 11 it is strictly increasing. |
| GeometryLayers.Dedup | geometry/reconstruct_from_geo.py:113 | Deduplication keeps exactly the same members, is no longer than its input, and keeps the first and last elements. |
| GeometryLayers.DedupSorted | geometry/reconstruct_from_geo.py:113 | On sorted input, Dedup returns the strictly increasing sequence of the input's distinct values, as `np.unique` does. |
| GeometryLayers.UniqueIsUnique | geometry/reconstruct_from_geo.py:113 | That characterisation determines the result: two such sequences are equal. |
| GeometryLayers.DedupStrict | geometry/reconstruct_from_geo.py:113 | On a strictly increasing input, deduplication is the identity. |
| GeometryLayers.SelectedIndices | geometry/reconstruct_from_geo.py:113 | Between 1 and 10 distinct sorted indices are selected, all in [1, n-1], the first being 1 and the last n-1. |
| GeometryLayers.TenSurfacesWhenFine | geometry/reconstruct_from_geo.py:113 | With 11 or more radial points exactly ten surfaces are drawn. |
| GeometryLayers.MidpointBetween | geometry/reconstruct_from_geo.py:106-107 | The averaged triangularity and centre (`Midpoint`, the average of the upper and lower, or inner and outer, values) lie between their two inputs and do not depend on their order. |
| GeometryLayers.Layers | geometry/reconstruct_from_geo.py:113-133 | One layer is drawn per selected index, in order. |
| GeometryLayers.ExactlyOneLcfs | geometry/reconstruct_from_geo.py:113-133 | Exactly one layer, the outermost, is tagged LCFS, and it sits on index n-1. Layer indices are strictly increasing and lie in [1, n-1]. |
| GeometryLayers.LcfsRadius | geometry/reconstruct_from_geo.py:100-119 | The LCFS has rho = 1, so its minor radius is the full a_minor. |
| GeometryLayers.LayerAngles | geometry/reconstruct_from_geo.py:96 | Every outline is sampled at the 360 angles `linspace(0, 2 pi, 360)`. LayerOutboardPoint uses the first of them, which is 0. |
| GeometryLayers.LayerOutboardPoint | geometry/reconstruct_from_geo.py:96-131 | The first sample of every outline is the outboard midplane point (R_c + r, 0). |
| GeometryLayers.LayerInBox | geometry/reconstruct_from_geo.py:128-131 | Every outline point of a layer satisfies \|R - R_c\| <= \|r\| and \|Z\| <= \|kappa r\|. |
| ProfileGrid.RhoNorm | plot/plot_3D.py:20 | There is one radius per profile value. Its values are stated by RhoNormShape and RhoNormInside. |
| ProfileGrid.RhoNormShape | plot/plot_3D.py:20 | The cell centres lie in (0, 1), are strictly increasing and are spaced 1/n apart. Each is the midpoint of its cell [i/n, (i+1)/n]. |
| ProfileGrid.RhoNormInside | plot/plot_3D.py:20 | Each cell centre lies strictly inside (0, 1). |
| ProfileGrid.RhoNormOf25 | plot/plot_3D.py:19-20 | With 25 values the centres run from 0.02 to 0.98. |
| ProfileGrid.AngleGrid | plot/plot_3D.py:32-37 | There are 180 angles. Their values are stated by AngleGridShape. |
| ProfileGrid.AngleGridShape | plot/plot_3D.py:37 | The 180 angles run from 0 to 2 pi inclusive, with spacing 2 pi / 179, in order. |
| ProfileGrid.Meshgrid | plot/plot_3D.py:38 | Both 'ij' grids have shape \|rho\| x \|theta\|. |
| ProfileGrid.MeshgridAxes | plot/plot_3D.py:38 | Node (i, j) holds (rho[i], theta[j]). Every column of the first grid is rho, and every row of the second is theta. |
| ProfileGrid.Tile | plot/plot_3D.py:41 | Tiling n values k times gives an n x k grid. Its contents are stated by TileLaws. |
| ProfileGrid.TileLaws | plot/plot_3D.py:41 | The broadcast profile is constant along each row and every column is the profile. It equals the first meshgrid of the profile. |
| ProfileGrid.RadiusGrid | plot/plot_3D.py:45 | The minor-radius grid `a * Rho_grid` has shape n x 180. Its values are stated by RadiusGridBounds. |
| ProfileGrid.RadiusGridBounds | plot/plot_3D.py:45 | r[i][j] = a rho[i], and 0 < r < a. |
| ProfileGrid.Visualize | plot/plot_3D.py:18-55 | The R, Z and value grids all have shape n x 180. |
| ProfileGrid.TriangularityUnclamped | plot/plot_3D.py:48 | The configured delta 0.4 passes through the clamp unchanged. |
| ProfileGrid.RowIsMillerSurface | plot/plot_3D.py:45-55 | Row i of the R and Z grids is the Miller outline centred at (6.2, 0) with minor radius a rho[i], kappa 1.8 and delta 0.4. |
| ProfileGrid.ValueAlongAngle | plot/plot_3D.py:41 | Every column of the plotted value grid is the input profile. |
| ProfileGrid.SurfaceInBox | plot/plot_3D.py:52-55 | Every node satisfies \|R - 6.2\| < 2 and \|Z\| < 1.8 x 2. |
| ProfileGrid.OutputPath | plot/plot_3D.py:88 | The path starts with `frames/`, ends with `.png` and is 11 characters longer than the name. |
| ProfileGrid.OutputPathInjective | plot/plot_3D.py:88 | The file name is recovered from the path, so distinct names give distinct paths. |
| ProfileGrid.DefaultOutputPath | plot/plot_3D.py:88 | With the default name the figure is written to `frames/output.png.png`. |

## Left out

- File and plot I/O are not modelled. This covers reading the EQDSK file,
  `json.load`/`json.dump`, every matplotlib call, the `print` calls, the
  LCFS max-R marker and the layer transparency. `print(i)` is modelled as
  the list of reported indices.
- Binary floating point is not modelled, because values are exact reals.
  `float(token)` is the exact decimal value. Python's `(x / mu_0) * R * B_0`
  and `(rho R)^2` are the same reals as the reordered products used here.
- pi, mu_0, sqrt, sin, cos and arcsin are not computed. They are parameters
  constrained only by the stated laws.
- TokenScanner.MatchAtIff: `\d` is modelled as the ASCII digits 0-9 only.
  Python's `re` also accepts other Unicode decimal digits.
- The code does not raise an error when the file yields no numerals. It
  produces an empty outline, and the model follows the code.
- `KeyError` for a missing CHEASE channel or JSON key is not modelled.
  Channels are fields of a datatype, and the JSON document is a map from
  key paths to values, written and never read.
- The loading of the CHEASE file is not part of this model. Neither is the
  `StandardGeometryIntermediates` constructor beyond the fields it is
  given; the fields passed as `None` are omitted.
- CheaseScaling.Construct requires what keeps numpy from producing inf or
  nan: non-zero R_major, B_0 and mu_0, a non-zero Phi[-1], and a non-zero
  F <1/R^2> on every surface.
- CheaseScaling.Construct requires equal lengths of `rhon`, F and <1/R^2>.
  Numpy broadcasting of unequal lengths is not modelled.
- CheaseScaling.DenormaliseConstruct: rho_tor is taken as a parameter
  rather than recovered, because the intermediates keep only Phi.
- GeometryLayers.Layers: `a_minor` is modelled as a scalar. The branch
  taking `a_minor[0]` of an array is left out.
- GeometryLayers.Layers requires at least two radial points. With one
  point, `linspace(1, 0, 10)` selects index 0 and 1, and the source indexes
  past the end.
- GeometryLayers.LinspaceIndex is the exact-real floor of the linspace
  sample. numpy's float rounding of that sample could differ by one when a
  sample is within rounding error of an integer.
- GeometryLayers.Drawable requires channel lengths of at least the length
  of Phi, so that every drawn index exists in them. It also requires a
  non-zero Phi[-1]: line 100 of `geometry/reconstruct_from_geo.py` divides
  by it unguarded, and numpy would give inf or nan. It requires
  |deltaUpperFace| == |deltaLowerFace| and |rIn| == |rOut|: lines 106-107
  add these arrays element-wise, which raises on a shape mismatch. The
  broadcasting of a length-1 array against a longer one is not modelled.
- GeometryLayers.GuardedRadius requires Phi[-1] != 0. Line 100 divides by
  Phi[-1] without a guard, and numpy would give inf or nan for a zero edge
  flux.
- BoundaryExtractor.WriteOutline models the JSON document as a flat map
  from key paths to values. Assigning a list to `outline.z` in Python
  replaces the whole subtree below that key, while the flat map keeps any
  longer path that starts with `outline.z` or `outline.r`.
