/**
 * The EQDSK boundary extractor: the token values read after the header are
 * taken two at a time as (R, Z) points of the plasma boundary; points whose
 * |Z| exceeds 3.99 are reported and dropped, the others are kept in order
 * and written into the `boundary.outline` of the first time slice of a
 * JSON equilibrium document.
 */
module BoundaryExtractor {
  import opened RealMath
  import TokenScanner

  /** Points with |Z| above this height are dropped. */
  const ZLimit: real := 3.99

  datatype Point = Point(r: real, z: real)

  /** A dropped point, with the position of its R value in the token list
      (the `i` that is reported). */
  datatype Rejected = Rejected(index: nat, point: Point)

  /** The kept outline, as two parallel lists, and the dropped points. */
  datatype Boundary = Boundary(rs: seq<real>, zs: seq<real>, rejected: seq<Rejected>)

  predicate Inside(pt: Point) {
    Abs(pt.z) <= ZLimit
  }

  /** The kept outline read back as points. */
  function Outline(b: Boundary): (pts: seq<Point>)
    requires |b.rs| == |b.zs|
    ensures |pts| == |b.rs|
  {
    seq(|b.rs|, k requires 0 <= k < |b.rs| => Point(b.rs[k], b.zs[k]))
  }

  // ---------------------------------------------------------------------
  // Pairing the token values
  // ---------------------------------------------------------------------

  /** `range(0, len(p) - 1, 2)` visits `i = 0, 2, 4, …` while `i + 1` is an
      index, so an odd trailing value is never used. */
  function Pairs(p: seq<real>): (ps: seq<Point>)
    ensures |ps| == |p| / 2
  {
    seq(|p| / 2, k requires 0 <= k < |p| / 2 => Point(p[2 * k], p[2 * k + 1]))
  }

  /** The inverse of pairing: the points written back as R, Z, R, Z, … */
  function Flatten(ps: seq<Point>): (p: seq<real>)
    ensures |p| == 2 * |ps|
  {
    if ps == [] then [] else [ps[0].r, ps[0].z] + Flatten(ps[1..])
  }

  lemma {:induction false} FlattenAt(ps: seq<Point>, k: nat)
    requires k < |ps|
    ensures Flatten(ps)[2 * k] == ps[k].r && Flatten(ps)[2 * k + 1] == ps[k].z
    decreases k
  {
    if k > 0 {
      FlattenAt(ps[1..], k - 1);
    }
  }

  /** Pairing the flattened points gives the points back. */
  lemma PairsFlatten(ps: seq<Point>)
    ensures Pairs(Flatten(ps)) == ps
  {
    forall k | 0 <= k < |ps|
      ensures Pairs(Flatten(ps))[k] == ps[k]
    {
      FlattenAt(ps, k);
    }
  }

  /** Flattening the pairs gives the token values back, less an odd
      trailing value. */
  lemma FlattenPairs(p: seq<real>)
    ensures Flatten(Pairs(p)) == p[..2 * (|p| / 2)]
  {
    var ps := Pairs(p);
    forall i | 0 <= i < 2 * (|p| / 2)
      ensures Flatten(ps)[i] == p[i]
    {
      FlattenAt(ps, i / 2);
    }
  }

  // ---------------------------------------------------------------------
  // Splitting the points
  // ---------------------------------------------------------------------

  /** The points of `ps` that are kept, in order: the reference filter. */
  function Kept(ps: seq<Point>): (ks: seq<Point>)
    ensures |ks| <= |ps|
  {
    if ps == [] then []
    else (if Inside(ps[0]) then [ps[0]] else []) + Kept(ps[1..])
  }

  lemma {:induction false} KeptAppend(a: seq<Point>, b: seq<Point>)
    ensures Kept(a + b) == Kept(a) + Kept(b)
    decreases |a|
  {
    if a == [] {
      assert a + b == b;
    } else {
      var head := if Inside(a[0]) then [a[0]] else [];
      assert (a + b)[0] == a[0];
      assert (a + b)[1..] == a[1..] + b;
      assert Kept(a + b) == head + Kept(a[1..] + b);
      assert Kept(a) == head + Kept(a[1..]);
      KeptAppend(a[1..], b);
    }
  }

  /** The split of the points `ps`, built point by point as the loop over
      the token list does: the k-th point sits at token index 2k. */
  function Split(ps: seq<Point>): (b: Boundary)
    ensures |b.rs| == |b.zs|
    ensures |b.rs| + |b.rejected| == |ps|
    decreases |ps|
  {
    if ps == [] then Boundary([], [], [])
    else
      var b := Split(ps[..|ps| - 1]);
      var pt := ps[|ps| - 1];
      if Inside(pt) then Boundary(b.rs + [pt.r], b.zs + [pt.z], b.rejected)
      else Boundary(b.rs, b.zs, b.rejected + [Rejected(2 * (|ps| - 1), pt)])
  }

  /** Every kept Z is within the limit. */
  lemma {:induction false} SplitInside(ps: seq<Point>)
    ensures forall k :: 0 <= k < |Split(ps).zs| ==> Abs(Split(ps).zs[k]) <= ZLimit
    decreases |ps|
  {
    if ps != [] {
      SplitInside(ps[..|ps| - 1]);
    }
  }

  /** Every report names an even token index, the point found there, and a
      |Z| above the limit; reports come in increasing index order. */
  lemma {:induction false} SplitReports(ps: seq<Point>)
    ensures forall j :: 0 <= j < |Split(ps).rejected| ==>
              Split(ps).rejected[j].index % 2 == 0 && Split(ps).rejected[j].index / 2 < |ps|
              && ps[Split(ps).rejected[j].index / 2] == Split(ps).rejected[j].point
              && Abs(Split(ps).rejected[j].point.z) > ZLimit
    ensures forall j, j' :: 0 <= j < j' < |Split(ps).rejected| ==>
              Split(ps).rejected[j].index < Split(ps).rejected[j'].index
    decreases |ps|
  {
    if ps != [] {
      var init := ps[..|ps| - 1];
      SplitReports(init);
      var rej0 := Split(init).rejected;
      forall j | 0 <= j < |rej0|
        ensures rej0[j].index / 2 < |init| && ps[rej0[j].index / 2] == init[rej0[j].index / 2]
      {
      }
    }
  }

  /** The kept outline is exactly the filtered points, in their order. */
  lemma {:induction false} SplitKeeps(ps: seq<Point>)
    ensures Outline(Split(ps)) == Kept(ps)
    decreases |ps|
  {
    if ps != [] {
      var init := ps[..|ps| - 1];
      var pt := ps[|ps| - 1];
      SplitKeeps(init);
      assert ps == init + [pt];
      KeptAppend(init, [pt]);
      assert Kept([pt]) == (if Inside(pt) then [pt] else []) by {
        assert [pt][1..] == [];
      }
    }
  }

  /** Every point above the limit is reported, at its token index. */
  lemma {:induction false} SplitRejectsAll(ps: seq<Point>, k: nat)
    requires k < |ps| && Abs(ps[k].z) > ZLimit
    ensures exists j :: 0 <= j < |Split(ps).rejected| && Split(ps).rejected[j].index == 2 * k
    decreases |ps|
  {
    var rej := Split(ps).rejected;
    var init := ps[..|ps| - 1];
    if k < |ps| - 1 {
      SplitRejectsAll(init, k);
      var rej0 := Split(init).rejected;
      var j :| 0 <= j < |rej0| && rej0[j].index == 2 * k;
      assert rej[..|rej0|] == rej0;
      assert rej[j] == rej0[j];
    } else {
      assert rej[|rej| - 1].index == 2 * k;
    }
  }

  /** A point is dropped (and its index reported) exactly when its |Z|
      exceeds the limit. */
  lemma SplitRejectsExactly(ps: seq<Point>, k: nat)
    requires k < |ps|
    ensures Abs(ps[k].z) > ZLimit <==>
            exists j :: 0 <= j < |Split(ps).rejected| && Split(ps).rejected[j].index == 2 * k
  {
    SplitReports(ps);
    if Abs(ps[k].z) > ZLimit {
      SplitRejectsAll(ps, k);
    }
  }

  // ---------------------------------------------------------------------
  // The extraction loop over the token list
  // ---------------------------------------------------------------------

  /** The loop over the token values: each step reads `r, z = p[i], p[i+1]`
      and either drops the point (reporting `i`) or appends R and Z. */
  method ExtractBoundary(p: seq<real>) returns (b: Boundary)
    ensures b == Split(Pairs(p))
    ensures |b.rs| == |b.zs| && |b.rs| + |b.rejected| == |p| / 2
    ensures forall j :: 0 <= j < |b.rejected| ==>
              b.rejected[j].index + 1 < |p|
              && b.rejected[j].point == Point(p[b.rejected[j].index], p[b.rejected[j].index + 1])
              && Abs(p[b.rejected[j].index + 1]) > ZLimit
  {
    var ps := Pairs(p);
    var rs: seq<real> := [];
    var zs: seq<real> := [];
    var rejected: seq<Rejected> := [];
    var i := 0;
    while i < |p| - 1
      invariant i % 2 == 0 && i / 2 <= |ps|
      invariant Boundary(rs, zs, rejected) == Split(ps[..i / 2])
    {
      var r, z := p[i], p[i + 1];
      assert ps[i / 2] == Point(r, z);
      assert ps[..i / 2 + 1][..i / 2] == ps[..i / 2];
      if Abs(z) > ZLimit {
        rejected := rejected + [Rejected(i, Point(r, z))];
      } else {
        rs := rs + [r];
        zs := zs + [z];
      }
      i := i + 2;
    }
    assert ps[..i / 2] == ps;
    b := Boundary(rs, zs, rejected);
    SplitReports(ps);
  }

  /** The extractor applied to the lines of an EQDSK file: scan from the
      fixed line offset, then split. */
  function ExtractFromLines(lines: seq<string>): (b: Boundary)
    ensures var p := TokenScanner.ScanFrom(lines, TokenScanner.DataOffset);
      |b.rs| == |b.zs| && |b.rs| + |b.rejected| == |p| / 2
    ensures forall k :: 0 <= k < |b.zs| ==> Abs(b.zs[k]) <= ZLimit
  {
    var ps := Pairs(TokenScanner.ScanFrom(lines, TokenScanner.DataOffset));
    SplitInside(ps);
    Split(ps)
  }

  /** Unfolds Split by one point: the last point either extends the outline
      or is reported at its token index. A helper for SplitExample. */
  lemma SplitSnoc(ps: seq<Point>, pt: Point)
    ensures Split(ps + [pt]) ==
              if Inside(pt) then Boundary(Split(ps).rs + [pt.r], Split(ps).zs + [pt.z], Split(ps).rejected)
              else Boundary(Split(ps).rs, Split(ps).zs, Split(ps).rejected + [Rejected(2 * |ps|, pt)])
  {
  }

  /** Tokens 1, 2, 3, 99, 5, 6: only (1, 2) is kept; (3, 99) is reported at
      index 2 and (5, 6), whose |Z| = 6 also exceeds the limit, at index 4. */
  lemma SplitExample()
    ensures Split(Pairs([1.0, 2.0, 3.0, 99.0, 5.0, 6.0]))
            == Boundary([1.0], [2.0], [Rejected(2, Point(3.0, 99.0)), Rejected(4, Point(5.0, 6.0))])
  {
    var a, c, d := Point(1.0, 2.0), Point(3.0, 99.0), Point(5.0, 6.0);
    var p := [1.0, 2.0, 3.0, 99.0, 5.0, 6.0];
    assert Pairs(p) == [a, c, d] by {
      assert Pairs(p)[0] == a && Pairs(p)[1] == c && Pairs(p)[2] == d;
    }
    assert Split([a]) == Boundary([1.0], [2.0], []) by {
      SplitSnoc([], a);
      assert [] + [a] == [a];
    }
    assert Split([a, c]) == Boundary([1.0], [2.0], [Rejected(2, c)]) by {
      SplitSnoc([a], c);
      assert [a] + [c] == [a, c];
    }
    assert Split([a, c, d]) == Boundary([1.0], [2.0], [Rejected(2, c), Rejected(4, d)]) by {
      SplitSnoc([a, c], d);
      assert [a, c] + [d] == [a, c, d];
      assert !Inside(d);
      assert [Rejected(2, c)] + [Rejected(4, d)] == [Rejected(2, c), Rejected(4, d)];
    }
  }

  /** A file whose header is followed by that one data line. */
  lemma ExtractExample(header: seq<string>)
    requires |header| == TokenScanner.DataOffset
    ensures ExtractFromLines(header + [TokenScanner.Join(TokenScanner.SixTokens())])
            == Boundary([1.0], [2.0], [Rejected(2, Point(3.0, 99.0)), Rejected(4, Point(5.0, 6.0))])
  {
    var line := TokenScanner.Join(TokenScanner.SixTokens());
    assert TokenScanner.ScanFrom(header + [line], TokenScanner.DataOffset)
           == [1.0, 2.0, 3.0, 99.0, 5.0, 6.0] by {
      TokenScanner.HeaderSkipped(header, [line]);
      TokenScanner.SixTokenLine();
      assert [line][1..] == [];
      assert TokenScanner.ScanLines([line]) == TokenScanner.LineValues(line) + [];
    }
    SplitExample();
  }

  // ---------------------------------------------------------------------
  // Writing the outline into the equilibrium document
  // ---------------------------------------------------------------------

  /** A JSON document flattened to the paths of its values. */
  datatype Json = Reals(values: seq<real>) | Other(text: string)

  type Path = seq<string>

  const ZPath: Path := ["equilibrium", "time_slice", "0", "boundary", "outline", "z"]
  const RPath: Path := ["equilibrium", "time_slice", "0", "boundary", "outline", "r"]

  /** Sets `outline.z` and then `outline.r`; nothing else in the document
      changes. */
  function WriteOutline(doc: map<Path, Json>, b: Boundary): (out: map<Path, Json>)
    ensures out.Keys == doc.Keys + {ZPath, RPath}
    ensures ZPath in out && out[ZPath] == Reals(b.zs)
    ensures RPath in out && out[RPath] == Reals(b.rs)
    ensures forall q :: q in doc && q != ZPath && q != RPath ==> out[q] == doc[q]
  {
    doc[ZPath := Reals(b.zs)][RPath := Reals(b.rs)]
  }
}
