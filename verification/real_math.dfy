/** Real-number toolkit shared by the geometry and plotting models.

    Floating-point values are modelled as exact reals. The transcendental
    constants and functions the source takes from numpy (pi, sqrt, sin, cos,
    arcsin) and the permeability constant mu_0 are not computed here: they are
    carried by a `Maths` value, and each property states, as a precondition,
    exactly the law about them that it relies on. */
module RealMath {

  /** Uninterpreted transcendental environment. */
  datatype Maths = Maths(
    pi: real,
    mu0: real,
    sqrt: real -> real,
    sin: real -> real,
    cos: real -> real,
    arcsin: real -> real)

  /** pi is a positive number. */
  ghost predicate PiPositive(m: Maths) {
    m.pi > 0.0
  }

  /** sqrt returns the non-negative square root of a non-negative argument. */
  ghost predicate SqrtLaw(m: Maths) {
    forall x :: 0.0 <= x ==> 0.0 <= m.sqrt(x) && m.sqrt(x) * m.sqrt(x) == x
  }

  /** sin and cos take values in [-1, 1]. */
  ghost predicate TrigBounded(m: Maths) {
    && (forall x :: -1.0 <= m.sin(x) <= 1.0)
    && (forall x :: -1.0 <= m.cos(x) <= 1.0)
  }

  function Abs(x: real): real {
    if x < 0.0 then -x else x
  }

  function Min(x: real, y: real): real {
    if x <= y then x else y
  }

  function Max(x: real, y: real): real {
    if x <= y then y else x
  }

  /** The product x y, with the sign laws the proofs below rely on. */
  function Mul(x: real, y: real): (p: real)
    ensures x != 0.0 && y != 0.0 ==> p != 0.0
    ensures x > 0.0 && y > 0.0 ==> p > 0.0
    ensures x < 0.0 && y < 0.0 ==> p > 0.0
    ensures (x >= 0.0 && y >= 0.0) || (x <= 0.0 && y <= 0.0) ==> p >= 0.0
  {
    x * y
  }

  /** `x ** 2`. */
  function Square(x: real): real {
    Mul(x, x)
  }

  /** A square is non-negative, and positive unless x is zero. */
  lemma SquareSign(x: real)
    ensures Square(x) >= 0.0
    ensures x != 0.0 ==> Square(x) > 0.0
  {
  }

  /** (a r)^2 = a^2 r^2. */
  lemma SquareOfProduct(a: real, r: real)
    ensures Square(a * r) == Square(a) * Square(r)
  {
  }

  /** (a / e)^2 = a^2 / e^2. */
  lemma SquareOfQuotient(a: real, e: real)
    requires e != 0.0
    ensures Square(a / e) == Square(a) / Square(e)
  {
  }

  /** A common non-zero factor cancels from a quotient. */
  lemma CancelFactor(x: real, y: real, k: real)
    requires y != 0.0 && k != 0.0
    ensures (x * k) / (y * k) == x / y
  {
  }

  /** x (1 - c) = x - x c and x (1 + c) = x + x c. */
  lemma Distribute(x: real, c: real)
    ensures x * (1.0 - c) == x - x * c
    ensures x * (1.0 + c) == x + x * c
  {
  }

  /** Sign laws of a product, one case each. */
  lemma ProductNonNegative(x: real, y: real)
    requires x >= 0.0 && y >= 0.0
    ensures x * y >= 0.0
  {
  }

  lemma ProductNonPositive(x: real, y: real)
    requires x <= 0.0 && y >= 0.0
    ensures x * y <= 0.0
  {
  }

  lemma PositiveProduct(x: real, y: real)
    requires x > 0.0 && y > 0.0
    ensures x * y > 0.0
  {
  }

  /** Squaring is strictly monotone on the non-negative reals. */
  lemma SquareStrict(x: real, y: real)
    requires 0.0 <= x < y
    ensures x * x < y * y
  {
    var d := y - x;
    assert y * y == x * x + 2.0 * x * d + d * d;
    assert x * d >= 0.0;
    assert d * d > 0.0;
  }

  /** sqrt undoes squaring: sqrt(x^2) = |x|. */
  lemma SqrtOfSquare(m: Maths, x: real)
    requires SqrtLaw(m)
    ensures m.sqrt(Square(x)) == Abs(x)
  {
    var a := Abs(x);
    assert Square(x) == a * a;
    var s := m.sqrt(a * a);
    assert 0.0 <= s && s * s == a * a;
    if s < a {
      SquareStrict(s, a);
    } else if s > a {
      SquareStrict(a, s);
    }
  }

  /** numpy.clip of a scalar to [lo, hi]. */
  function Clip(x: real, lo: real, hi: real): (c: real)
    requires lo <= hi
    ensures lo <= c <= hi
    ensures lo <= x <= hi ==> c == x
    ensures x < lo ==> c == lo
    ensures hi < x ==> c == hi
  {
    Min(Max(x, lo), hi)
  }

  /** Clipping twice is clipping once, and clipping preserves order. */
  lemma ClipIdempotentMonotone(x: real, y: real, lo: real, hi: real)
    requires lo <= hi
    ensures Clip(Clip(x, lo, hi), lo, hi) == Clip(x, lo, hi)
    ensures x <= y ==> Clip(x, lo, hi) <= Clip(y, lo, hi)
  {
  }

  /** numpy.linspace(start, stop, num) with the endpoint included: `num`
      evenly spaced samples, sample j being j * step + start with
      step = (stop - start) / (num - 1). */
  function Linspace(start: real, stop: real, num: nat): (xs: seq<real>)
    ensures |xs| == num
  {
    seq(num, j requires 0 <= j < num =>
      if num == 1 then start else Sample(start, LinspaceStep(start, stop, num), j))
  }

  /** The spacing of a grid of `num` samples from start to stop. */
  function LinspaceStep(start: real, stop: real, num: nat): real
    requires num >= 2
  {
    (stop - start) / ((num - 1) as real)
  }

  /** Sample j of a grid with the given start and step. */
  function Sample(start: real, step: real, j: nat): real {
    (j as real) * step + start
  }

  /** d (x / d) = x for non-zero d. */
  lemma MulDivExact(d: real, x: real)
    requires d != 0.0
    ensures d * (x / d) == x
  {
  }

  /** (k - j) step >= 0 gives j step <= k step. */
  lemma StepMonotone(step: real, j: real, k: real)
    requires 0.0 <= step && j <= k
    ensures j * step <= k * step
  {
    assert (k - j) * step >= 0.0;
  }

  /** Later samples of a grid with a non-negative step are no smaller. */
  lemma SampleMonotone(start: real, step: real, j: nat, k: nat)
    requires 0.0 <= step && j <= k
    ensures Sample(start, step, j) <= Sample(start, step, k)
  {
    StepMonotone(step, j as real, k as real);
  }

  /** The sample grid starts at `start`, ends exactly at `stop` and has
      constant spacing. */
  lemma LinspaceShape(start: real, stop: real, num: nat)
    requires num >= 2
    ensures Linspace(start, stop, num)[0] == start
    ensures Linspace(start, stop, num)[num - 1] == stop
    ensures forall j :: 0 <= j < num - 1 ==>
      Linspace(start, stop, num)[j + 1] - Linspace(start, stop, num)[j]
        == (stop - start) / ((num - 1) as real)
  {
    var step := LinspaceStep(start, stop, num);
    MulDivExact((num - 1) as real, stop - start);
    assert Sample(start, step, num - 1) == stop;
  }

  /** For start <= stop the step is non-negative. */
  lemma StepNonNegative(start: real, stop: real, num: nat)
    requires num >= 2 && start <= stop
    ensures LinspaceStep(start, stop, num) >= 0.0
  {
  }

  /** For start <= stop the samples increase and stay within [start, stop]. */
  lemma LinspaceOrdered(start: real, stop: real, num: nat)
    requires num >= 2 && start <= stop
    ensures forall j :: 0 <= j < num ==> start <= Linspace(start, stop, num)[j] <= stop
    ensures forall j, k :: 0 <= j <= k < num ==>
      Linspace(start, stop, num)[j] <= Linspace(start, stop, num)[k]
  {
    var xs := Linspace(start, stop, num);
    var step := LinspaceStep(start, stop, num);
    StepNonNegative(start, stop, num);
    LinspaceShape(start, stop, num);
    forall j, k | 0 <= j <= k < num
      ensures xs[j] <= xs[k]
    {
      SampleMonotone(start, step, j, k);
    }
    forall j | 0 <= j < num
      ensures start <= xs[j] <= stop
    {
      SampleMonotone(start, step, 0, j);
      SampleMonotone(start, step, j, num - 1);
    }
  }
}
