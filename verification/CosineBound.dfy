/** Cosine similarity over the reals. */
module CosineBound {

  /** The sum over `zip(a, b)`: the longer vector's rest is ignored. */
  function Dot(a: seq<real>, b: seq<real>): real {
    if a == [] || b == [] then 0.0 else a[0] * b[0] + Dot(a[1..], b[1..])
  }

  function SumOfSquares(a: seq<real>): (n: real)
    ensures n >= 0.0
  {
    if a == [] then 0.0 else
      SquareNonNegative(a[0]);
      a[0] * a[0] + SumOfSquares(a[1..])
  }

  /** What is used of `math.sqrt`. */
  ghost predicate IsRoot(root: real -> real) {
    forall x :: x >= 0.0 ==> root(x) >= 0.0 && root(x) * root(x) == x
  }

  /** The product divided by both norms, or 0 if a norm is. */
  function Normalized(d: real, na: real, nb: real): real {
    if na == 0.0 || nb == 0.0 then 0.0
    else
      NonZeroProduct(na, nb);
      d / (na * nb)
  }

  function Cosine(root: real -> real, a: seq<real>, b: seq<real>): real {
    Normalized(Dot(a, b), root(SumOfSquares(a)), root(SumOfSquares(b)))
  }

  lemma SquareNonNegative(x: real)
    ensures x * x >= 0.0
  {
    if x < 0.0 { assert (-x) * (-x) >= 0.0; }
  }

  lemma NonZeroProduct(x: real, y: real)
    requires x != 0.0 && y != 0.0
    ensures x * y != 0.0
  {
  }

  lemma SquareGrows(s: real, t: real)
    requires 0.0 <= s < t
    ensures s * s < t * t
  {
    assert t * (t - s) > 0.0 && s * (t - s) >= 0.0;
  }

  lemma SquareOrder(t: real, s: real)
    requires s >= 0.0 && t * t <= s * s
    ensures -s <= t <= s
  {
    if t > s {
      SquareGrows(s, t);
    } else if t < -s {
      SquareGrows(s, -t);
    }
  }

  lemma ProductOrder(p: real, a: real, b: real)
    requires p >= 0.0 && a <= b
    ensures p * a <= p * b
  {
    assert p * (b - a) >= 0.0;
  }

  /** The mixed terms: twice the product of two numbers is at most the sum of their squares. */
  lemma MixedTerms(x: real, y: real, d: real, a: real, b: real)
    requires a >= 0.0 && b >= 0.0 && d * d <= a * b
    ensures 2.0 * (x * y * d) <= x * x * b + y * y * a
  {
    var u, v, t := x * x * b, y * y * a, x * y * d;
    SquareNonNegative(x);
    SquareNonNegative(y);
    SquareNonNegative(x * y);
    SquareNonNegative(u - v);
    ProductOrder((x * y) * (x * y), d * d, a * b);
    assert t * t == (x * y) * (x * y) * (d * d);
    assert u * v == (x * y) * (x * y) * (a * b);
    assert (u + v) * (u + v) - 4.0 * (u * v) == (u - v) * (u - v);
    assert (2.0 * t) * (2.0 * t) == 4.0 * (t * t);
    assert u >= 0.0 && v >= 0.0;
    SquareOrder(2.0 * t, u + v);
  }

  /** Cauchy-Schwarz, for vectors of any lengths. */
  lemma {:induction false} CauchySchwarz(a: seq<real>, b: seq<real>)
    ensures Dot(a, b) * Dot(a, b) <= SumOfSquares(a) * SumOfSquares(b)
  {
    if a == [] || b == [] {
      assert SumOfSquares(a) * SumOfSquares(b) >= 0.0;
    } else {
      CauchySchwarz(a[1..], b[1..]);
      hide IsRoot;
      CauchyStep(a[0], b[0], Dot(a[1..], b[1..]), SumOfSquares(a[1..]), SumOfSquares(b[1..]));
    }
  }

  lemma CauchyStep(x: real, y: real, d: real, a: real, b: real)
    requires a >= 0.0 && b >= 0.0 && d * d <= a * b
    ensures (x * y + d) * (x * y + d) <= (x * x + a) * (y * y + b)
  {
    MixedTerms(x, y, d, a, b);
    assert (x * y + d) * (x * y + d) == (x * y) * (x * y) + 2.0 * (x * y * d) + d * d;
    assert (x * x + a) * (y * y + b) == (x * y) * (x * y) + x * x * b + y * y * a + a * b;
  }

  lemma SquareOfProduct(x: real, y: real)
    ensures (x * y) * (x * y) == (x * x) * (y * y)
  {
  }

  lemma QuotientInUnit(d: real, p: real)
    requires p > 0.0 && -p <= d <= p
    ensures -1.0 <= d / p <= 1.0
  {
    var q := d / p;
    assert q * p == d;
    assert q > 1.0 ==> (q - 1.0) * p > 0.0;
    assert q < -1.0 ==> (-1.0 - q) * p > 0.0;
  }

  lemma NormalizedInUnit(d: real, na: real, nb: real, a: real, b: real)
    requires na >= 0.0 && nb >= 0.0 && na * na == a && nb * nb == b && d * d <= a * b
    ensures -1.0 <= Normalized(d, na, nb) <= 1.0
  {
    if na != 0.0 && nb != 0.0 {
      SquareOfProduct(na, nb);
      SquareOrder(d, na * nb);
      NonZeroProduct(na, nb);
      QuotientInUnit(d, na * nb);
    }
  }

  /** One more pair of coordinates adds its product; what the longer vector has beyond the other
      does not count. */
  lemma {:induction false} DotMeans(a: seq<real>, b: seq<real>, x: real, y: real, rest: seq<real>)
    requires |a| == |b|
    ensures Dot(a + [x], b + [y]) == Dot(a, b) + x * y
    ensures Dot(a + rest, b) == Dot(b, a + rest) == Dot(a, b)
    decreases |a|
  {
    if a == [] {
      assert a + [x] == [x] && b + [y] == [y];
    } else {
      assert (a + [x])[1..] == a[1..] + [x] && (b + [y])[1..] == b[1..] + [y];
      assert (a + rest)[1..] == a[1..] + rest;
      DotMeans(a[1..], b[1..], x, y, rest);
    }
  }

  lemma {:induction false} DotOfSelf(a: seq<real>)
    ensures Dot(a, a) == SumOfSquares(a)
  {
    if a != [] { DotOfSelf(a[1..]); }
  }

  /** The similarity times both norms is the product of the vectors, and 0 if a norm is 0; a vector
      is fully similar to itself. */
  lemma CosineMeans(root: real -> real, a: seq<real>, b: seq<real>)
    requires IsRoot(root)
    ensures var na, nb := root(SumOfSquares(a)), root(SumOfSquares(b));
      && Cosine(root, a, b) * (na * nb) == (if na == 0.0 || nb == 0.0 then 0.0 else Dot(a, b))
      && (na == 0.0 || nb == 0.0 ==> Cosine(root, a, b) == 0.0)
    ensures SumOfSquares(a) > 0.0 ==> Cosine(root, a, a) == 1.0
  {
    var na, nb := root(SumOfSquares(a)), root(SumOfSquares(b));
    hide Dot, SumOfSquares, Normalized;
    NormalizedTimes(Dot(a, b), na, nb);
    if SumOfSquares(a) > 0.0 {
      DotOfSelf(a);
      NormalizedSelf(SumOfSquares(a), na);
    }
  }

  lemma NormalizedTimes(d: real, na: real, nb: real)
    ensures na == 0.0 || nb == 0.0 ==> Normalized(d, na, nb) == 0.0
    ensures na != 0.0 && nb != 0.0 ==> Normalized(d, na, nb) * (na * nb) == d
  {
    if na != 0.0 && nb != 0.0 {
      NonZeroProduct(na, nb);
      var q := d / (na * nb);
      assert q * (na * nb) == d;
    }
  }

  lemma NormalizedSelf(d: real, n: real)
    requires n * n == d && d > 0.0
    ensures Normalized(d, n, n) == 1.0
  {
    assert d / d == 1.0;
  }

  /** Cosine similarity lies between -1 and 1, whatever the lengths. */
  lemma CosineInUnit(root: real -> real, a: seq<real>, b: seq<real>)
    requires IsRoot(root)
    ensures -1.0 <= Cosine(root, a, b) <= 1.0
  {
    CauchySchwarz(a, b);
    NormalizedInUnit(Dot(a, b), root(SumOfSquares(a)), root(SumOfSquares(b)), SumOfSquares(a), SumOfSquares(b));
  }
}
