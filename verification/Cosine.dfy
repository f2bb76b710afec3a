/**
 Cosine similarity of vectors, in exact real arithmetic.  A norm is any non-negative root of the
 sum of squares, so nothing here depends on how the root is computed.
 */
module Cosine {
  type Vector = seq<real>

  function Dot(a: Vector, b: Vector): real
    requires |a| == |b|
  {
    if a == [] then 0.0 else a[0] * b[0] + Dot(a[1..], b[1..])
  }

  predicate IsNorm(v: Vector, n: real) {
    n >= 0.0 && n * n == Dot(v, v)
  }

  const UNSCORED := -2.0

  function Similarity(a: Vector, b: Vector, normA: real, normB: real): real
    requires |a| == |b|
  {
    if a == [] || normA <= 0.0 || normB <= 0.0 then UNSCORED
    else
      ProductPositive(normA, normB);
      Dot(a, b) / (normA * normB)
  }

  lemma ProductPositive(x: real, y: real)
    requires x > 0.0 && y > 0.0
    ensures x * y > 0.0
  {
  }

  /** The running sum of the C loop is the dot product. */
  method DotLoop(a: Vector, b: Vector) returns (sum: real)
    requires |a| == |b|
    ensures sum == Dot(a, b)
  {
    sum := 0.0;
    for i := 0 to |a|
      invariant sum + Dot(a[i..], b[i..]) == Dot(a, b)
    {
      sum := sum + a[i] * b[i];
    }
  }

  lemma {:induction false} DotSelf(a: Vector)
    ensures Dot(a, a) >= 0.0
  {
    if a != [] {
      DotSelf(a[1..]);
    }
  }

  lemma {:induction false} DotSymmetric(a: Vector, b: Vector)
    requires |a| == |b|
    ensures Dot(a, b) == Dot(b, a)
  {
    if a != [] {
      DotSymmetric(a[1..], b[1..]);
    }
  }

  lemma BiggerSquare(u: real, v: real)
    requires 0.0 <= u < v
    ensures u * u < v * v
  {
    assert v * v - u * u == (v - u) * (v + u);
    ProductPositive(v - u, v + u);
  }

  lemma SquareOrder(u: real, v: real)
    requires u >= 0.0 && v * v <= u * u
    ensures -u <= v <= u
  {
    if v > u {
      BiggerSquare(u, v);
    } else if -v > u {
      BiggerSquare(u, -v);
    }
  }

  /** The mixed term of one more coordinate is at most the mean of the other two. */
  lemma MixedTerm(p: real, q: real, r: real, x: real, y: real)
    requires p >= 0.0 && q >= 0.0 && r * r <= p * q
    ensures 2.0 * (r * (x * y)) <= p * (y * y) + q * (x * x)
  {
    var m, a, b := x * y, p * (y * y), q * (x * x);
    assert a * b == (p * q) * (m * m);
    Scale(r * r, p * q, m * m);
    Spread(a, b);
    var v := 2.0 * (r * m);
    assert v * v == 4.0 * ((r * r) * (m * m));
    Scale(0.0, p, y * y);
    Scale(0.0, q, x * x);
    SquareOrder(a + b, v);
  }

  function Times(x: real, y: real): real {
    x * y
  }

  /** The Cauchy-Schwarz bound for the dot product r of vectors with squared norms p and q. */
  predicate Bounded(p: real, q: real, r: real) {
    r * r <= p * q
  }

  /** One more coordinate x, y keeps the bound. */
  lemma CauchyStep(p: real, q: real, r: real, x: real, y: real)
    requires p >= 0.0 && q >= 0.0 && Bounded(p, q, r)
    ensures Bounded(Times(x, x) + p, Times(y, y) + q, Times(x, y) + r)
  {
    MixedTerm(p, q, r, x, y);
    var m := x * y;
    assert (m + r) * (m + r) == m * m + 2.0 * (r * m) + r * r;
    assert (x * x + p) * (y * y + q) == m * m + (p * (y * y) + q * (x * x)) + p * q by {
      assert (x * x) * (y * y) == m * m;
    }
  }

  lemma DotUnfold(a: Vector, b: Vector)
    requires |a| == |b| && a != []
    ensures Dot(a, b) == Times(a[0], b[0]) + Dot(a[1..], b[1..])
  {
  }

  lemma Spread(a: real, b: real)
    ensures 4.0 * (a * b) <= (a + b) * (a + b)
  {
    assert (a + b) * (a + b) - 4.0 * (a * b) == (a - b) * (a - b);
  }

  lemma Scale(a: real, b: real, s: real)
    requires a <= b && s >= 0.0
    ensures a * s <= b * s
  {
  }

  lemma {:induction false} CauchySchwarz(a: Vector, b: Vector)
    requires |a| == |b|
    ensures Bounded(Dot(a, a), Dot(b, b), Dot(a, b))
  {
    if a != [] {
      hide Dot, Times, Bounded;
      CauchySchwarz(a[1..], b[1..]);
      DotSelf(a[1..]);
      DotSelf(b[1..]);
      DotUnfold(a, a);
      DotUnfold(b, b);
      DotUnfold(a, b);
      CauchyStep(Dot(a[1..], a[1..]), Dot(b[1..], b[1..]), Dot(a[1..], b[1..]), a[0], b[0]);
    }
  }

  /** From the bound on squares to the bound on the dot product itself. */
  lemma RootBound(p: real, q: real, d: real, na: real, nb: real)
    requires Bounded(p, q, d) && na > 0.0 && nb > 0.0 && na * na == p && nb * nb == q
    ensures na * nb > 0.0 && -(na * nb) <= d <= na * nb
  {
    var n := na * nb;
    assert n * n == (na * na) * (nb * nb);
    ProductPositive(na, nb);
    SquareOrder(n, d);
  }

  /** Every similarity of two vectors of positive norm lies in [-1, 1]; it is 1 for a vector with itself. */
  lemma SimilarityBounded(a: Vector, b: Vector, normA: real, normB: real)
    requires |a| == |b| && IsNorm(a, normA) && IsNorm(b, normB) && normA > 0.0 && normB > 0.0
    ensures -1.0 <= Similarity(a, b, normA, normB) <= 1.0
    ensures Similarity(a, b, normA, normB) == Similarity(b, a, normB, normA)
    ensures a == b ==> Similarity(a, b, normA, normB) == 1.0
  {
    NormOfEmpty(a, normA);
    hide Dot, Bounded;
    CauchySchwarz(a, b);
    DotSymmetric(a, b);
    var d, n := Dot(a, b), Times(normA, normB);
    RootBound(Dot(a, a), Dot(b, b), d, normA, normB);
    Quotient(d, n);
    assert Times(normB, normA) == n;
    if a == b {
      SameNorm(normA, normB);
    }
  }

  lemma NormOfEmpty(a: Vector, n: real)
    requires IsNorm(a, n) && n > 0.0
    ensures a != []
  {
    if a == [] {
      assert Dot(a, a) == 0.0;
      SquareOrder(0.0, n);
    }
  }

  lemma SameNorm(x: real, y: real)
    requires x >= 0.0 && y >= 0.0 && x * x == y * y
    ensures x == y
  {
    SquareOrder(x, y);
    SquareOrder(y, x);
  }

  lemma Quotient(d: real, n: real)
    requires n > 0.0 && -n <= d <= n
    ensures -1.0 <= d / n <= 1.0
  {
    var t := d / n;
    assert t * n == d;
    if t > 1.0 {
      Stretch(t, 1.0, n);
    } else if t < -1.0 {
      Stretch(-1.0, t, n);
    }
  }

  lemma Stretch(a: real, b: real, n: real)
    requires a > b && n > 0.0
    ensures a * n > b * n
  {
  }

  // ---------- What a similarity means ----------

  /** The squared distance of the two vectors after scaling each to length 1. */
  function Distance(a: Vector, b: Vector, normA: real, normB: real): real
    requires |a| == |b| && normA > 0.0 && normB > 0.0
  {
    if a == [] then 0.0
    else
      (a[0] / normA - b[0] / normB) * (a[0] / normA - b[0] / normB) + Distance(a[1..], b[1..], normA, normB)
  }

  lemma OverNorm(x: real, n: real)
    requires n > 0.0
    ensures x / n == x * (1.0 / n)
  {
    var q, u := x / n, 1.0 / n;
    assert q * n == x && u * n == 1.0;
    assert (q - x * u) * n == 0.0 by {
      assert x * u * n == x * (u * n);
    }
    if q > x * u {
      ProductPositive(q - x * u, n);
    } else if q < x * u {
      ProductPositive(x * u - q, n);
    }
  }

  /** The square of one coordinate's difference. */
  lemma Coordinate(x: real, y: real, u: real, v: real)
    ensures (x * u - y * v) * (x * u - y * v) == x * x * (u * u) - 2.0 * (x * y * (u * v)) + y * y * (v * v)
  {
    var p, q := x * u, y * v;
    assert (p - q) * (p - q) == p * p - 2.0 * (p * q) + q * q;
    assert p * p == x * x * (u * u) && q * q == y * y * (v * v) && p * q == x * y * (u * v);
  }

  /** The expanded square of a difference, with sums of squares p, q and of products r. */
  function Quad(p: real, r: real, q: real, u: real, v: real): real {
    p * (u * u) - 2.0 * (r * (u * v)) + q * (v * v)
  }

  lemma QuadAdds(p: real, r: real, q: real, x: real, y: real, z: real, u: real, v: real)
    ensures Quad(p, r, q, u, v) + Quad(x, y, z, u, v) == Quad(p + x, r + y, q + z, u, v)
  {
    var uu, uv, vv := u * u, u * v, v * v;
    assert (p + x) * uu == p * uu + x * uu && (r + y) * uv == r * uv + y * uv && (q + z) * vv == q * vv + z * vv;
  }

  lemma {:induction false} DistanceExpands(a: Vector, b: Vector, normA: real, normB: real)
    requires |a| == |b| && normA > 0.0 && normB > 0.0
    ensures Distance(a, b, normA, normB) == Quad(Dot(a, a), Dot(a, b), Dot(b, b), 1.0 / normA, 1.0 / normB)
    decreases |a|
  {
    if a != [] {
      hide Dot, Distance, Times, Quad;
      var u, v := 1.0 / normA, 1.0 / normB;
      var x, y, s, t := a[0], b[0], a[1..], b[1..];
      DistanceExpands(s, t, normA, normB);
      DistanceNext(a, b, normA, normB);
      DotUnfold(a, a);
      DotUnfold(a, b);
      DotUnfold(b, b);
      QuadAdds(Times(x, x), Times(x, y), Times(y, y), Dot(s, s), Dot(s, t), Dot(t, t), u, v);
    }
  }

  lemma DistanceNext(a: Vector, b: Vector, normA: real, normB: real)
    requires |a| == |b| && a != [] && normA > 0.0 && normB > 0.0
    ensures var e := Quad(Times(a[0], a[0]), Times(a[0], b[0]), Times(b[0], b[0]), 1.0 / normA, 1.0 / normB);
            Distance(a, b, normA, normB) == e + Distance(a[1..], b[1..], normA, normB)
  {
    OverNorm(a[0], normA);
    OverNorm(b[0], normB);
    Coordinate(a[0], b[0], 1.0 / normA, 1.0 / normB);
  }

  /** The inverse of a norm, squared, undoes the sum of squares. */
  lemma InverseSquare(n: real, d: real)
    requires n > 0.0 && n * n == d
    ensures d * ((1.0 / n) * (1.0 / n)) == 1.0
  {
    var u := 1.0 / n;
    assert n * u == 1.0;
    assert d * (u * u) == (n * u) * (n * u);
  }

  lemma InverseProduct(d: real, m: real, n: real)
    requires m > 0.0 && n > 0.0
    ensures m * n > 0.0 && d / (m * n) == d * ((1.0 / m) * (1.0 / n))
  {
    ProductPositive(m, n);
    var u, v, w := 1.0 / m, 1.0 / n, 1.0 / (m * n);
    assert (u * v) * (m * n) == (u * m) * (v * n) == 1.0;
    OverNorm(u * v * (m * n), m * n);
    OverNorm(d, m * n);
    Cancel(u * v, w, m * n);
  }

  lemma Cancel(x: real, y: real, n: real)
    requires n > 0.0 && x * n == 1.0 && y == 1.0 / n
    ensures x == y
  {
    assert (x - y) * n == 0.0;
    if x > y {
      ProductPositive(x - y, n);
    } else if x < y {
      ProductPositive(y - x, n);
    }
  }

  /** The higher the similarity, the nearer the directions: the squared distance is 2 - 2 * similarity. */
  lemma DistanceLaw(a: Vector, b: Vector, normA: real, normB: real)
    requires |a| == |b| && IsNorm(a, normA) && IsNorm(b, normB) && normA > 0.0 && normB > 0.0
    ensures Distance(a, b, normA, normB) == 2.0 - 2.0 * Similarity(a, b, normA, normB)
  {
    hide Dot, Distance;
    NormOfEmpty(a, normA);
    DistanceExpands(a, b, normA, normB);
    InverseSquare(normA, Dot(a, a));
    InverseSquare(normB, Dot(b, b));
    InverseProduct(Dot(a, b), normA, normB);
    var u, v := 1.0 / normA, 1.0 / normB;
    var d := Dot(a, b) * (u * v);
    assert Similarity(a, b, normA, normB) == d;
    assert Distance(a, b, normA, normB) == 1.0 - 2.0 * d + 1.0;
  }

  lemma {:induction false} DotNone(a: Vector, b: Vector)
    requires |a| == |b| && forall i :: 0 <= i < |a| ==> a[i] * b[i] == 0.0
    ensures Dot(a, b) == 0.0
    decreases |a|
  {
    if a != [] {
      assert a[0] * b[0] == 0.0;
      forall i | 0 <= i < |a| - 1
        ensures a[1..][i] * b[1..][i] == 0.0
      {
        assert a[i + 1] * b[i + 1] == 0.0;
      }
      DotNone(a[1..], b[1..]);
    }
  }

  lemma {:induction false} DotOpposite(a: Vector, b: Vector)
    requires |a| == |b| && forall i :: 0 <= i < |a| ==> b[i] == -a[i]
    ensures Dot(a, b) == -Dot(a, a) && Dot(b, b) == Dot(a, a)
    decreases |a|
  {
    if a != [] {
      DotOpposite(a[1..], b[1..]);
    }
  }

  lemma Ratio(n: real, t: real)
    requires n > 0.0
    ensures (t * n) / n == t
  {
  }

  /** Vectors without a common coordinate score 0, opposite vectors -1. */
  lemma OrthogonalAndOpposite(a: Vector, b: Vector, normA: real, normB: real)
    requires |a| == |b| && IsNorm(a, normA) && IsNorm(b, normB) && normA > 0.0 && normB > 0.0
    ensures (forall i :: 0 <= i < |a| ==> a[i] * b[i] == 0.0) ==> Similarity(a, b, normA, normB) == 0.0
    ensures (forall i :: 0 <= i < |a| ==> b[i] == -a[i]) ==> Similarity(a, b, normA, normB) == -1.0
  {
    NormOfEmpty(a, normA);
    ProductPositive(normA, normB);
    hide Dot;
    var n := normA * normB;
    assert Similarity(a, b, normA, normB) == Dot(a, b) / n;
    if forall i :: 0 <= i < |a| ==> a[i] * b[i] == 0.0 {
      DotNone(a, b);
      Ratio(n, 0.0);
    }
    if forall i :: 0 <= i < |a| ==> b[i] == -a[i] {
      DotOpposite(a, b);
      SameNorm(normA, normB);
      Ratio(n, -1.0);
    }
  }

  /** cosine_similarity, with its loop. */
  method CosineSimilarity(a: Vector, b: Vector, normA: real, normB: real) returns (s: real)
    requires |a| == |b|
    ensures a == [] || normA <= 0.0 || normB <= 0.0 ==> s == -2.0
    ensures IsNorm(a, normA) && IsNorm(b, normB) && normA > 0.0 && normB > 0.0 ==>
            Distance(a, b, normA, normB) == 2.0 - 2.0 * s
    ensures s == Similarity(a, b, normA, normB)
  {
    if |a| == 0 || normA <= 0.0 || normB <= 0.0 {
      if IsNorm(a, normA) && normA > 0.0 {
        NormOfEmpty(a, normA);
      }
      return -2.0;
    }
    var dot := DotLoop(a, b);
    ProductPositive(normA, normB);
    s := dot / (normA * normB);
    if IsNorm(a, normA) && IsNorm(b, normB) {
      hide Dot, Distance;
      DistanceLaw(a, b, normA, normB);
    }
  }
}
