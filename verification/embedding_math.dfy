/**
 * Vector normalisation and the distance-to-similarity conversion used by the
 * face index (src/FaceIndex.cpp). Components are real numbers; the square root
 * is the caller's `sqrt` (the C++ code calls std::sqrt on floats), so every
 * property that depends on it being exact states that as a hypothesis.
 */
module EmbeddingMath {

  type Vector = seq<real>

  /** Sum of squares of the components: the squared Euclidean norm. */
  function SumSq(v: Vector): (r: real)
    ensures r >= 0.0
    ensures v == [] ==> r == 0.0
  {
    if v == [] then 0.0 else SumSq(v[..|v| - 1]) + v[|v| - 1] * v[|v| - 1]
  }

  /** A vector of `n` zeros, what `std::vector<float> out(n)` holds. */
  function Zeros(n: nat): (r: Vector)
    ensures |r| == n
    ensures forall i :: 0 <= i < n ==> r[i] == 0.0
  {
    seq(n, _ => 0.0)
  }

  /**
   * Divides every component by the norm sqrt(SumSq(v)); when that norm is not
   * positive the result is all zeros (the output buffer is left as allocated).
   */
  function Normalize(v: Vector, sqrt: real -> real): (r: Vector)
    ensures |r| == |v|
    ensures sqrt(SumSq(v)) > 0.0 ==>
      forall i :: 0 <= i < |v| ==> r[i] * sqrt(SumSq(v)) == v[i]
    ensures !(sqrt(SumSq(v)) > 0.0) ==> r == Zeros(|v|)
  {
    var norm := sqrt(SumSq(v));
    if norm > 0.0 then seq(|v|, i requires 0 <= i < |v| => v[i] / norm) else Zeros(|v|)
  }

  /** When every square of `w` times c is the matching square of `v`, so is the sum of squares. */
  lemma {:induction false} SumSqScaled(w: Vector, v: Vector, c: real)
    requires |w| == |v|
    requires forall i :: 0 <= i < |v| ==> (w[i] * w[i]) * c == v[i] * v[i]
    ensures SumSq(w) * c == SumSq(v)
    decreases |v|
  {
    if v != [] {
      var m := |v|;
      SumSqScaled(w[..m - 1], v[..m - 1], c);
      SumSqLast(w);
      SumSqLast(v);
      Distribute(SumSq(w[..m - 1]), w[m - 1] * w[m - 1], c);
    }
  }

  lemma {:induction false} SumSqLast(v: Vector)
    requires v != []
    ensures SumSq(v) == SumSq(v[..|v| - 1]) + v[|v| - 1] * v[|v| - 1]
  {
  }

  lemma SquareScale(x: real, n: real, y: real, c: real)
    requires x * n == y && n * n == c
    ensures (x * x) * c == y * y
  {
    assert (x * x) * (n * n) == (x * n) * (x * n);
  }

  lemma Distribute(a: real, b: real, c: real)
    ensures (a + b) * c == a * c + b * c
  {
  }

  /** The only factor that leaves a positive number unchanged is 1. */
  lemma CancelPositive(t: real, s: real, u: real)
    requires s > 0.0 && t * s == u && u == s
    ensures t == 1.0
  {
    assert (t - 1.0) * s == 0.0;
  }

  /** `sqrt` is exact at `x`: it returns the non-negative square root. */
  predicate ExactRootAt(sqrt: real -> real, x: real) {
    sqrt(x) >= 0.0 && sqrt(x) * sqrt(x) == x
  }

  /** Cosine similarity recovered from the distance the backend reports. */
  function Similarity(d: real): (r: real)
    ensures r <= 1.0
  {
    1.0 - (d * d) / 2.0
  }

  lemma SquareMonotone(d1: real, d2: real)
    requires 0.0 <= d1 <= d2
    ensures d1 * d1 <= d2 * d2
  {
  }

  /** A nearer neighbour is never less similar. */
  lemma SimilarityAntitone(d1: real, d2: real)
    requires 0.0 <= d1 <= d2
    ensures Similarity(d1) >= Similarity(d2)
  {
    SquareMonotone(d1, d2);
  }

  lemma ZeroSquare(s: real)
    requires s == 0.0
    ensures s * s == 0.0
  {
  }

  /**
   * A vector whose sum of squares is 0 normalises to zeros, given that the
   * root of 0 is 0 (as IEEE sqrt guarantees).
   */
  lemma NormalizeZero(v: Vector, sqrt: real -> real)
    requires SumSq(v) == 0.0
    requires sqrt(0.0) == 0.0
    ensures Normalize(v, sqrt) == Zeros(|v|)
  {
  }

  /**
   * The exact root of a positive sum of squares is positive, so such a vector
   * takes the dividing branch of Normalize.
   */
  lemma RootPositive(v: Vector, sqrt: real -> real)
    requires SumSq(v) > 0.0
    requires ExactRootAt(sqrt, SumSq(v))
    ensures sqrt(SumSq(v)) > 0.0
  {
    if sqrt(SumSq(v)) == 0.0 {
      ZeroSquare(sqrt(SumSq(v)));
    }
  }

  /**
   * With an exact square root, a vector with a non-zero component normalises
   * to unit length: its sum of squares becomes 1.
   */
  lemma {:induction false} NormalizeUnit(v: Vector, sqrt: real -> real)
    requires SumSq(v) > 0.0
    requires ExactRootAt(sqrt, SumSq(v))
    ensures SumSq(Normalize(v, sqrt)) == 1.0
  {
    NormalizeSquares(v, sqrt);
    UnitFromSquares(Normalize(v, sqrt), v, SumSq(v));
  }

  /** With an exact root, each normalised component squared, times the sum of squares, is the original square. */
  lemma {:induction false} NormalizeSquares(v: Vector, sqrt: real -> real)
    requires SumSq(v) > 0.0
    requires ExactRootAt(sqrt, SumSq(v))
    ensures forall i :: 0 <= i < |v| ==> (Normalize(v, sqrt)[i] * Normalize(v, sqrt)[i]) * SumSq(v) == v[i] * v[i]
  {
    RootPositive(v, sqrt);
    SquaresFromRoot(Normalize(v, sqrt), v, sqrt, SumSq(v));
  }

  /** A vector whose squares times c = SumSq(v) > 0 are those of `v` has unit sum of squares. */
  lemma {:induction false} UnitFromSquares(w: Vector, v: Vector, c: real)
    requires |w| == |v| && c == SumSq(v) && c > 0.0
    requires forall i :: 0 <= i < |v| ==> (w[i] * w[i]) * c == v[i] * v[i]
    ensures SumSq(w) == 1.0
  {
    SumSqScaled(w, v, c);
    CancelPositive(SumSq(w), c, SumSq(v));
  }

  /** Components scaled by the exact root of c square to the squares scaled by c. */
  lemma {:induction false} SquaresFromRoot(w: Vector, v: Vector, sqrt: real -> real, c: real)
    requires |w| == |v| && ExactRootAt(sqrt, c)
    requires forall i :: 0 <= i < |v| ==> w[i] * sqrt(c) == v[i]
    ensures forall i :: 0 <= i < |v| ==> (w[i] * w[i]) * c == v[i] * v[i]
  {
    forall i | 0 <= i < |v| ensures (w[i] * w[i]) * c == v[i] * v[i] {
      SquareScale(w[i], sqrt(c), v[i], c);
    }
  }
}
