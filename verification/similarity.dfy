/** `EmbeddingManager._cosine_similarity`: `np.dot(a, b) / (norm(a) * norm(b))`.
    Reals stand for floats; the square root is a parameter, so that the lemmas
    can say which of its properties they rely on. */
module Similarity {
  import opened Wrappers
  import opened Strings

  type Vector = seq<real>

  /** A similarity: a number, or NaN when both norms multiply to zero (numpy
      returns `nan` for `0.0 / 0.0`). */
  datatype Score = Real(value: real) | NaN

  /** `score >= threshold` in Python: false for NaN. */
  predicate AtLeast(s: Score, threshold: real)
  {
    s.Real? && s.value >= threshold
  }

  /** `sqrt` is the non-negative square root on non-negative reals; in particular
      it maps zero to zero. */
  ghost predicate IsSqrt(sqrt: real -> real)
  {
    && sqrt(0.0) == 0.0
    && forall x :: 0.0 <= x ==> 0.0 <= sqrt(x) && sqrt(x) * sqrt(x) == x
  }

  function Dot(a: Vector, b: Vector): real
    requires |a| == |b|
  {
    if |a| == 0 then 0.0 else a[0] * b[0] + Dot(a[1..], b[1..])
  }

  lemma {:induction false} DotSymmetric(a: Vector, b: Vector)
    requires |a| == |b|
    ensures Dot(a, b) == Dot(b, a)
  {
    if |a| > 0 {
      DotSymmetric(a[1..], b[1..]);
    }
  }

  /** The zero vector is orthogonal to everything. */
  lemma {:induction false} DotZero(a: Vector, b: Vector)
    requires |a| == |b|
    requires forall i :: 0 <= i < |a| ==> a[i] == 0.0
    ensures Dot(a, b) == 0.0
  {
    if |a| > 0 {
      DotZero(a[1..], b[1..]);
    }
  }

  /** numpy's message when two one-dimensional arrays differ in length. */
  function ShapeError(m: nat, n: nat): string
  {
    var ms := NatToString(m);
    var ns := NatToString(n);
    "shapes (" + ms + ",) and (" + ns + ",) not aligned: " + ms + " (dim 0) != " + ns + " (dim 0)"
  }

  /** `_cosine_similarity(a, b)`. Vectors of different lengths make `np.dot`
      raise. */
  function Cosine(a: Vector, b: Vector, sqrt: real -> real): (r: Result<Score>)
    ensures r.Err? <==> |a| != |b|
    ensures r.Err? ==> r.message == ShapeError(|a|, |b|)
  {
    if |a| != |b| then Err(ShapeError(|a|, |b|))
    else
      var norms := sqrt(Dot(a, a)) * sqrt(Dot(b, b));
      if norms == 0.0 then Ok(NaN) else Ok(Real(Dot(a, b) / norms))
  }

  /** Cosine similarity does not depend on the order of its arguments. */
  lemma CosineSymmetric(a: Vector, b: Vector, sqrt: real -> real)
    requires |a| == |b|
    ensures Cosine(a, b, sqrt) == Cosine(b, a, sqrt)
  {
    DotSymmetric(a, b);
  }

  /** A vector with a positive norm is perfectly similar to itself. */
  lemma CosineSelf(a: Vector, sqrt: real -> real)
    requires IsSqrt(sqrt)
    requires Dot(a, a) > 0.0
    ensures Cosine(a, a, sqrt) == Ok(Real(1.0))
  {
    var d := Dot(a, a);
    var n := sqrt(d);
    assert n * n == d;
    DivSelf(d);
    assert Dot(a, a) / (n * n) == d / d;
  }

  lemma DivSelf(x: real)
    requires x != 0.0
    ensures x / x == 1.0
  {
  }

  /** A zero vector has no direction: its similarity to anything of its length
      is NaN, so it passes no threshold. */
  lemma CosineZero(a: Vector, b: Vector, sqrt: real -> real)
    requires IsSqrt(sqrt)
    requires |a| == |b|
    requires forall i :: 0 <= i < |a| ==> a[i] == 0.0
    ensures Cosine(a, b, sqrt) == Ok(NaN)
    ensures Cosine(b, a, sqrt) == Ok(NaN)
  {
    DotZero(a, a);
    CosineSymmetric(a, b, sqrt);
  }
}
