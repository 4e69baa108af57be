/**
 * The similarity metrics and the default batch insert of the vector store
 * interface (vector_store/mod.rs).
 *
 * `f32` arithmetic is modelled by real arithmetic. Square roots are not
 * built into Dafny's reals, so every metric takes the square-root function
 * as a parameter `sqrt`; the lemmas assume only that it is a square root on
 * the non-negative reals (`IsSqrt`).
 */
module Similarity {
  import opened Types

  /** `f32::MAX`, the distance reported for vectors of different lengths. */
  const F32Max: real := 340282346638528859811704183484516925440.0

  /**
   * `sqrt` is the principal square root on the non-negative reals: its value
   * is non-negative and squares back to its argument, and it takes the
   * square of a non-negative number back to that number.
   */
  ghost predicate IsSqrt(sqrt: real -> real) {
    (forall x: real {:trigger sqrt(x)} :: x >= 0.0 ==> sqrt(x) >= 0.0 && sqrt(x) * sqrt(x) == x)
    && (forall y: real {:trigger sqrt(y * y)} :: y >= 0.0 ==> sqrt(y * y) == y)
  }

  /** The sum of the pairwise products. */
  function Dot(a: Embedding, b: Embedding): real
    requires |a| == |b|
  {
    if a == [] then 0.0 else a[0] * b[0] + Dot(a[1..], b[1..])
  }

  /** The sum of the squared components. */
  function SumSquares(a: Embedding): real {
    if a == [] then 0.0 else a[0] * a[0] + SumSquares(a[1..])
  }

  /** The sum of the squared component differences. */
  function SumSqDiff(a: Embedding, b: Embedding): real
    requires |a| == |b|
  {
    if a == [] then 0.0 else (a[0] - b[0]) * (a[0] - b[0]) + SumSqDiff(a[1..], b[1..])
  }

  /** `cosine_similarity`. */
  function Cosine(sqrt: real -> real, a: Embedding, b: Embedding): real {
    if |a| != |b| then 0.0
    else
      var ma := sqrt(SumSquares(a));
      var mb := sqrt(SumSquares(b));
      if ma == 0.0 || mb == 0.0 then 0.0 else Dot(a, b) / (ma * mb)
  }

  /** `euclidean_distance`. */
  function Euclid(sqrt: real -> real, a: Embedding, b: Embedding): real {
    if |a| != |b| then F32Max else sqrt(SumSqDiff(a, b))
  }

  /** Every component of `v` is zero. */
  predicate IsZero(v: Embedding) {
    forall i :: 0 <= i < |v| ==> v[i] == 0.0
  }

  lemma SquareRoots(sqrt: real -> real)
    requires IsSqrt(sqrt)
    ensures sqrt(0.0) == 0.0 && sqrt(1.0) == 1.0
  {
    SqrtOfSquare(sqrt, 0.0);
    SqrtOfSquare(sqrt, 1.0);
  }

  lemma SqrtOfSquare(sqrt: real -> real, y: real)
    requires IsSqrt(sqrt) && y >= 0.0
    ensures sqrt(y * y) == y
  {
  }

  /** A positive real has a positive square root. */
  lemma SqrtPositive(sqrt: real -> real, x: real)
    requires IsSqrt(sqrt) && x > 0.0
    ensures sqrt(x) > 0.0
  {
    assert sqrt(x) * sqrt(x) == x;
  }

  lemma SquareNonNegative(x: real)
    ensures x * x >= 0.0
  {
  }

  /** The squared magnitude is never negative. */
  lemma {:induction false} SumSquaresNonNegative(v: Embedding)
    ensures SumSquares(v) >= 0.0
  {
    if v != [] {
      SumSquaresNonNegative(v[1..]);
      SquareNonNegative(v[0]);
    }
  }

  /** The zero vector has squared magnitude 0. */
  lemma {:induction false} SumSquaresZero(v: Embedding)
    requires IsZero(v)
    ensures SumSquares(v) == 0.0
  {
    if v != [] {
      assert forall i :: 0 <= i < |v[1..]| ==> v[1..][i] == v[i + 1];
      SumSquaresZero(v[1..]);
    }
  }

  lemma {:induction false} DotSelf(v: Embedding)
    ensures Dot(v, v) == SumSquares(v)
  {
    if v != [] {
      DotSelf(v[1..]);
    }
  }

  lemma {:induction false} DotSymmetric(a: Embedding, b: Embedding)
    requires |a| == |b|
    ensures Dot(a, b) == Dot(b, a)
  {
    if a != [] {
      DotSymmetric(a[1..], b[1..]);
    }
  }

  /** Vectors of different lengths have similarity 0. */
  lemma CosineLengthMismatch(sqrt: real -> real, a: Embedding, b: Embedding)
    requires |a| != |b|
    ensures Cosine(sqrt, a, b) == 0.0
  {
  }

  lemma {:induction false} DotZero(a: Embedding, b: Embedding)
    requires |a| == |b| && IsZero(a)
    ensures Dot(a, b) == 0.0
  {
    if a != [] {
      assert a[0] == 0.0;
      assert forall i :: 0 <= i < |a[1..]| ==> a[1..][i] == a[i + 1];
      DotZero(a[1..], b[1..]);
    }
  }

  /** A zero vector has similarity 0 with everything. */
  lemma CosineZero(sqrt: real -> real, a: Embedding, b: Embedding)
    requires IsZero(a) || IsZero(b)
    ensures Cosine(sqrt, a, b) == 0.0
  {
    if |a| == |b| {
      if IsZero(a) {
        DotZero(a, b);
      } else {
        DotZero(b, a);
        DotSymmetric(a, b);
      }
    }
  }

  /**
   * A vector of non-zero magnitude has similarity exactly 1 with itself.
   */
  lemma CosineSelf(sqrt: real -> real, v: Embedding)
    requires IsSqrt(sqrt)
    requires SumSquares(v) > 0.0
    ensures Cosine(sqrt, v, v) == 1.0
  {
    DotSelf(v);
    var m := sqrt(SumSquares(v));
    SqrtPositive(sqrt, SumSquares(v));
    assert m * m == SumSquares(v);
    assert Dot(v, v) / (m * m) == 1.0;
  }

  /** Similarity does not depend on the order of its arguments. */
  lemma CosineSymmetric(sqrt: real -> real, a: Embedding, b: Embedding)
    ensures Cosine(sqrt, a, b) == Cosine(sqrt, b, a)
  {
    if |a| == |b| {
      DotSymmetric(a, b);
      var ma, mb := sqrt(SumSquares(a)), sqrt(SumSquares(b));
      assert ma * mb == mb * ma;
    }
  }

  /** Orthogonal vectors (zero dot product) have similarity 0. */
  lemma CosineOrthogonal(sqrt: real -> real, a: Embedding, b: Embedding)
    requires |a| == |b| && Dot(a, b) == 0.0
    ensures Cosine(sqrt, a, b) == 0.0
  {
  }

  lemma CosineExamples(sqrt: real -> real)
    requires IsSqrt(sqrt)
    ensures Cosine(sqrt, [1.0, 0.0, 0.0], [1.0, 0.0, 0.0]) == 1.0
    ensures Cosine(sqrt, [1.0, 0.0, 0.0], [0.0, 1.0, 0.0]) == 0.0
  {
    var e: Embedding := [1.0, 0.0, 0.0];
    assert e[0] != 0.0;
    CosineSelf(sqrt, e);
    CosineOrthogonal(sqrt, e, [0.0, 1.0, 0.0]);
  }

  /** The squared distance is never negative. */
  lemma {:induction false} SumSqDiffNonNegative(a: Embedding, b: Embedding)
    requires |a| == |b|
    ensures SumSqDiff(a, b) >= 0.0
  {
    if a != [] {
      SumSqDiffNonNegative(a[1..], b[1..]);
      SquareNonNegative(a[0] - b[0]);
    }
  }

  /** A vector is at squared distance 0 from itself. */
  lemma {:induction false} SumSqDiffSelf(a: Embedding)
    ensures SumSqDiff(a, a) == 0.0
  {
    if a != [] {
      SumSqDiffSelf(a[1..]);
    }
  }

  lemma {:induction false} SumSqDiffSymmetric(a: Embedding, b: Embedding)
    requires |a| == |b|
    ensures SumSqDiff(a, b) == SumSqDiff(b, a)
  {
    if a != [] {
      SumSqDiffSymmetric(a[1..], b[1..]);
      assert (a[0] - b[0]) * (a[0] - b[0]) == (b[0] - a[0]) * (b[0] - a[0]);
    }
  }

  /** Vectors of different lengths are at the maximal sentinel distance. */
  lemma EuclidLengthMismatch(sqrt: real -> real, a: Embedding, b: Embedding)
    requires |a| != |b|
    ensures Euclid(sqrt, a, b) == F32Max
  {
  }

  /**
   * For equal lengths the distance is non-negative, symmetric, zero from a
   * vector to itself, and squares to the sum of squared differences.
   */
  lemma EuclidMetric(sqrt: real -> real, a: Embedding, b: Embedding)
    requires IsSqrt(sqrt) && |a| == |b|
    ensures Euclid(sqrt, a, b) >= 0.0
    ensures Euclid(sqrt, a, b) == Euclid(sqrt, b, a)
    ensures Euclid(sqrt, a, b) * Euclid(sqrt, a, b) == SumSqDiff(a, b)
    ensures Euclid(sqrt, a, a) == 0.0
  {
    SumSqDiffNonNegative(a, b);
    SumSqDiffSymmetric(a, b);
    SumSqDiffSelf(a);
    SquareRoots(sqrt);
  }

  lemma EuclidExamples(sqrt: real -> real)
    requires IsSqrt(sqrt)
    ensures Euclid(sqrt, [0.0, 0.0, 0.0], [1.0, 0.0, 0.0]) == 1.0
    ensures Euclid(sqrt, [0.0, 0.0, 0.0], [1.0, 1.0, 0.0]) == sqrt(2.0)
  {
    SquareRoots(sqrt);
  }

  // ---------------------------------------------------------------------
  // The default `store_batch` of the store interface, for any store whose
  // `store` is the state transition `step`.
  // ---------------------------------------------------------------------

  /** Batch insert: `store` each vector in turn, stopping at the first error. */
  function BatchSpec<S>(step: (S, Vector) -> (S, Result<()>), s: S, vs: seq<Vector>): (S, Result<()>) {
    if vs == [] then (s, Ok(()))
    else
      var (s1, r) := step(s, vs[0]);
      if r.Err? then (s1, r) else BatchSpec(step, s1, vs[1..])
  }

  /** The state after storing every vector of `vs`, whatever the results. */
  function StoreAll<S>(step: (S, Vector) -> (S, Result<()>), s: S, vs: seq<Vector>): S {
    if vs == [] then s else StoreAll(step, step(s, vs[0]).0, vs[1..])
  }

  /** Every `store` of the batch succeeds. */
  predicate AllStored<S>(step: (S, Vector) -> (S, Result<()>), s: S, vs: seq<Vector>) {
    vs == [] || (step(s, vs[0]).1.Ok? && AllStored(step, step(s, vs[0]).0, vs[1..]))
  }

  /** The loop of the default `store_batch`. */
  method StoreBatchDefault<S>(step: (S, Vector) -> (S, Result<()>), s0: S, vs: seq<Vector>)
    returns (s: S, r: Result<()>)
    ensures (s, r) == BatchSpec(step, s0, vs)
  {
    s := s0;
    var i := 0;
    while i < |vs|
      invariant 0 <= i <= |vs|
      invariant BatchSpec(step, s, vs[i..]) == BatchSpec(step, s0, vs)
    {
      var (s1, ri) := step(s, vs[i]);
      assert vs[i..][1..] == vs[i + 1..];
      s := s1;
      if ri.Err? {
        return s, ri;
      }
      i := i + 1;
    }
    return s, Ok(());
  }

  /**
   * The batch succeeds exactly when every `store` succeeds, and then every
   * vector has been stored in order.
   */
  lemma {:induction false} BatchOk<S>(step: (S, Vector) -> (S, Result<()>), s: S, vs: seq<Vector>)
    ensures BatchSpec(step, s, vs).1.Ok? <==> AllStored(step, s, vs)
    ensures BatchSpec(step, s, vs).1.Ok? ==> BatchSpec(step, s, vs).0 == StoreAll(step, s, vs)
  {
    if vs != [] {
      BatchOk(step, step(s, vs[0]).0, vs[1..]);
    }
  }

  /**
   * A failing batch stops at its first failing `store`: the vectors before
   * it were all stored, the failing one's error is returned, and nothing
   * after it is attempted.
   */
  lemma {:induction false} BatchFirstError<S>(step: (S, Vector) -> (S, Result<()>), s: S, vs: seq<Vector>)
    requires BatchSpec(step, s, vs).1.Err?
    ensures exists i :: (0 <= i < |vs| && AllStored(step, s, vs[..i])
                         && step(StoreAll(step, s, vs[..i]), vs[i]) == BatchSpec(step, s, vs))
  {
    var (s1, r) := step(s, vs[0]);
    if r.Err? {
      assert vs[..0] == [];
      assert 0 < |vs| && AllStored(step, s, vs[..0]) && step(StoreAll(step, s, vs[..0]), vs[0]) == BatchSpec(step, s, vs);
    } else {
      BatchFirstError(step, s1, vs[1..]);
      var j :| 0 <= j < |vs[1..]| && AllStored(step, s1, vs[1..][..j])
        && step(StoreAll(step, s1, vs[1..][..j]), vs[1..][j]) == BatchSpec(step, s1, vs[1..]);
      assert vs[..j + 1][0] == vs[0] && vs[..j + 1][1..] == vs[1..][..j];
      assert AllStored(step, s, vs[..j + 1]);
      assert StoreAll(step, s, vs[..j + 1]) == StoreAll(step, s1, vs[1..][..j]);
      assert vs[j + 1] == vs[1..][j];
    }
  }
}
