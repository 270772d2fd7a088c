/**
 * The exact-arithmetic skeleton of `cosine_similarity` in embedding_service.py.
 *
 * Vectors are sequences of reals. The dot product pairs elements the way
 * Python's `zip` does, so it stops at the shorter vector; the magnitudes are
 * square roots of the full sums of squares. The square root is a parameter:
 * `IsSqrt` says when it is the exact one. Floating-point rounding is not
 * modelled.
 */
module EmbeddingService {

  /** `sum(a * b for a, b in zip(vec1, vec2))`: only the common prefix is used. */
  function Dot(a: seq<real>, b: seq<real>): real
  {
    if a == [] || b == [] then 0.0 else a[0] * b[0] + Dot(a[1..], b[1..])
  }

  /** `sum(a * a for a in vec)`, the squared magnitude. */
  function SumSq(a: seq<real>): (r: real)
    ensures r >= 0.0
  {
    if a == [] then 0.0
    else
      var rest := SumSq(a[1..]);
      assert a[0] * a[0] >= 0.0;
      a[0] * a[0] + rest
  }

  /** `sqrt` returns the non-negative square root of every non-negative real. */
  ghost predicate IsSqrt(sqrt: real -> real)
  {
    forall x :: 0.0 <= x ==> 0.0 <= sqrt(x) && sqrt(x) * sqrt(x) == x
  }

  predicate AllZero(a: seq<real>)
  {
    forall i :: 0 <= i < |a| ==> a[i] == 0.0
  }

  /**
   * `cosine_similarity(vec1, vec2)`: 0.0 when either magnitude is zero,
   * otherwise the dot product over the product of the magnitudes.
   */
  function CosineSimilarity(a: seq<real>, b: seq<real>, sqrt: real -> real): real
  {
    var m1 := sqrt(SumSq(a));
    var m2 := sqrt(SumSq(b));
    if m1 == 0.0 || m2 == 0.0 then 0.0 else Dot(a, b) / (m1 * m2)
  }

  function Min(x: int, y: int): int { if x <= y then x else y }

  /** The dot product only looks at the first `min(|a|, |b|)` positions. */
  lemma {:induction false} DotOverZip(a: seq<real>, b: seq<real>)
    ensures Dot(a, b) == Dot(a[..Min(|a|, |b|)], b[..Min(|a|, |b|)])
  {
    var n := Min(|a|, |b|);
    if a != [] && b != [] {
      DotOverZip(a[1..], b[1..]);
      assert a[..n][1..] == a[1..][..n - 1];
      assert b[..n][1..] == b[1..][..n - 1];
    }
  }

  lemma {:induction false} DotSymmetric(a: seq<real>, b: seq<real>)
    ensures Dot(a, b) == Dot(b, a)
  {
    if a != [] && b != [] {
      DotSymmetric(a[1..], b[1..]);
    }
  }

  /** Cosine similarity is symmetric, whatever the square root. */
  lemma CosineSymmetric(a: seq<real>, b: seq<real>, sqrt: real -> real)
    ensures CosineSimilarity(a, b, sqrt) == CosineSimilarity(b, a, sqrt)
  {
    DotSymmetric(a, b);
    var m1, m2 := sqrt(SumSq(a)), sqrt(SumSq(b));
    assert m1 * m2 == m2 * m1;
  }

  lemma {:induction false} DotSelf(a: seq<real>)
    ensures Dot(a, a) == SumSq(a)
  {
    if a != [] { DotSelf(a[1..]); }
  }

  lemma AllZeroTail(a: seq<real>)
    requires a != [] && AllZero(a)
    ensures AllZero(a[1..])
  {
    forall i | 0 <= i < |a| - 1 ensures a[1..][i] == 0.0 { assert a[1..][i] == a[i + 1]; }
  }

  /** A sum of squares is zero exactly when every element is zero. */
  lemma {:induction false} SumSqZeroIff(a: seq<real>)
    ensures SumSq(a) == 0.0 <==> AllZero(a)
  {
    if a != [] {
      SumSqZeroIff(a[1..]);
      assert SumSq(a) == a[0] * a[0] + SumSq(a[1..]);
      if SumSq(a) == 0.0 {
        assert a[0] * a[0] == 0.0;
        SquareZero(a[0]);
        forall i | 0 <= i < |a| ensures a[i] == 0.0 {
          if i > 0 { assert a[i] == a[1..][i - 1]; }
        }
      }
      if AllZero(a) {
        AllZeroTail(a);
        assert a[0] == 0.0;
      }
    }
  }

  lemma SqrtOfZero(sqrt: real -> real)
    requires IsSqrt(sqrt)
    ensures sqrt(0.0) == 0.0
  {
    var z := sqrt(0.0);
    assert 0.0 <= z && z * z == 0.0;
    SquareZero(z);
  }

  /** The magnitude of a vector is zero exactly when every element is zero. */
  lemma MagnitudeZeroIff(a: seq<real>, sqrt: real -> real)
    requires IsSqrt(sqrt)
    ensures sqrt(SumSq(a)) == 0.0 <==> AllZero(a)
  {
    SumSqZeroIff(a);
    SqrtOfZero(sqrt);
    var m := sqrt(SumSq(a));
    assert m * m == SumSq(a);
  }

  /**
   * A zero vector on either side gives exactly 0.0, never a division. Only
   * `sqrt(0.0) == 0.0` is needed, which `math.sqrt` meets exactly also in
   * floating point.
   */
  lemma CosineWithZeroVector(a: seq<real>, b: seq<real>, sqrt: real -> real)
    requires sqrt(0.0) == 0.0
    requires AllZero(a) || AllZero(b)
    ensures CosineSimilarity(a, b, sqrt) == 0.0
  {
    SumSqZeroIff(a);
    SumSqZeroIff(b);
  }

  /** A non-zero vector is exactly similar to itself. */
  lemma CosineWithItself(a: seq<real>, sqrt: real -> real)
    requires IsSqrt(sqrt)
    requires !AllZero(a)
    ensures CosineSimilarity(a, a, sqrt) == 1.0
  {
    MagnitudeZeroIff(a, sqrt);
    DotSelf(a);
    SelfRatio(sqrt(SumSq(a)), SumSq(a));
  }

  /** The vector `s * a[i] - t * b[i]`, used in the proof of Cauchy-Schwarz. */
  ghost function Combine(a: seq<real>, b: seq<real>, s: real, t: real): (c: seq<real>)
    requires |a| == |b|
    ensures |c| == |a|
  {
    if a == [] then [] else [s * a[0] - t * b[0]] + Combine(a[1..], b[1..], s, t)
  }

  lemma {:induction false} SumSqCombine(a: seq<real>, b: seq<real>, s: real, t: real)
    requires |a| == |b|
    ensures SumSq(Combine(a, b, s, t)) == Quadratic(s, t, SumSq(a), Dot(a, b), SumSq(b))
  {
    if a != [] {
      var c := Combine(a, b, s, t);
      SumSqCombine(a[1..], b[1..], s, t);
      assert c[0] == s * a[0] - t * b[0];
      assert c[1..] == Combine(a[1..], b[1..], s, t);
      ExpandStep(s, t, a[0], b[0], c[0], SumSq(a[1..]), SumSq(b[1..]), Dot(a[1..], b[1..]));
      assert SumSq(a) == a[0] * a[0] + SumSq(a[1..]);
      assert SumSq(b) == b[0] * b[0] + SumSq(b[1..]);
      assert Dot(a, b) == a[0] * b[0] + Dot(a[1..], b[1..]);
    }
  }

  /** Dot product with an all-zero vector is zero. */
  lemma {:induction false} DotWithZero(a: seq<real>, b: seq<real>)
    requires AllZero(b)
    ensures Dot(a, b) == 0.0
  {
    if a != [] && b != [] {
      AllZeroTail(b);
      DotWithZero(a[1..], b[1..]);
      assert b[0] == 0.0;
    }
  }

  lemma CauchySchwarzSameLength(a: seq<real>, b: seq<real>)
    requires |a| == |b|
    ensures Dot(a, b) * Dot(a, b) <= SumSq(a) * SumSq(b)
  {
    SumSqZeroIff(b);
    if SumSq(b) == 0.0 {
      DotWithZero(a, b);
    } else {
      assert Bounded(Dot(a, b), SumSq(a), SumSq(b)) by {
        SumSqCombine(a, b, SumSq(b), Dot(a, b));
        QuadraticBound(SumSq(a), SumSq(b), Dot(a, b), SumSq(Combine(a, b, SumSq(b), Dot(a, b))));
      }
    }
  }

  /** A prefix never has a larger sum of squares. */
  lemma {:induction false} SumSqPrefix(a: seq<real>, n: nat)
    requires n <= |a|
    ensures SumSq(a[..n]) <= SumSq(a)
  {
    if n > 0 {
      SumSqPrefix(a[1..], n - 1);
      assert a[..n][1..] == a[1..][..n - 1];
    } else {
      assert a[..n] == [];
    }
  }

  /** Cauchy-Schwarz for the common prefix, stated against the dot product over `zip`. */
  lemma CauchySchwarzOverZip(a: seq<real>, b: seq<real>)
    ensures var n := Min(|a|, |b|); Bounded(Dot(a, b), SumSq(a[..n]), SumSq(b[..n]))
  {
    var n := Min(|a|, |b|);
    var a', b' := a[..n], b[..n];
    assert Bounded(Dot(a', b'), SumSq(a'), SumSq(b')) by {
      CauchySchwarzSameLength(a', b');
    }
    assert Dot(a, b) == Dot(a', b') by {
      DotOverZip(a, b);
    }
    BoundedSubst(Dot(a, b), Dot(a', b'), SumSq(a'), SumSq(b'));
  }

  lemma BoundedSubst(D: real, D': real, A: real, B: real)
    ensures D == D' && Bounded(D', A, B) ==> Bounded(D, A, B)
  {
  }

  /**
   * Cauchy-Schwarz for the zipped dot product: `dot(a, b)^2 <= |a|^2 * |b|^2`,
   * even when the lengths differ.
   */
  lemma CauchySchwarz(a: seq<real>, b: seq<real>)
    ensures Dot(a, b) * Dot(a, b) <= SumSq(a) * SumSq(b)
  {
    var n := Min(|a|, |b|);
    assert Bounded(Dot(a, b), SumSq(a), SumSq(b)) by {
      CauchySchwarzOverZip(a, b);
      SumSqPrefix(a, n);
      SumSqPrefix(b, n);
      ProductBound(Dot(a, b), SumSq(a[..n]), SumSq(b[..n]), SumSq(a), SumSq(b));
    }
  }

  /** The documented range: the result lies between -1 and 1. */
  lemma CosineInRange(a: seq<real>, b: seq<real>, sqrt: real -> real)
    requires IsSqrt(sqrt)
    ensures -1.0 <= CosineSimilarity(a, b, sqrt) <= 1.0
  {
    if sqrt(SumSq(a)) != 0.0 && sqrt(SumSq(b)) != 0.0 {
      assert Bounded(Dot(a, b), SumSq(a), SumSq(b)) by { CauchySchwarz(a, b); }
      RangeFromSquares(Dot(a, b), SumSq(a), SumSq(b), sqrt(SumSq(a)), sqrt(SumSq(b)));
    }
  }

  // Facts about real arithmetic, kept apart from the sequence proofs.
  //
  // The scalar lemmas below state their hypotheses as `ensures P ==> Q`
  // rather than as `requires P`, and `Bounded` names `D * D <= A * B`: the
  // callers pass long product terms, and in these forms the solver matches
  // them by congruence instead of re-deriving each precondition.

  /** `s^2 A - 2 s t D + t^2 B`, the expansion of a sum of squares of `s a[i] - t b[i]`. */
  function Quadratic(s: real, t: real, A: real, D: real, B: real): real
  {
    s * s * A - 2.0 * s * t * D + t * t * B
  }

  lemma SquareZero(x: real)
    ensures x * x == 0.0 ==> x == 0.0
  {
    if x != 0.0 { assert (x * x) / x == x; }
  }
  lemma MulPos(x: real, y: real)
    ensures x > 0.0 && y > 0.0 ==> x * y > 0.0
  {}
  lemma MulNonNeg(x: real, y: real)
    ensures x >= 0.0 && y >= 0.0 ==> x * y >= 0.0
  {}
  lemma NegProduct(B: real, E: real)
    ensures B > 0.0 && E < 0.0 ==> B * E < 0.0
  {
    MulPos(B, -E);
    assert B * (-E) == -(B * E);
  }
  lemma SquareBound(D: real, p: real)
    ensures p > 0.0 && (D > p || D < -p) ==> D * D > p * p
  {
    assert D * D - p * p == (D - p) * (D + p);
    MulPos(D - p, D + p);
    MulPos(p - D, -p - D);
    assert (p - D) * (-p - D) == (D - p) * (D + p);
  }
  lemma RatioBounded(D: real, p: real)
    requires p > 0.0 && D * D <= p * p
    ensures -1.0 <= D / p <= 1.0
  {
    SquareBound(D, p);
    var c := D / p;
    assert c * p == D;
    MulPos(c - 1.0, p);
    MulPos(-1.0 - c, p);
  }
  lemma QuadraticBound(A: real, B: real, D: real, q: real)
    ensures B > 0.0 && q >= 0.0 && q == Quadratic(B, D, A, D, B) ==> Bounded(D, A, B)
  {
    if B > 0.0 && q >= 0.0 && q == Quadratic(B, D, A, D, B) {
      var E := A * B - D * D;
      assert q == B * E;
      NegProduct(B, E);
    }
  }
  /** `D * D <= A * B`, the shape of the Cauchy-Schwarz inequality. */
  ghost predicate Bounded(D: real, A: real, B: real)
  {
    D * D <= A * B
  }
  lemma ProductBound(D: real, A': real, B': real, A: real, B: real)
    ensures Bounded(D, A', B') && 0.0 <= A' <= A && 0.0 <= B' <= B ==> Bounded(D, A, B)
  {
    if 0.0 <= A' <= A && 0.0 <= B' <= B {
      MulNonNeg(A - A', B');
      MulNonNeg(A, B - B');
      assert A' * B' <= A * B;
    }
  }
  lemma RangeFromSquares(D: real, A: real, B: real, m1: real, m2: real)
    ensures 0.0 < m1 && 0.0 < m2 && m1 * m1 == A && m2 * m2 == B && Bounded(D, A, B)
      ==> -1.0 <= D / (m1 * m2) <= 1.0
  {
    if 0.0 < m1 && 0.0 < m2 && m1 * m1 == A && m2 * m2 == B && Bounded(D, A, B) {
      MulPos(m1, m2);
      var p := m1 * m2;
      assert p * p == A * B;
      RatioBounded(D, p);
    }
  }
  lemma SelfRatio(m: real, A: real)
    requires m != 0.0 && m * m == A
    ensures A / (m * m) == 1.0
  {
    SquareZero(m);
    assert A != 0.0;
  }

  lemma ExpandStep(s: real, t: real, x: real, y: real, c: real, A: real, B: real, D: real)
    requires c == s * x - t * y
    ensures c * c + Quadratic(s, t, A, D, B)
         == Quadratic(s, t, x * x + A, x * y + D, y * y + B)
  {
  }
}
