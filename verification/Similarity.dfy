/**
 * src/embedding/cosine-similarity.ts and searchSimilar of src/embedding/d1-embedding.store.ts,
 * over the reals: rounding is not modelled.
 */
module Similarity {

  type Vector = seq<real>

  function Dot(a: Vector, b: Vector): real
    requires |a| == |b|
  {
    if a == [] then 0.0 else Dot(a[..|a| - 1], b[..|b| - 1]) + a[|a| - 1] * b[|b| - 1]
  }

  function Norm(a: Vector): real {
    Dot(a, a)
  }

  /** Math.sqrt, of which only this is used. */
  ghost predicate SquareRoot(root: real -> real) {
    forall x {:trigger root(x)} :: x >= 0.0 ==> root(x) >= 0.0 && root(x) * root(x) == x
  }

  /** A vector of length zero, or of norm zero, scores 0. */
  ghost predicate Scores(a: Vector, b: Vector, score: real)
    requires |a| == |b|
  {
    if Norm(a) == 0.0 || Norm(b) == 0.0 then score == 0.0
    else
      // the quotient by the two roots, told without them
      && score * score * (Norm(a) * Norm(b)) == Dot(a, b) * Dot(a, b)
      && (score >= 0.0 <==> Dot(a, b) >= 0.0)
  }

  // ---------------------------------------------------------------- sums of products

  lemma PositiveProduct(x: real, y: real)
    requires x > 0.0 && y > 0.0
    ensures x * y > 0.0
  {
  }

  lemma ZeroProduct(x: real, y: real)
    requires x * y == 0.0
    ensures x == 0.0 || y == 0.0
  {
  }

  lemma SquareSign(x: real)
    ensures x * x >= 0.0 && (x * x == 0.0 ==> x == 0.0)
  {
    if x * x == 0.0 {
      ZeroProduct(x, x);
    }
  }

  lemma {:induction false} NormNonNegative(a: Vector)
    ensures Norm(a) >= 0.0
    ensures Norm(a) == 0.0 ==> forall i :: 0 <= i < |a| ==> a[i] == 0.0
  {
    if a != [] {
      var n := |a| - 1;
      NormNonNegative(a[..n]);
      SquareSign(a[n]);
      if Norm(a) == 0.0 {
        assert forall i :: 0 <= i < n ==> a[..n][i] == a[i];
      }
    }
  }

  lemma {:induction false} DotSymmetric(a: Vector, b: Vector)
    requires |a| == |b|
    ensures Dot(a, b) == Dot(b, a)
  {
    if a != [] {
      DotSymmetric(a[..|a| - 1], b[..|b| - 1]);
    }
  }

  function Scaled(c: real, a: Vector): (r: Vector)
    ensures |r| == |a|
  {
    seq(|a|, i requires 0 <= i < |a| => c * a[i])
  }

  lemma {:induction false} DotScaled(c: real, a: Vector, b: Vector)
    requires |a| == |b|
    ensures Dot(Scaled(c, a), b) == c * Dot(a, b)
  {
    if a != [] {
      var n := |a| - 1;
      forall i | 0 <= i < n ensures Scaled(c, a)[..n][i] == Scaled(c, a[..n])[i] {
        assert a[..n][i] == a[i];
      }
      assert Scaled(c, a)[..n] == Scaled(c, a[..n]);
      DotScaled(c, a[..n], b[..n]);
      Distribute(c, Dot(a[..n], b[..n]), a[n], b[n]);
    }
  }

  lemma Distribute(c: real, d: real, x: real, y: real)
    ensures c * d + (c * x) * y == c * (d + x * y)
  {
  }

  /** The squared length of t*a - s*b, from the two norms and the product. */
  function SquaredLength(na: real, nb: real, d: real, t: real, s: real): real {
    t * t * na - 2.0 * (t * s) * d + s * s * nb
  }

  /** The square of t*a - s*b, entry by entry, is not negative. */
  lemma {:induction false} SquareExpands(a: Vector, b: Vector, t: real, s: real)
    requires |a| == |b|
    ensures SquaredLength(Norm(a), Norm(b), Dot(a, b), t, s) >= 0.0
  {
    if a != [] {
      hide SquaredLength;
      var n := |a| - 1;
      SquareExpands(a[..n], b[..n], t, s);
      SquareStep(Norm(a[..n]), Norm(b[..n]), Dot(a[..n], b[..n]), a[n], b[n], t, s);
    }
  }

  lemma SquareStep(na: real, nb: real, d: real, x: real, y: real, t: real, s: real)
    requires SquaredLength(na, nb, d, t, s) >= 0.0
    ensures SquaredLength(na + x * x, nb + y * y, d + x * y, t, s) >= 0.0
  {
    var z := t * x - s * y;
    assert z * z >= 0.0;
    assert z * z == t * t * (x * x) - 2.0 * (t * s) * (x * y) + s * s * (y * y);
  }

  /** Cauchy and Schwarz: the squared product is at most the product of the norms. */
  lemma {:induction false} DotSquaredAtMostNorms(a: Vector, b: Vector)
    requires |a| == |b|
    ensures Dot(a, b) * Dot(a, b) <= Norm(a) * Norm(b)
  {
    NormNonNegative(a);
    NormNonNegative(b);
    if Norm(b) == 0.0 {
      DotWithZero(a, b);
    } else {
      SquareExpands(a, b, Norm(b), Dot(a, b));
      Discriminant(Norm(a), Norm(b), Dot(a, b));
    }
  }

  lemma {:induction false} DotWithZero(a: Vector, b: Vector)
    requires |a| == |b| && forall i :: 0 <= i < |b| ==> b[i] == 0.0
    ensures Dot(a, b) == 0.0
  {
    if a != [] {
      DotWithZero(a[..|a| - 1], b[..|b| - 1]);
    }
  }

  lemma Discriminant(na: real, nb: real, d: real)
    requires nb > 0.0
    requires nb * nb * na - 2.0 * (nb * d) * d + d * d * nb >= 0.0
    ensures d * d <= na * nb
  {
    var gap := na * nb - d * d;
    assert nb * gap >= 0.0;
    if gap < 0.0 {
      NegativeProduct(nb, gap);
    }
  }

  lemma NegativeProduct(x: real, y: real)
    requires x > 0.0 && y < 0.0
    ensures x * y < 0.0
  {
  }

  // ---------------------------------------------------------------- the score

  lemma RootPositive(root: real -> real, x: real)
    requires SquareRoot(root) && x > 0.0
    ensures root(x) > 0.0 && root(x) * root(x) == x
  {
  }

  /** Dividing by both roots gives a number with this square and this sign. */
  lemma QuotientScores(d: real, ra: real, rb: real)
    requires ra > 0.0 && rb > 0.0
    ensures var s := d / (ra * rb);
            s * s * ((ra * ra) * (rb * rb)) == d * d && (s >= 0.0 <==> d >= 0.0)
  {
    var p := ra * rb;
    assert p > 0.0;
    var s := d / p;
    assert s * p == d;
    SquareOfProduct(s, ra, rb);
    if s < 0.0 {
      NegativeProduct(p, s);
    }
  }

  lemma SquareOfProduct(s: real, ra: real, rb: real)
    ensures s * s * ((ra * ra) * (rb * rb)) == (s * (ra * rb)) * (s * (ra * rb))
  {
    var p := ra * rb;
    assert (ra * ra) * (rb * rb) == p * p by {
      Regroup(ra, ra, rb, rb);
    }
    Regroup(s, s, p, p);
  }

  lemma Regroup(x: real, y: real, z: real, w: real)
    ensures (x * y) * (z * w) == (x * z) * (y * w)
  {
    assert (x * y) * (z * w) == x * (y * (z * w)) == x * (z * (y * w));
  }

  /** None when the lengths differ, where the program throws. */
  datatype Score = Mismatch | Score(value: real)

  method CosineSimilarity(a: Vector, b: Vector, root: real -> real) returns (score: Score)
    requires SquareRoot(root)
    ensures score.Mismatch? <==> |a| != |b|
    ensures score.Score? ==> Scores(a, b, score.value)
  {
    if |a| != |b| {
      return Mismatch;
    }
    if |a| == 0 {
      return Score(0.0);
    }
    var dot, normA, normB := 0.0, 0.0, 0.0;
    for i := 0 to |a|
      invariant dot == Dot(a[..i], b[..i]) && normA == Norm(a[..i]) && normB == Norm(b[..i])
    {
      assert a[..i + 1][..i] == a[..i] && b[..i + 1][..i] == b[..i];
      var av, bv := a[i], b[i];
      dot := dot + av * bv;
      normA := normA + av * av;
      normB := normB + bv * bv;
    }
    assert a[..|a|] == a && b[..|b|] == b;
    if normA == 0.0 || normB == 0.0 {
      return Score(0.0);
    }
    NormNonNegative(a);
    NormNonNegative(b);
    RootPositive(root, normA);
    RootPositive(root, normB);
    QuotientScores(dot, root(normA), root(normB));
    score := Score(dot / (root(normA) * root(normB)));
  }

  lemma SquareAtMostOne(s: real, p: real, q: real)
    requires p > 0.0 && s * s * p == q && q <= p
    ensures -1.0 <= s <= 1.0
  {
    var e := s * s - 1.0;
    assert e * p == s * s * p - p;
    if e > 0.0 {
      PositiveProduct(e, p);
    }
    BeyondOne(s);
    BeyondOne(-s);
    assert s * s == (-s) * (-s);
  }

  lemma BeyondOne(s: real)
    ensures s > 1.0 ==> s * s > 1.0
  {
    if s > 1.0 {
      PositiveProduct(s - 1.0, s);
    }
  }

  /** The score lies between -1 and 1. */
  lemma ScoreWithinBounds(a: Vector, b: Vector, s: real)
    requires |a| == |b| && Scores(a, b, s)
    ensures -1.0 <= s <= 1.0
  {
    if Norm(a) != 0.0 && Norm(b) != 0.0 {
      NormNonNegative(a);
      NormNonNegative(b);
      DotSquaredAtMostNorms(a, b);
      PositiveProduct(Norm(a), Norm(b));
      SquareAtMostOne(s, Norm(a) * Norm(b), Dot(a, b) * Dot(a, b));
    }
  }

  /** Two numbers of equal sign with equal squares are equal. */
  lemma SameSquare(s: real, t: real)
    requires s * s == t * t && (s >= 0.0 <==> t >= 0.0)
    ensures s == t
  {
    assert (s - t) * (s + t) == 0.0;
    ZeroProduct(s - t, s + t);
  }

  lemma CancelFactor(x: real, y: real, p: real)
    requires p > 0.0 && x * p == y * p
    ensures x == y
  {
    ZeroProduct(x - y, p);
  }

  /** The score is determined, so it deserves to be called the similarity of the two vectors. */
  lemma ScoreIsUnique(a: Vector, b: Vector, s: real, t: real)
    requires |a| == |b| && Scores(a, b, s) && Scores(a, b, t)
    ensures s == t
  {
    if Norm(a) != 0.0 && Norm(b) != 0.0 {
      NormNonNegative(a);
      NormNonNegative(b);
      PositiveProduct(Norm(a), Norm(b));
      CancelFactor(s * s, t * t, Norm(a) * Norm(b));
      SameSquare(s, t);
    }
  }

  lemma ScoreIsSymmetric(a: Vector, b: Vector, s: real, t: real)
    requires |a| == |b| && Scores(a, b, s) && Scores(b, a, t)
    ensures s == t
  {
    DotSymmetric(a, b);
    ScoreIsUnique(a, b, s, t);
  }

  lemma NormScaled(c: real, a: Vector)
    ensures Norm(Scaled(c, a)) == c * c * Norm(a)
  {
    DotScaled(c, a, Scaled(c, a));
    DotSymmetric(a, Scaled(c, a));
    DotScaled(c, a, a);
  }

  /** Stretching a vector by a positive factor does not change its scores. */
  lemma ScoreIgnoresLength(a: Vector, b: Vector, c: real, s: real, t: real)
    requires |a| == |b| && c > 0.0 && Scores(a, b, s) && Scores(Scaled(c, a), b, t)
    ensures s == t
  {
    hide Dot, Norm, Scaled;
    DotScaled(c, a, b);
    NormScaled(c, a);
    NormNonNegative(a);
    if Norm(a) == 0.0 {
      assert c * c * Norm(a) == 0.0;
    } else {
      PositiveProduct(c, Norm(a));
      PositiveProduct(c, c * Norm(a));
      assert c * c * Norm(a) == c * (c * Norm(a));
      if Norm(b) != 0.0 {
        StretchedScores(Norm(a), Norm(Scaled(c, a)), Norm(b), Dot(a, b), Dot(Scaled(c, a), b), c, t);
        ScoreIsUnique(a, b, s, t);
      }
    }
  }

  lemma StretchedScores(na: real, na': real, nb: real, d: real, d': real, c: real, t: real)
    requires c > 0.0 && na' == c * c * na && d' == c * d
    requires t * t * (na' * nb) == d' * d' && (t >= 0.0 <==> d' >= 0.0)
    ensures t * t * (na * nb) == d * d && (t >= 0.0 <==> d >= 0.0)
  {
    var u, v := t * t * (na * nb), d * d;
    assert (u * c) * c == t * t * (na' * nb);
    assert (v * c) * c == d' * d';
    CancelFactor(u * c, v * c, c);
    CancelFactor(u, v, c);
    if d < 0.0 {
      NegativeProduct(c, d);
    }
  }

  /** A vector that is not zero scores 1 against itself: the maximum. */
  lemma SelfScoresOne(a: Vector, s: real)
    requires Scores(a, a, s)
    ensures s == if Norm(a) == 0.0 then 0.0 else 1.0
  {
    NormNonNegative(a);
    if Norm(a) != 0.0 {
      assert Scores(a, a, 1.0);
      ScoreIsUnique(a, a, s, 1.0);
    }
  }
}
