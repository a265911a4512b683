/** Cosine similarity over exact reals (services/coven/mmr.go), with math.Sqrt as a parameter:
    any function that returns the non-negative root of a non-negative number. */
module Cosine {

  type Vec = seq<real>

  ghost predicate IsSqrt(sqrt: real -> real) {
    forall x :: x >= 0.0 ==> sqrt(x) >= 0.0 && sqrt(x) * sqrt(x) == x
  }

  function Dot(a: Vec, b: Vec): real
    requires |a| == |b|
  {
    if a == [] then 0.0 else Dot(a[..|a| - 1], b[..|b| - 1]) + a[|a| - 1] * b[|b| - 1]
  }

  /** The third test only guards the division: it never succeeds for a square root. */
  function Similarity(sqrt: real -> real, a: Vec, b: Vec): real {
    if |a| != |b| || |a| == 0 then 0.0
    else if Dot(a, a) == 0.0 || Dot(b, b) == 0.0 then 0.0
    else if sqrt(Dot(a, a)) * sqrt(Dot(b, b)) == 0.0 then 0.0
    else Dot(a, b) / (sqrt(Dot(a, a)) * sqrt(Dot(b, b)))
  }

  /** The similarity as a function of two embeddings. */
  function SimilarityBy(sqrt: real -> real): (Vec, Vec) -> real {
    (a: Vec, b: Vec) => Similarity(sqrt, a, b)
  }

  method CosineSimilarity(sqrt: real -> real, a: Vec, b: Vec) returns (r: real)
    requires IsSqrt(sqrt)
    ensures r == Similarity(sqrt, a, b)
  {
    if |a| != |b| || |a| == 0 {
      return 0.0;
    }
    var dot, normA, normB := 0.0, 0.0, 0.0;
    for i := 0 to |a|
      invariant dot == Dot(a[..i], b[..i]) && normA == Dot(a[..i], a[..i]) && normB == Dot(b[..i], b[..i])
    {
      assert a[..i + 1][..i] == a[..i] && b[..i + 1][..i] == b[..i];
      dot := dot + a[i] * b[i];
      normA := normA + a[i] * a[i];
      normB := normB + b[i] * b[i];
    }
    assert a[..|a|] == a && b[..|b|] == b;
    if normA == 0.0 || normB == 0.0 {
      return 0.0;
    }
    NormIsPositive(a);
    NormIsPositive(b);
    RootsArePositive(sqrt, normA, normB);
    r := dot / (sqrt(normA) * sqrt(normB));
  }

  lemma {:induction false} NormIsPositive(a: Vec)
    ensures Dot(a, a) >= 0.0
  {
    if a != [] {
      NormIsPositive(a[..|a| - 1]);
      SquareIsPositive(a[|a| - 1]);
    }
  }

  lemma SquareIsPositive(x: real)
    ensures x * x >= 0.0
  {
  }

  lemma SquareIsNotZero(x: real, square: real)
    requires x != 0.0 && square == x * x
    ensures square > 0.0
  {
    if x > 0.0 {
      PositiveProduct(x, x, square);
    } else {
      assert square == (-x) * (-x);
      PositiveProduct(-x, -x, square);
    }
  }

  lemma PositiveProduct(x: real, y: real, product: real)
    requires x > 0.0 && y > 0.0 && product == x * y
    ensures product > 0.0
  {
  }

  lemma WholeIsOne(m: real)
    requires m > 0.0
    ensures m / m == 1.0
  {
  }

  lemma RootsArePositive(sqrt: real -> real, x: real, y: real)
    requires IsSqrt(sqrt) && x > 0.0 && y > 0.0
    ensures sqrt(x) > 0.0 && sqrt(y) > 0.0 && sqrt(x) * sqrt(y) > 0.0
    ensures (sqrt(x) * sqrt(y)) * (sqrt(x) * sqrt(y)) == x * y
  {
    var p, q := sqrt(x), sqrt(y);
    assert p * p == x && q * q == y;
    assert (p * q) * (p * q) == (p * p) * (q * q);
  }

  lemma {:induction false} DotIsSymmetric(a: Vec, b: Vec)
    requires |a| == |b|
    ensures Dot(a, b) == Dot(b, a)
  {
    if a != [] {
      DotIsSymmetric(a[..|a| - 1], b[..|b| - 1]);
    }
  }

  /** Similarity is symmetric, as the clique finder requires. */
  lemma SimilarityIsSymmetric(sqrt: real -> real, a: Vec, b: Vec)
    ensures Similarity(sqrt, a, b) == Similarity(sqrt, b, a)
  {
    if |a| == |b| {
      DotIsSymmetric(a, b);
    }
  }

  lemma {:induction false} NormOfNonZero(a: Vec, i: nat)
    requires i < |a| && a[i] != 0.0
    ensures Dot(a, a) > 0.0
  {
    var n := |a| - 1;
    var rest, last := Dot(a[..n], a[..n]), a[n] * a[n];
    assert Dot(a, a) == rest + last;
    NormIsPositive(a[..n]);
    SquareIsPositive(a[n]);
    if i < n {
      NormOfNonZero(a[..n], i);
      assert rest > 0.0;
    } else {
      SquareIsNotZero(a[n], last);
    }
  }

  /** A vector other than zero is as similar to itself as can be. */
  lemma SelfSimilarityIsOne(sqrt: real -> real, a: Vec, i: nat)
    requires IsSqrt(sqrt) && i < |a| && a[i] != 0.0
    ensures Similarity(sqrt, a, a) == 1.0
  {
    NormOfNonZero(a, i);
    var d := Dot(a, a);
    var p := sqrt(d);
    assert p * p == d;
    WholeIsOne(d);
  }

  // ----- Cauchy-Schwarz -----

  lemma SquareGrows(p: real, q: real)
    ensures 0.0 <= p < q ==> p * p < q * q
  {
    if 0.0 <= p < q {
      var d := q - p;
      assert (p + d) * (p + d) == p * p + 2.0 * (p * d) + d * d;
      assert p * d >= 0.0 && d * d > 0.0;
    }
  }

  /** |q| <= p follows from q^2 <= p^2 for non-negative p. */
  lemma CompareBySquares(p: real, q: real)
    requires p >= 0.0 && q * q <= p * p
    ensures -p <= q <= p
  {
    SquareGrows(p, q);
    SquareGrows(p, -q);
    assert (-q) * (-q) == q * q;
  }

  lemma CrossTerm(d: real, a: real, b: real, x: real, y: real)
    requires a >= 0.0 && b >= 0.0 && d * d <= a * b
    ensures 2.0 * d * x * y <= a * y * y + b * x * x
  {
    var u, v := a * (y * y), b * (x * x);
    SquareIsPositive(x);
    SquareIsPositive(y);
    assert u >= 0.0 && v >= 0.0;
    var w := x * y;
    SquareIsPositive(w);
    // (u + v)^2 >= 4uv = 4ab w^2 >= 4 d^2 w^2
    assert u * v == (a * b) * (w * w);
    assert (d * d) * (w * w) <= (a * b) * (w * w);
    var q := 2.0 * d * w;
    assert q * q == 4.0 * ((d * d) * (w * w));
    SquareIsPositive(u - v);
    assert (u + v) * (u + v) == (u - v) * (u - v) + 4.0 * (u * v);
    CompareBySquares(u + v, q);
  }

  lemma {:induction false} CauchySchwarz(a: Vec, b: Vec)
    requires |a| == |b|
    ensures Dot(a, b) * Dot(a, b) <= Dot(a, a) * Dot(b, b)
  {
    if a != [] {
      var a', b' := a[..|a| - 1], b[..|b| - 1];
      var x, y := a[|a| - 1], b[|b| - 1];
      CauchySchwarz(a', b');
      NormIsPositive(a');
      NormIsPositive(b');
      var d, p, q := Dot(a', b'), Dot(a', a'), Dot(b', b');
      CrossTerm(d, p, q, x, y);
      assert (d + x * y) * (d + x * y) == d * d + 2.0 * d * x * y + (x * x) * (y * y);
      assert (p + x * x) * (q + y * y) == p * q + p * y * y + q * x * x + (x * x) * (y * y);
    }
  }

  /** Cosine similarity lies between -1 and 1. */
  lemma {:induction false} SimilarityIsBounded(sqrt: real -> real, a: Vec, b: Vec)
    requires IsSqrt(sqrt)
    ensures -1.0 <= Similarity(sqrt, a, b) <= 1.0
  {
    if |a| == |b| && a != [] && Dot(a, a) != 0.0 && Dot(b, b) != 0.0 {
      NormIsPositive(a);
      NormIsPositive(b);
      RootsArePositive(sqrt, Dot(a, a), Dot(b, b));
      CauchySchwarz(a, b);
      var p := sqrt(Dot(a, a)) * sqrt(Dot(b, b));
      CompareBySquares(p, Dot(a, b));
      QuotientBound(Dot(a, b), p);
    }
  }

  lemma QuotientBound(d: real, p: real)
    requires p > 0.0 && -p <= d <= p
    ensures -1.0 <= d / p <= 1.0
  {
    var q := d / p;
    assert q * p == d;
  }
}
