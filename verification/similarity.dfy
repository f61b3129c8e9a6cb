/**
 * `SimilarityService.cosineSimilarity` over exact reals. `Math.sqrt` is the
 * parameter `sqrt`; the properties that need it to behave as a square root
 * say so with `IsSqrt`.
 */
module Similarity {

  /** Real multiplication, named so that facts about products are stated once, as lemmas, and reused. */
  function Mul(a: real, b: real): real {
    a * b
  }

  /** The sum of `a[i] * b[i]`: the loop's `dotProduct`, and `normA`/`normB` before the square root. */
  function Dot(a: seq<real>, b: seq<real>): real
    requires |a| == |b|
  {
    if |a| == 0 then 0.0 else Mul(a[0], b[0]) + Dot(a[1..], b[1..])
  }

  /** `sqrt` returns the non-negative square root of every non-negative real, which is 0 only at 0. */
  ghost predicate IsSqrt(sqrt: real -> real) {
    forall x :: 0.0 <= x ==> 0.0 <= sqrt(x) && Mul(sqrt(x), sqrt(x)) == x && (sqrt(x) == 0.0 <==> x == 0.0)
  }

  predicate IsZeroVector(v: seq<real>) {
    forall i | 0 <= i < |v| :: v[i] == 0.0
  }

  /** The score as a formula: 0 for mismatched or empty vectors and for a zero norm, else dot / (|a| |b|). */
  function Cosine(a: seq<real>, b: seq<real>, sqrt: real -> real): (r: real)
    ensures |a| != |b| || |a| == 0 ==> r == 0.0
    ensures |a| == |b| && (sqrt(Dot(a, a)) == 0.0 || sqrt(Dot(b, b)) == 0.0) ==> r == 0.0
  {
    if |a| != |b| || |a| == 0 then 0.0
    else
      var normA := sqrt(Dot(a, a));
      var normB := sqrt(Dot(b, b));
      if normA == 0.0 || normB == 0.0 then 0.0 else Dot(a, b) / Mul(normA, normB)
  }

  /** Extending both vectors by one coordinate adds that coordinate's product to the dot product. */
  lemma {:induction false} DotSnoc(a: seq<real>, b: seq<real>, x: real, y: real)
    requires |a| == |b|
    ensures Dot(a + [x], b + [y]) == Dot(a, b) + Mul(x, y)
  {
    if |a| > 0 {
      assert (a + [x])[1..] == a[1..] + [x];
      assert (b + [y])[1..] == b[1..] + [y];
      DotSnoc(a[1..], b[1..], x, y);
    }
  }

  /**
   * `cosineSimilarity` as written: one left-to-right pass accumulating the
   * dot product and both squared norms, then the guards and the quotient.
   */
  method CosineSimilarity(a: seq<real>, b: seq<real>, sqrt: real -> real) returns (r: real)
    ensures r == Cosine(a, b, sqrt)
  {
    if |a| != |b| || |a| == 0 {
      return 0.0;
    }
    var dotProduct, normA, normB := 0.0, 0.0, 0.0;
    for i := 0 to |a|
      invariant dotProduct == Dot(a[..i], b[..i])
      invariant normA == Dot(a[..i], a[..i])
      invariant normB == Dot(b[..i], b[..i])
    {
      assert a[..i + 1] == a[..i] + [a[i]];
      assert b[..i + 1] == b[..i] + [b[i]];
      DotSnoc(a[..i], b[..i], a[i], b[i]);
      DotSnoc(a[..i], a[..i], a[i], a[i]);
      DotSnoc(b[..i], b[..i], b[i], b[i]);
      dotProduct := dotProduct + Mul(a[i], b[i]);
      normA := normA + Mul(a[i], a[i]);
      normB := normB + Mul(b[i], b[i]);
    }
    assert a[..|a|] == a && b[..|b|] == b;
    normA := sqrt(normA);
    normB := sqrt(normB);
    if normA == 0.0 || normB == 0.0 {
      return 0.0;
    }
    r := dotProduct / Mul(normA, normB);
  }

  lemma MulCommutes(a: real, b: real)
    ensures Mul(a, b) == Mul(b, a)
  {
  }

  lemma {:induction false} DotSymmetric(a: seq<real>, b: seq<real>)
    requires |a| == |b|
    ensures Dot(a, b) == Dot(b, a)
  {
    if |a| > 0 {
      DotSymmetric(a[1..], b[1..]);
      MulCommutes(a[0], b[0]);
    }
  }

  /** The score does not depend on the order of its arguments, whatever `sqrt` is. */
  lemma CosineSymmetric(a: seq<real>, b: seq<real>, sqrt: real -> real)
    ensures Cosine(a, b, sqrt) == Cosine(b, a, sqrt)
  {
    if |a| == |b| {
      DotSymmetric(a, b);
      MulCommutes(sqrt(Dot(a, a)), sqrt(Dot(b, b)));
    }
  }

  lemma PositiveTimesPositive(a: real, b: real)
    requires a > 0.0 && b > 0.0
    ensures Mul(a, b) > 0.0
  {
  }

  lemma NegativeTimesNegative(a: real, b: real)
    requires a < 0.0 && b < 0.0
    ensures Mul(a, b) > 0.0
  {
  }

  lemma ZeroSquare(x: real)
    requires x == 0.0
    ensures Mul(x, x) == 0.0
  {
  }

  lemma SquarePositive(x: real)
    requires x != 0.0
    ensures Mul(x, x) > 0.0
  {
    if x > 0.0 {
      PositiveTimesPositive(x, x);
    } else {
      NegativeTimesNegative(x, x);
    }
  }

  /** A sum of squares is never negative, and is zero exactly for the zero vector. */
  lemma {:induction false} DotSelf(v: seq<real>)
    ensures Dot(v, v) >= 0.0
    ensures Dot(v, v) == 0.0 <==> IsZeroVector(v)
  {
    if |v| > 0 {
      var t := v[1..];
      DotSelf(t);
      if v[0] == 0.0 {
        ZeroSquare(v[0]);
        assert IsZeroVector(v) <==> IsZeroVector(t) by {
          if IsZeroVector(t) {
            forall i | 0 <= i < |v|
              ensures v[i] == 0.0
            {
              if i > 0 {
                assert v[i] == t[i - 1];
              }
            }
          }
          if IsZeroVector(v) {
            forall i | 0 <= i < |t|
              ensures t[i] == 0.0
            {
              assert t[i] == v[i + 1];
            }
          }
        }
      } else {
        SquarePositive(v[0]);
      }
    }
  }

  /** Scoring against an all-zero vector, of any length, gives 0. */
  lemma ZeroVectorScoresZero(v: seq<real>, z: seq<real>, sqrt: real -> real)
    requires IsSqrt(sqrt) && IsZeroVector(z)
    ensures Cosine(v, z, sqrt) == 0.0
  {
    if |v| == |z| && |v| > 0 {
      DotSelf(z);
      assert sqrt(Dot(z, z)) == 0.0;
    }
  }

  lemma DivideBySelf(p: real)
    requires p != 0.0
    ensures p / p == 1.0
  {
  }

  /** Every non-zero vector has similarity exactly 1 with itself. */
  lemma SelfSimilarityIsOne(v: seq<real>, sqrt: real -> real)
    requires IsSqrt(sqrt) && !IsZeroVector(v)
    ensures Cosine(v, v, sqrt) == 1.0
  {
    DotSelf(v);
    var p := Dot(v, v);
    var n := sqrt(p);
    assert Mul(n, n) == p && n != 0.0;
    DivideBySelf(p);
    assert Cosine(v, v, sqrt) == p / Mul(n, n);
  }

  lemma ScaleMonotone(c: real, a: real, b: real)
    requires c >= 0.0 && a >= b
    ensures c * a >= c * b
  {
  }

  lemma SquareNonNegative(x: real)
    ensures x * x >= 0.0
  {
  }

  /** Squaring is strictly increasing on the non-negative reals (raw products). */
  lemma RawSquareMonotone(x: real, y: real)
    requires 0.0 <= x < y
    ensures x * x < y * y
  {
    var d := y - x;
    assert y * y == (x + d) * (x + d);
    assert (x + d) * (x + d) == x * x + 2.0 * x * d + d * d;
    assert x * d >= 0.0;
    assert d * d > 0.0;
  }

  /** Squaring is strictly increasing on the non-negative reals. */
  lemma SquareMonotone(x: real, y: real)
    requires 0.0 <= x < y
    ensures Mul(x, x) < Mul(y, y)
  {
    RawSquareMonotone(x, y);
  }

  /** The cross term of the inductive step of Cauchy-Schwarz: 2xyd <= x^2 q + y^2 p when d^2 <= pq. */
  lemma CrossTerm(x: real, y: real, d: real, p: real, q: real)
    requires p >= 0.0 && q >= 0.0 && d * d <= p * q
    ensures 2.0 * x * y * d <= x * x * q + y * y * p
  {
    var u, w := x * x * q, y * y * p;
    var t := x * y * d;
    var c := (x * y) * (x * y);
    SquareNonNegative(x);
    SquareNonNegative(y);
    SquareNonNegative(x * y);
    ScaleMonotone(x * x, q, 0.0);
    ScaleMonotone(y * y, p, 0.0);
    SquareNonNegative(u - w);
    assert (u + w) * (u + w) == (u - w) * (u - w) + 4.0 * (u * w);
    assert u * w == c * (p * q);
    assert t * t == c * (d * d);
    ScaleMonotone(c, p * q, d * d);
    assert (u + w) * (u + w) >= (2.0 * t) * (2.0 * t);
    if 2.0 * t > u + w {
      RawSquareMonotone(u + w, 2.0 * t);
    }
  }

  /** The inductive step of Cauchy-Schwarz, one coordinate (x, y) added in front of the rest. */
  lemma CauchySchwarzStep(x: real, y: real, d: real, p: real, q: real)
    requires p >= 0.0 && q >= 0.0 && Mul(d, d) <= Mul(p, q)
    ensures Mul(Mul(x, y) + d, Mul(x, y) + d) <= Mul(Mul(x, x) + p, Mul(y, y) + q)
  {
    CrossTerm(x, y, d, p, q);
    assert (x * y + d) * (x * y + d) == x * x * (y * y) + 2.0 * x * y * d + d * d;
    assert (x * x + p) * (y * y + q) == x * x * (y * y) + x * x * q + y * y * p + p * q;
  }

  /** Cauchy-Schwarz: (a.b)^2 <= (a.a)(b.b). */
  lemma {:induction false} CauchySchwarz(a: seq<real>, b: seq<real>)
    requires |a| == |b|
    ensures Mul(Dot(a, b), Dot(a, b)) <= Mul(Dot(a, a), Dot(b, b))
  {
    if |a| > 0 {
      var A, B := a[1..], b[1..];
      CauchySchwarz(A, B);
      DotSelf(A);
      DotSelf(B);
      CauchySchwarzStep(a[0], b[0], Dot(A, B), Dot(A, A), Dot(B, B));
    }
  }

  lemma SquareOfNegation(x: real)
    ensures Mul(-x, -x) == Mul(x, x)
  {
  }

  lemma SquareOfProduct(a: real, b: real)
    ensures Mul(Mul(a, b), Mul(a, b)) == Mul(Mul(a, a), Mul(b, b))
  {
  }

  /** |d| <= m whenever d^2 <= m^2 and m is positive. */
  lemma RootBound(d: real, m: real)
    requires m > 0.0 && Mul(d, d) <= Mul(m, m)
    ensures -m <= d <= m
  {
    if d > m {
      SquareMonotone(m, d);
    }
    if d < -m {
      SquareMonotone(m, -d);
      SquareOfNegation(d);
    }
  }

  lemma QuotientBounded(d: real, m: real)
    requires m > 0.0 && -m <= d <= m
    ensures -1.0 <= d / m <= 1.0
  {
    assert d / m * m == d;
  }

  /** Over exact reals the score always lies in [-1, 1]. */
  lemma CosineBounded(a: seq<real>, b: seq<real>, sqrt: real -> real)
    requires IsSqrt(sqrt)
    ensures -1.0 <= Cosine(a, b, sqrt) <= 1.0
  {
    if |a| == |b| && |a| > 0 {
      DotSelf(a);
      DotSelf(b);
      var P, Q := Dot(a, a), Dot(b, b);
      var na, nb := sqrt(P), sqrt(Q);
      if na != 0.0 && nb != 0.0 {
        var m := Mul(na, nb);
        PositiveTimesPositive(na, nb);
        SquareOfProduct(na, nb);
        assert Mul(m, m) == Mul(P, Q);
        CauchySchwarz(a, b);
        RootBound(Dot(a, b), m);
        QuotientBounded(Dot(a, b), m);
      }
    }
  }
}
