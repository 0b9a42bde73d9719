/** Cosine similarity of embeddings, over exact reals.

    The Euclidean norm is computed by a numerical library; it enters as the number whose
    square is the sum of squares.
 */
module Similarity {

  type Vector = seq<real>

  function Dot(a: Vector, b: Vector): real
    requires |a| == |b|
  {
    if a == [] then 0.0 else a[0] * b[0] + Dot(a[1..], b[1..])
  }

  ghost predicate IsNorm(v: Vector, n: real) {
    n >= 0.0 && n * n == Dot(v, v)
  }

  function Cosine(a: Vector, b: Vector, normA: real, normB: real): real
    requires |a| == |b|
  {
    if normA == 0.0 || normB == 0.0 then 0.0 else Dot(a, b) / (normA * normB)
  }

  /** x * a + y * b */
  function Mix(x: real, a: Vector, y: real, b: Vector): (m: Vector)
    requires |a| == |b|
    ensures |m| == |a|
  {
    if a == [] then [] else [x * a[0] + y * b[0]] + Mix(x, a[1..], y, b[1..])
  }

  function Scale(k: real, v: Vector): (m: Vector)
    ensures |m| == |v|
  {
    if v == [] then [] else [k * v[0]] + Scale(k, v[1..])
  }

  lemma {:induction false} DotSymmetric(a: Vector, b: Vector)
    requires |a| == |b|
    ensures Dot(a, b) == Dot(b, a)
  {
    if a != [] {
      DotSymmetric(a[1..], b[1..]);
    }
  }

  lemma Distribute(k: real, x: real, y: real, z: real)
    ensures k * (x * y + z) == (k * x) * y + k * z
  {
  }

  lemma {:induction false} DotScale(k: real, a: Vector, b: Vector)
    requires |a| == |b|
    ensures Dot(Scale(k, a), b) == k * Dot(a, b)
  {
    if a != [] {
      DotScale(k, a[1..], b[1..]);
      Distribute(k, a[0], b[0], Dot(a[1..], b[1..]));
      assert Scale(k, a)[1..] == Scale(k, a[1..]);
    }
  }

  /** One coordinate of `DotOfMix`. */
  lemma MixStep(x: real, p: real, y: real, q: real, m: real, A: real, S: real, B: real)
    requires m == x * p + y * q
    ensures m * m + Quadratic(x, y, A, S, B)
         == Quadratic(x, y, p * p + A, p * q + S, q * q + B)
  {
  }

  function Quadratic(x: real, y: real, A: real, S: real, B: real): real {
    x * x * A + 2.0 * x * y * S + y * y * B
  }

  lemma {:induction false} DotOfMix(x: real, a: Vector, y: real, b: Vector)
    requires |a| == |b|
    ensures Dot(Mix(x, a, y, b), Mix(x, a, y, b)) == Quadratic(x, y, Dot(a, a), Dot(a, b), Dot(b, b))
  {
    if a != [] {
      var m := Mix(x, a, y, b);
      assert m[0] == x * a[0] + y * b[0] && m[1..] == Mix(x, a[1..], y, b[1..]);
      DotOfMix(x, a[1..], y, b[1..]);
      MixStep(x, a[0], y, b[0], m[0], Dot(a[1..], a[1..]), Dot(a[1..], b[1..]), Dot(b[1..], b[1..]));
    }
  }

  lemma PositiveProduct(x: real, y: real, q: real)
    requires x > 0.0 && y > 0.0 && q == x * y
    ensures q > 0.0
  {
  }

  lemma Square(x: real, q: real)
    requires q == x * x
    ensures q >= 0.0
    ensures x != 0.0 ==> q > 0.0
    ensures x == 0.0 ==> q == 0.0
  {
    if x < 0.0 {
      assert q == (-x) * (-x);
      PositiveProduct(-x, -x, q);
    } else if x > 0.0 {
      PositiveProduct(x, x, q);
    } else {
      assert x == 0.0;
    }
  }

  ghost predicate IsZero(v: Vector) {
    forall i :: 0 <= i < |v| ==> v[i] == 0.0
  }

  lemma {:induction false} DotWithItself(v: Vector)
    ensures Dot(v, v) >= 0.0
    ensures Dot(v, v) == 0.0 <==> IsZero(v)
  {
    if v != [] {
      var q := v[0] * v[0];
      DotWithItself(v[1..]);
      Square(v[0], q);
      assert Dot(v, v) == q + Dot(v[1..], v[1..]);
      assert v == [v[0]] + v[1..];
      assert IsZero(v) <==> v[0] == 0.0 && IsZero(v[1..]) by {
        assert forall i :: 0 <= i < |v[1..]| ==> v[1..][i] == v[i + 1];
      }
    }
  }

  lemma PositiveFactor(x: real, y: real)
    requires x > 0.0 && x * y >= 0.0
    ensures y >= 0.0
  {
  }

  /** The square of q a + y b, for norms p and q and y one of p and -p. */
  function Gap(p: real, q: real, y: real, d: real): real {
    2.0 * (p * q) * (p * q) + 2.0 * (q * y) * d
  }

  lemma NormArithmetic(p: real, q: real, y: real, A: real, S: real, B: real)
    requires (y == p || y == -p) && A == p * p && B == q * q
    ensures Quadratic(q, y, A, S, B) == Gap(p, q, y, S)
  {
  }

  lemma MixOfNormed(a: Vector, b: Vector, p: real, q: real, y: real)
    requires |a| == |b| && IsNorm(a, p) && IsNorm(b, q) && (y == p || y == -p)
    ensures Dot(Mix(q, a, y, b), Mix(q, a, y, b)) == Gap(p, q, y, Dot(a, b))
    ensures Gap(p, q, y, Dot(a, b)) >= 0.0
  {
    DotOfMix(q, a, y, b);
    NormArithmetic(p, q, y, Dot(a, a), Dot(a, b), Dot(b, b));
    DotWithItself(Mix(q, a, y, b));
  }

  lemma FromSquares(p: real, q: real, d: real)
    requires p > 0.0 && q > 0.0 && Gap(p, q, p, d) >= 0.0 && Gap(p, q, -p, d) >= 0.0
    ensures -(p * q) <= d <= p * q
  {
    var m := p * q;
    assert q * p == m && q * (-p) == -m && m > 0.0;
    assert 2.0 * m * m + 2.0 * m * d == 2.0 * m * (m + d);
    assert 2.0 * m * m + 2.0 * (-m) * d == 2.0 * m * (m - d);
    PositiveFactor(2.0 * m, m + d);
    PositiveFactor(2.0 * m, m - d);
  }

  /** The Cauchy-Schwarz inequality, for vectors of any dimension. */
  lemma CauchySchwarz(a: Vector, b: Vector, p: real, q: real)
    requires |a| == |b| && IsNorm(a, p) && IsNorm(b, q) && p > 0.0 && q > 0.0
    ensures -(p * q) <= Dot(a, b) <= p * q
  {
    MixOfNormed(a, b, p, q, p);
    MixOfNormed(a, b, p, q, -p);
    FromSquares(p, q, Dot(a, b));
  }

  lemma DivideBound(d: real, m: real)
    requires m > 0.0 && -m <= d <= m
    ensures -1.0 <= d / m <= 1.0
  {
  }

  /** Similarity always lies between -1 and 1. */
  lemma CosineBounded(a: Vector, b: Vector, p: real, q: real)
    requires |a| == |b| && IsNorm(a, p) && IsNorm(b, q)
    ensures -1.0 <= Cosine(a, b, p, q) <= 1.0
  {
    if p != 0.0 && q != 0.0 {
      CauchySchwarz(a, b, p, q);
      DivideBound(Dot(a, b), p * q);
    }
  }

  lemma CosineSymmetric(a: Vector, b: Vector, p: real, q: real)
    requires |a| == |b|
    ensures Cosine(a, b, p, q) == Cosine(b, a, q, p)
  {
    DotSymmetric(a, b);
    assert p * q == q * p;
  }

  lemma CancelFactor(k: real, d: real, p: real, q: real)
    requires k > 0.0 && p > 0.0 && q > 0.0
    ensures (k * d) / ((k * p) * q) == d / (p * q)
  {
  }

  /** Scaling an embedding by a positive number scales its norm and keeps every similarity. */
  lemma CosineScaled(k: real, a: Vector, b: Vector, p: real, q: real)
    requires |a| == |b| && k > 0.0 && IsNorm(a, p) && q >= 0.0
    ensures IsNorm(Scale(k, a), k * p)
    ensures Cosine(Scale(k, a), b, k * p, q) == Cosine(a, b, p, q)
  {
    DotScale(k, a, b);
    DotScale(k, a, Scale(k, a));
    DotSymmetric(a, Scale(k, a));
    DotScale(k, a, a);
    assert (k * p) * (k * p) == k * (k * (p * p));
    if p != 0.0 && q != 0.0 {
      CancelFactor(k, Dot(a, b), p, q);
    }
  }

  lemma {:induction false} DotWithZero(a: Vector, b: Vector)
    requires |a| == |b| && IsZero(a)
    ensures Dot(a, b) == 0.0
  {
    if a != [] {
      DotWithZero(a[1..], b[1..]);
    }
  }

  /** The product with the unit vector of a coordinate is that coordinate; with `DotScale` and
      `DotAdds` this is all there is to the product. */
  lemma {:induction false} DotWithUnit(a: Vector, b: Vector, k: nat)
    requires |a| == |b| && k < |a| && a[k] == 1.0 && forall i :: 0 <= i < |a| && i != k ==> a[i] == 0.0
    ensures Dot(a, b) == b[k]
  {
    if k == 0 {
      DotWithZero(a[1..], b[1..]);
    } else {
      DotWithUnit(a[1..], b[1..], k - 1);
    }
  }

  lemma {:induction false} DotAdds(a: Vector, b: Vector, c: Vector)
    requires |a| == |b| == |c|
    ensures Dot(Mix(1.0, a, 1.0, b), c) == Dot(a, c) + Dot(b, c)
  {
    if a != [] {
      var m := Mix(1.0, a, 1.0, b);
      assert m[0] == a[0] + b[0] && m[1..] == Mix(1.0, a[1..], 1.0, b[1..]);
      DotAdds(a[1..], b[1..], c[1..]);
    }
  }

  /** Similarity is the product over the norms, and 0 if a norm is 0. */
  lemma {:induction false} CosineTimesNorms(a: Vector, b: Vector, p: real, q: real)
    requires |a| == |b|
    ensures p != 0.0 && q != 0.0 ==> Cosine(a, b, p, q) * (p * q) == Dot(a, b)
    ensures p == 0.0 || q == 0.0 ==> Cosine(a, b, p, q) == 0.0
  {
    if p != 0.0 && q != 0.0 {
      Quotient(Dot(a, b), p, q, p * q);
    }
  }

  lemma Quotient(d: real, p: real, q: real, m: real)
    requires p != 0.0 && q != 0.0 && m == p * q
    ensures m != 0.0 && d / m * m == d
  {
  }

  lemma {:induction false} MixIsZero(q: real, a: Vector, p: real, b: Vector)
    requires |a| == |b| && q > 0.0
    ensures IsZero(Mix(q, a, -p, b)) <==> a == Scale(p / q, b)
  {
    if a != [] {
      var k := p / q;
      MixIsZero(q, a[1..], p, b[1..]);
      var m := Mix(q, a, -p, b);
      assert m[0] == q * a[0] - p * b[0] && m[1..] == Mix(q, a[1..], -p, b[1..]);
      assert IsZero(m) <==> m[0] == 0.0 && IsZero(m[1..]) by {
        assert forall i :: 0 <= i < |m[1..]| ==> m[1..][i] == m[i + 1];
      }
      assert p == k * q;
      assert m[0] == q * (a[0] - k * b[0]);
      assert m[0] == 0.0 <==> a[0] == k * b[0];
      assert a == [a[0]] + a[1..];
      assert Scale(k, b)[0] == k * b[0] && Scale(k, b)[1..] == Scale(k, b[1..]);
    }
  }

  /** Similarity is 1 exactly for vectors that point the same way: one is the other times the
      ratio of their norms. */
  lemma CosineOneExactly(a: Vector, b: Vector, p: real, q: real)
    requires |a| == |b| && IsNorm(a, p) && IsNorm(b, q) && p > 0.0 && q > 0.0
    ensures Cosine(a, b, p, q) == 1.0 <==> a == Scale(p / q, b)
  {
    MixOfNormed(a, b, p, q, -p);
    DotWithItself(Mix(q, a, -p, b));
    MixIsZero(q, a, p, b);
    GapIsZero(p, q, Dot(a, b));
  }

  lemma GapIsZero(p: real, q: real, d: real)
    requires p > 0.0 && q > 0.0
    ensures Gap(p, q, -p, d) == 0.0 <==> d / (p * q) == 1.0
  {
    var m := p * q;
    assert q * (-p) == -m && m > 0.0;
    assert 2.0 * m * m + 2.0 * (-m) * d == 2.0 * m * (m - d);
    assert 2.0 * m * (m - d) == 0.0 <==> m == d;
    assert d / m == 1.0 <==> d == m;
  }

  lemma Ratio(x: real, y: real)
    requires x == y && y > 0.0
    ensures x / y == 1.0
  {
  }

  /** A vector that is not zero has similarity 1 with itself; the zero vector has 0 with all. */
  lemma CosineWithItselfAndZero(a: Vector, b: Vector, p: real, q: real)
    requires |a| == |b| && IsNorm(a, p) && IsNorm(b, q)
    ensures !IsZero(a) ==> Cosine(a, a, p, p) == 1.0
    ensures IsZero(a) || IsZero(b) ==> Cosine(a, b, p, q) == 0.0
  {
    DotWithItself(a);
    DotWithItself(b);
    var pp, qq := p * p, q * q;
    Square(p, pp);
    Square(q, qq);
    if p != 0.0 {
      Ratio(Dot(a, a), pp);
    }
  }
}
