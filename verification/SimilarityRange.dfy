/** Which numbers are similarities: embeddings with a given similarity to the first unit vector. */
module SimilarityRange {

  import opened Sequences
  import opened Similarity

  lemma {:induction false} DotConcat(a: Vector, b: Vector)
    ensures Dot(a + b, a + b) == Dot(a, a) + Dot(b, b)
  {
    if a == [] {
      assert a + b == b;
    } else {
      assert (a + b)[1..] == a[1..] + b;
      DotConcat(a[1..], b);
    }
  }

  lemma {:induction false} DotOnes(n: nat)
    ensures Dot(Repeat(n, 1.0), Repeat(n, 1.0)) == n as real
  {
    if n > 0 {
      assert Repeat(n, 1.0)[1..] == Repeat(n - 1, 1.0);
      DotOnes(n - 1);
    }
  }

  /** Numbers whose squares add up to n: the digits of n in base four. */
  function Roots(n: nat): Vector {
    if n == 0 then [] else Scale(2.0, Roots(n / 4)) + Repeat(n % 4, 1.0)
  }

  lemma {:induction false} RootsAddUp(n: nat)
    ensures Dot(Roots(n), Roots(n)) == n as real
  {
    if n > 0 {
      var high := Roots(n / 4);
      RootsAddUp(n / 4);
      DotScale(2.0, high, Scale(2.0, high));
      DotSymmetric(high, Scale(2.0, high));
      DotScale(2.0, high, high);
      DotOnes(n % 4);
      DotConcat(Scale(2.0, high), Repeat(n % 4, 1.0));
    }
  }

  function FourToThe(k: nat): nat {
    if k == 0 then 1 else 4 * FourToThe(k - 1)
  }

  lemma {:induction false} RootsAreFew(n: nat, k: nat)
    requires n < FourToThe(k)
    ensures |Roots(n)| <= 3 * k
  {
    if n > 0 {
      RootsAreFew(n / 4, k - 1);
    }
  }

  /** The first unit vector. */
  function Axis(dim: nat): (v: Vector)
    requires dim >= 1
    ensures |v| == dim
  {
    [1.0] + Repeat(dim - 1, 0.0)
  }

  function Padded(v: Vector, dim: nat): (w: Vector)
    requires |v| <= dim
    ensures |w| == dim
  {
    v + Repeat(dim - |v|, 0.0)
  }

  /** Against the first unit vector, a vector's similarity is its first coordinate over its norm. */
  lemma CosineWithAxis(v: Vector, q: real, dim: nat)
    requires 1 <= |v| <= dim && IsNorm(v, q) && q > 0.0
    ensures IsNorm(Axis(dim), 1.0) && IsNorm(Padded(v, dim), q)
    ensures Cosine(Axis(dim), Padded(v, dim), 1.0, q) == v[0] / q
  {
    var axis, w := Axis(dim), Padded(v, dim);
    assert axis[1..] == Repeat(dim - 1, 0.0);
    DotWithZero(axis[1..], axis[1..]);
    DotWithZero(axis[1..], w[1..]);
    DotConcat(v, Repeat(dim - |v|, 0.0));
    DotWithZero(Repeat(dim - |v|, 0.0), Repeat(dim - |v|, 0.0));
  }

  lemma RealSquare(m: int, square: int)
    requires square == m * m
    ensures square as real == m as real * m as real
  {
  }

  lemma RationalNorm(m: int, n: int, rest: nat, mm: int, nn: int)
    requires n >= 1 && mm == m * m && nn == n * n && rest + mm == nn
    ensures IsNorm([m as real] + Roots(rest), n as real)
  {
    RootsAddUp(rest);
    var v := [m as real] + Roots(rest);
    assert v[1..] == Roots(rest);
    RealSquare(m, mm);
    RealSquare(n, nn);
  }

  lemma SquareAtMost(m: int, n: int, mm: int, nn: int)
    requires -n <= m <= n && mm == m * m && nn == n * n
    ensures 0 <= mm <= nn
  {
    assert nn - mm == (n - m) * (n + m);
  }

  lemma FourToTheFifteenth()
    ensures FourToThe(15) == 1073741824
  {
    assert FourToThe(5) == 1024;
    assert FourToThe(10) == 1048576;
  }

  lemma GridVector(m: int) returns (v: Vector)
    requires -20000 <= m <= 20000
    ensures 1 <= |v| <= 46 && v[0] == m as real && IsNorm(v, 20000.0)
  {
    var mm := m * m;
    SquareAtMost(m, 20000, mm, 400000000);
    var rest := 400000000 - mm;
    RationalNorm(m, 20000, rest, mm, 400000000);
    FourToTheFifteenth();
    RootsAreFew(rest, 15);
    v := [m as real] + Roots(rest);
  }

  /** Every multiple of 1/20000 from -1 to 1 is a similarity, in any dimension from 46. */
  lemma SimilarityExactly(m: int, dim: nat) returns (v: Vector, q: real)
    requires -20000 <= m <= 20000 && dim >= 46
    ensures |v| == dim && IsNorm(Axis(dim), 1.0) && IsNorm(v, q)
    ensures Cosine(Axis(dim), v, 1.0, q) == m as real / 20000.0
  {
    var w := GridVector(m);
    CosineWithAxis(w, 20000.0, dim);
    v, q := Padded(w, dim), 20000.0;
  }

  lemma ScaledLess(x: real, y: real, k: real)
    requires k > 0.0
    ensures x < y <==> x * k < y * k
  {
    if x < y {
      assert (y - x) * k > 0.0;
    } else {
      assert (x - y) * k >= 0.0;
    }
  }

  lemma RootAtMost(x: real, A: real, xx: real)
    requires 0.0 <= x && xx == x * x && xx <= A
    ensures x <= A + 1.0
  {
    if x > 1.0 {
      ScaledLess(1.0, x, x);
    }
  }

  lemma OneStep(x: real, d: real, A: real, B: real)
    requires 0.0 <= x <= A + 1.0 && x * x <= A && 0.0 < d <= 1.0 && (2.0 * A + 4.0) * d <= B - A
    ensures (x + d) * (x + d) < B
  {
    assert (x + d) * (x + d) == x * x + (2.0 * x + d) * d;
    ScaledLess(2.0 * x + d, 2.0 * A + 4.0, d);
  }

  lemma NextMultiple(k: nat, d: real, x: real)
    requires x == k as real * d && d > 0.0
    ensures x >= 0.0 && x + d == (k + 1) as real * d
  {
    assert (k + 1) as real == k as real + 1.0;
  }

  lemma FewerSteps(k: nat, n: nat, d: real, x: real, end: real)
    requires x == k as real * d && end == n as real * d && d > 0.0 && x < end
    ensures k < n
  {
    ScaledLess(k as real, n as real, d);
  }

  lemma ClimbStep(k: nat, n: nat, d: real, A: real, B: real, x: real, end: real)
    requires x == k as real * d && end == n as real * d && end > A + 1.0 && x * x <= A
    requires 0.0 < d <= 1.0 && (2.0 * A + 4.0) * d <= B - A
    ensures k < n && x >= 0.0 && x + d == (k + 1) as real * d && (x + d) * (x + d) < B
  {
    NextMultiple(k, d, x);
    RootAtMost(x, A, x * x);
    OneStep(x, d, A, B);
    FewerSteps(k, n, d, x, end);
  }

  /** Steps of d, k of them made and at most n to make, reach a number whose square lies
      between A and B. */
  lemma {:induction false} Climb(k: nat, n: nat, d: real, A: real, B: real, x: real, end: real) returns (s: real)
    requires x == k as real * d && end == n as real * d && end > A + 1.0 && x * x <= A
    requires 0.0 < d <= 1.0 && (2.0 * A + 4.0) * d <= B - A
    ensures s > 0.0 && A < s * s < B
    decreases n - k
  {
    ClimbStep(k, n, d, A, B, x, end);
    s := x + d;
    if s * s <= A {
      s := Climb(k + 1, n, d, A, B, s, end);
    }
  }

  lemma StepsPast(d: real, reach: real) returns (n: nat)
    requires d > 0.0 && reach >= 0.0
    ensures n as real * d > reach
  {
    var r := reach / d;
    assert r * d == reach;
    assert r >= 0.0;
    n := r.Floor + 1;
    ScaledLess(r, n as real, d);
  }

  lemma StepSize(A: real, gap: real) returns (d: real)
    requires A >= 0.0 && gap > 0.0
    ensures 0.0 < d <= 1.0 && (2.0 * A + 4.0) * d <= gap
  {
    var m := 2.0 * A + 4.0;
    d := gap / m;
    assert d * m == gap;
    assert d > 0.0;
    if d > 1.0 {
      ScaledLess(1.0, d, m);
      d := 1.0;
    }
  }

  lemma SquareBetween(A: real, B: real) returns (s: real)
    requires 0.0 <= A < B
    ensures s > 0.0 && A < s * s < B
  {
    var d := StepSize(A, B - A);
    var n := StepsPast(d, A + 1.0);
    s := Climb(0, n, d, A, B, 0.0, n as real * d);
  }

  lemma Quotient(x: real, y: real, r: real)
    requires y > 0.0 && r == x / y
    ensures r * y == x
  {
  }

  lemma Fraction(x: real, y: real, r: real, z: real)
    requires y > 0.0 && r == x / y
    ensures (r < z <==> x < z * y) && (z < r <==> z * y < x)
  {
    Quotient(x, y, r);
    ScaledLess(r, z, y);
    ScaledLess(z, r, y);
  }

  lemma DotTwo(a: real, b: real)
    ensures Dot([a, b], [a, b]) == a * a + b * b
  {
    assert [a, b][1..] == [b] && [b][1..] == [];
    assert Dot([b], [b]) == b * b + Dot([b][1..], [b][1..]);
  }

  /** The point of the unit circle that has slope s from (-1, 0), and the cosine there. */
  lemma CirclePoint(s: real, e: real)
    requires e == s * s
    ensures IsNorm([1.0 - e, 2.0 * s], 1.0 + e) && e >= 0.0
  {
    Square(s, e);
    DotTwo(1.0 - e, 2.0 * s);
    assert (2.0 * s) * (2.0 * s) == 4.0 * e;
    assert (1.0 + e) * (1.0 + e) == (1.0 - e) * (1.0 - e) + 4.0 * e;
  }

  function Slope(c: real): real
    requires c > -1.0
  {
    (1.0 - c) / (1.0 + c)
  }

  /** Cosines and squared slopes correspond, in opposite order. */
  lemma SlopeOrder(c: real, e: real)
    requires c > -1.0 && e >= 0.0
    ensures Slope(c) < e <==> (1.0 - e) / (1.0 + e) < c
    ensures e < Slope(c) <==> c < (1.0 - e) / (1.0 + e)
  {
    Fraction(1.0 - c, 1.0 + c, Slope(c), e);
    Fraction(1.0 - e, 1.0 + e, (1.0 - e) / (1.0 + e), c);
    assert e * (1.0 + c) == e + e * c && c * (1.0 + e) == c + e * c;
  }

  lemma SlopesOrdered(lo: real, hi: real)
    requires -1.0 < lo < hi <= 1.0
    ensures 0.0 <= Slope(hi) < Slope(lo)
  {
    var A := Slope(hi);
    Quotient(1.0 - hi, 1.0 + hi, A);
    Fraction(1.0 - hi, 1.0 + hi, A, 0.0);
    Fraction(1.0 - lo, 1.0 + lo, Slope(lo), A);
    if A > 0.0 {
      ScaledLess(1.0 + lo, 1.0 + hi, A);
    }
  }

  /** Similarities lie dense between -1 and 1, in any dimension from 2. */
  lemma SimilarityBetween(lo: real, hi: real, dim: nat) returns (v: Vector, q: real)
    requires -1.0 <= lo < hi <= 1.0 && dim >= 2
    ensures |v| == dim && IsNorm(Axis(dim), 1.0) && IsNorm(v, q)
    ensures lo < Cosine(Axis(dim), v, 1.0, q) < hi
  {
    var mid := (lo + hi) / 2.0;
    SlopesOrdered(mid, hi);
    var s := SquareBetween(Slope(hi), Slope(mid));
    var e := s * s;
    CirclePoint(s, e);
    SlopeOrder(mid, e);
    SlopeOrder(hi, e);
    CosineWithAxis([1.0 - e, 2.0 * s], 1.0 + e, dim);
    v, q := Padded([1.0 - e, 2.0 * s], dim), 1.0 + e;
  }
}
