// The exponential map of rotations, given by Rodrigues' formula, and how far it is from its first-order part.
module ExponentialMap {
  import opened Basics
  import opened Matrices
  import opened EsikfModel

  // ---------------------------------------------------------------- vectors and entries

  ghost predicate EntriesWithin(v: Vector, s: real) {
    forall k :: 0 <= k < |v| ==> -s <= v[k] <= s
  }

  // x and y differ by at most d in every entry.
  ghost predicate Near(x: Vector, y: Vector, d: real) {
    |x| == |y| && forall k :: 0 <= k < |x| ==> -d <= x[k] - y[k] <= d
  }

  function Plus3(a: Vector, b: Vector, c: Vector): Vector
    requires |a| == |b| == |c|
  {
    Plus(Plus(a, b), c)
  }

  lemma ApplyPlus(m: Matrix, a: Vector, b: Vector)
    requires |a| == |b| && Shape(m, |m|, |a|)
    ensures Apply(m, Plus(a, b)) == Plus(Apply(m, a), Apply(m, b))
  {
    forall i | 0 <= i < |m| ensures Dot(m[i], Plus(a, b)) == Dot(m[i], a) + Dot(m[i], b) {
      DotCommutes(m[i], Plus(a, b));
      DotPlus(a, b, m[i]);
      DotCommutes(a, m[i]);
      DotCommutes(b, m[i]);
    }
  }

  lemma ApplyTimes(m: Matrix, s: real, a: Vector)
    requires Shape(m, |m|, |a|)
    ensures Apply(m, Times(s, a)) == Times(s, Apply(m, a))
  {
    forall i | 0 <= i < |m| ensures Dot(m[i], Times(s, a)) == Times(s, Apply(m, a))[i] {
      DotCommutes(m[i], Times(s, a));
      DotTimes(s, a, m[i]);
      DotCommutes(a, m[i]);
    }
  }

  lemma SumActs(a: Matrix, b: Matrix, x: Vector)
    requires Shape(a, |a|, |x|) && Shape(b, |a|, |x|)
    ensures Apply(Sum(a, b, |x|), x) == Plus(Apply(a, x), Apply(b, x))
  {
    forall i | 0 <= i < |a| ensures Apply(Sum(a, b, |x|), x)[i] == Plus(Apply(a, x), Apply(b, x))[i] {
      DotPlus(a[i], b[i], x);
    }
  }

  lemma ScaledActs(s: real, a: Matrix, x: Vector)
    requires Shape(a, |a|, |x|)
    ensures Apply(Scaled(s, a, |x|), x) == Times(s, Apply(a, x))
  {
    forall i | 0 <= i < |a| ensures Apply(Scaled(s, a, |x|), x)[i] == Times(s, Apply(a, x))[i] {
      DotTimes(s, a[i], x);
    }
  }

  lemma ProductWithin(x: real, y: real, b: real, s: real)
    requires -b <= x <= b && -s <= y <= s
    ensures -(b * s) <= x * y <= b * s
  {
    assert (b - x) * (s + y) >= 0.0 && (b + x) * (s - y) >= 0.0;
    assert (b - x) * (s - y) >= 0.0 && (b + x) * (s + y) >= 0.0;
  }

  // A matrix with entries up to b makes of a vector with entries up to s one with entries up to 3 b s.
  lemma AppliedWithin(r: Matrix, v: Vector, b: real, s: real)
    requires Shape(r, 3, 3) && |v| == 3 && EntriesWithin(v, s)
    requires forall i :: 0 <= i < 3 ==> EntriesWithin(r[i], b)
    ensures EntriesWithin(Apply(r, v), 3.0 * (b * s))
  {
    forall i | 0 <= i < 3 ensures -(3.0 * (b * s)) <= Apply(r, v)[i] <= 3.0 * (b * s) {
      DotOfThree(r[i], v);
      ThreeWithin(r[i][0], r[i][1], r[i][2], v[0], v[1], v[2], b, s, Dot(r[i], v));
    }
  }

  lemma ThreeWithin(x0: real, x1: real, x2: real, y0: real, y1: real, y2: real, b: real, s: real, sum: real)
    requires -b <= x0 <= b && -b <= x1 <= b && -b <= x2 <= b && -s <= y0 <= s && -s <= y1 <= s && -s <= y2 <= s
    requires sum == x0 * y0 + x1 * y1 + x2 * y2
    ensures -(3.0 * (b * s)) <= sum <= 3.0 * (b * s)
  {
    ProductWithin(x0, y0, b, s);
    ProductWithin(x1, y1, b, s);
    ProductWithin(x2, y2, b, s);
  }

  lemma CrossWithin(a: Vector, b: Vector, s: real, u: real, w: real)
    requires |a| == |b| == 3 && EntriesWithin(a, s) && EntriesWithin(b, u) && w == 2.0 * (s * u)
    ensures EntriesWithin(Cross(a, b), w)
  {
    MinorWithin(a[1], b[2], a[2], b[1], s, u, w, Cross(a, b)[0]);
    MinorWithin(a[2], b[0], a[0], b[2], s, u, w, Cross(a, b)[1]);
    MinorWithin(a[0], b[1], a[1], b[0], s, u, w, Cross(a, b)[2]);
  }

  lemma MinorWithin(x: real, y: real, z: real, v: real, s: real, u: real, w: real, minor: real)
    requires -s <= x <= s && -u <= y <= u && -s <= z <= s && -u <= v <= u
    requires w == 2.0 * (s * u) && minor == x * y - z * v
    ensures -w <= minor <= w
  {
    ProductWithin(x, y, s, u);
    ProductWithin(z, v, s, u);
  }

  // The entries of a rotation are at most 1.
  lemma OrthonormalWithin(r: Matrix)
    requires Orthonormal(r)
    ensures forall i :: 0 <= i < 3 ==> EntriesWithin(r[i], 1.0)
  {
    forall i, j | 0 <= i < 3 && 0 <= j < 3 ensures -1.0 <= r[i][j] <= 1.0 {
      ColumnIsUnit(r, j);
      SquareAtMostOne(r[0][j], r[1][j], r[2][j]);
    }
  }

  lemma ColumnIsUnit(r: Matrix, j: nat)
    requires Orthonormal(r) && j < 3
    ensures r[0][j] * r[0][j] + r[1][j] * r[1][j] + r[2][j] * r[2][j] == 1.0
  {
    var c := Column(r, 3, j);
    var p := Product(Transpose(r, 3), r, 3);
    assert p[j] == Apply(Transpose(r, 3), Transpose(r, 3)[j]) && Transpose(r, 3)[j] == c;
    assert p[j][j] == Dot(c, c) && p[j][j] == Identity(3)[j][j] == 1.0;
    DotOfThree(c, c);
  }

  lemma SquareAtMostOne(x: real, y: real, z: real)
    requires x * x + y * y + z * z == 1.0
    ensures -1.0 <= x <= 1.0 && -1.0 <= y <= 1.0 && -1.0 <= z <= 1.0
  {
    UnitSquare(x, y * y + z * z);
    UnitSquare(y, x * x + z * z);
    UnitSquare(z, x * x + y * y);
  }

  lemma SquareAboveOne(x: real)
    requires x > 1.0
    ensures x * x > 1.0
  {
    PositiveProduct(x - 1.0, x + 1.0, x * x - 1.0);
  }

  lemma UnitSquare(x: real, rest: real)
    requires x * x + rest == 1.0 && rest >= 0.0
    ensures -1.0 <= x <= 1.0
  {
    if x > 1.0 {
      SquareAboveOne(x);
    } else if x < -1.0 {
      SquareAboveOne(-x);
    }
  }

  // ---------------------------------------------------------------- Rodrigues' formula

  // I + a [theta] + b [theta] [theta].
  function RodriguesMatrix(theta: Vector, a: real, b: real): (m: Matrix)
    requires |theta| == 3
    ensures Shape(m, 3, 3)
  {
    var k := Skew(theta);
    Sum(Identity(3), Sum(Scaled(a, k, 3), Scaled(b, Product(k, k, 3), 3), 3), 3)
  }

  // What is used of a = sin x / x and b = (1 - cos x) / x^2 at x^2 = square: the first terms of their series
  // enclose them.
  predicate Coefficients(square: real, a: real, b: real) {
    1.0 - square / 6.0 <= a <= 1.0 && 0.0 <= b <= 0.5
  }

  ghost predicate Rodrigues(lib: Libraries) {
    forall theta: Vector {:trigger lib.expmap(theta)} :: |theta| == 3 ==>
      exists a, b :: Coefficients(Dot(theta, theta), a, b) && lib.expmap(theta) == RodriguesMatrix(theta, a, b)
  }

  lemma RodriguesActs(theta: Vector, a: real, b: real, v: Vector)
    requires |theta| == |v| == 3
    ensures Apply(RodriguesMatrix(theta, a, b), v) ==
            Plus(v, Plus(Times(a, Cross(theta, v)), Times(b, Cross(theta, Cross(theta, v)))))
  {
    var k := Skew(theta);
    IdentityActs(v);
    SkewIsCross(theta, v);
    SkewIsCross(theta, Cross(theta, v));
    ProductActs(k, k, v);
    ScaledActs(a, k, v);
    ScaledActs(b, Product(k, k, 3), v);
    SumActs(Scaled(a, k, 3), Scaled(b, Product(k, k, 3), 3), v);
    SumActs(Identity(3), Sum(Scaled(a, k, 3), Scaled(b, Product(k, k, 3), 3), 3), v);
  }

  // What the exponential of dtheta does to v beyond the first order: Exp(dtheta) v - v - dtheta x v.
  function Remainder(lib: Libraries, dtheta: Vector, v: Vector): (r: Vector)
    requires lib.Valid() && |dtheta| == |v| == 3
    ensures |r| == 3
  {
    Minus(Minus(Apply(lib.expmap(dtheta), v), v), Cross(dtheta, v))
  }

  // One entry: the shares of the two terms of Rodrigues' formula.
  lemma EntryWithin(a: real, b: real, square: real, c: real, d: real, s: real, w: real, z: real, bound: real)
    requires Coefficients(square, a, b) && 0.0 <= square <= 3.0 * (s * s)
    requires -w <= c <= w && -z <= d <= z && bound == 0.5 * (s * s) * w + 0.5 * z
    ensures -bound <= (a - 1.0) * c + b * d <= bound
  {
    ProductWithin(a - 1.0, c, 0.5 * (s * s), w);
    ProductWithin(b, d, 0.5, z);
  }

  lemma SquareWithin(theta: Vector, s: real)
    requires |theta| == 3 && EntriesWithin(theta, s)
    ensures 0.0 <= Dot(theta, theta) <= 3.0 * (s * s)
  {
    DotOfThree(theta, theta);
    ThreeWithin(theta[0], theta[1], theta[2], theta[0], theta[1], theta[2], s, s, Dot(theta, theta));
  }

  // What the remainder of dtheta, with entries up to s, makes at most of entries up to u.
  function SecondOrder(s: real, u: real): real {
    s * s * u * (s + 2.0)
  }

  lemma SecondOrderIs(s: real, u: real, w: real, z: real)
    requires w == 2.0 * (s * u) && z == 2.0 * (s * w)
    ensures 0.5 * (s * s) * w + 0.5 * z == SecondOrder(s, u)
  {
    assert 0.5 * (s * s) * (2.0 * (s * u)) == s * s * u * s;
    assert 0.5 * (2.0 * (s * (2.0 * (s * u)))) == s * s * u * 2.0;
  }

  lemma RemainderEntry(v: Vector, a: real, b: real, c: Vector, d: Vector, moved: Vector, i: nat)
    requires |v| == |c| == |d| == |moved| && i < |v| && moved == Plus(v, Plus(Times(a, c), Times(b, d)))
    ensures Minus(Minus(moved, v), c)[i] == (a - 1.0) * c[i] + b * d[i]
  {
    OneLessFactor(a, c[i]);
    assert moved[i] == v[i] + (a * c[i] + b * d[i]);
  }

  lemma OneLessFactor(a: real, c: real)
    ensures (a - 1.0) * c == a * c - c
  {
  }

  // What is left of v + a c + b d beyond v + c.
  lemma RemainderEntries(v: Vector, c: Vector, d: Vector, moved: Vector, a: real, b: real, square: real,
                         s: real, w: real, z: real, bound: real)
    requires |v| == |c| == |d| && moved == Plus(v, Plus(Times(a, c), Times(b, d)))
    requires Coefficients(square, a, b) && 0.0 <= square <= 3.0 * (s * s) && bound == 0.5 * (s * s) * w + 0.5 * z
    requires EntriesWithin(c, w) && EntriesWithin(d, z)
    ensures EntriesWithin(Minus(Minus(moved, v), c), bound)
  {
    forall i | 0 <= i < |v| ensures -bound <= Minus(Minus(moved, v), c)[i] <= bound {
      RemainderEntry(v, a, b, c, d, moved, i);
      EntryWithin(a, b, square, c[i], d[i], s, w, z, bound);
    }
  }

  // The remainder is of second order in the entries of dtheta.
  lemma RemainderIsSecondOrder(lib: Libraries, dtheta: Vector, v: Vector, s: real, u: real)
    requires lib.Valid() && Rodrigues(lib) && |dtheta| == |v| == 3
    requires EntriesWithin(dtheta, s) && EntriesWithin(v, u)
    ensures EntriesWithin(Remainder(lib, dtheta, v), SecondOrder(s, u))
  {
    var a, b :| Coefficients(Dot(dtheta, dtheta), a, b) && lib.expmap(dtheta) == RodriguesMatrix(dtheta, a, b);
    var w := 2.0 * (s * u);
    var z := 2.0 * (s * w);
    SquareWithin(dtheta, s);
    CrossWithin(dtheta, v, s, u, w);
    CrossWithin(dtheta, Cross(dtheta, v), s, w, z);
    SecondOrderIs(s, u, w, z);
    RodriguesActs(dtheta, a, b, v);
    RemainderEntries(v, Cross(dtheta, v), Cross(dtheta, Cross(dtheta, v)), Apply(lib.expmap(dtheta), v), a, b,
                     Dot(dtheta, dtheta), s, w, z, SecondOrder(s, u));
  }
}
