// Real vectors and matrices, as far as covariance propagation needs them. Every identity is proved
// through the bilinear form x . (M y), which determines the matrix.
module Matrices {
  type Vector = seq<real>
  type Matrix = seq<seq<real>>

  ghost predicate Shape(m: Matrix, rows: nat, cols: nat) {
    |m| == rows && forall i :: 0 <= i < rows ==> |m[i]| == cols
  }

  // ---------------------------------------------------------------- vectors

  function Dot(a: Vector, b: Vector): real
    requires |a| == |b|
  {
    if a == [] then 0.0
    else Dot(a[..|a| - 1], b[..|b| - 1]) + a[|a| - 1] * b[|b| - 1]
  }

  function Plus(a: Vector, b: Vector): (r: Vector)
    requires |a| == |b|
    ensures |r| == |a|
  {
    seq(|a|, k requires 0 <= k < |a| => a[k] + b[k])
  }

  function Times(s: real, a: Vector): (r: Vector)
    ensures |r| == |a|
  {
    seq(|a|, k requires 0 <= k < |a| => s * a[k])
  }

  function Minus(a: Vector, b: Vector): (r: Vector)
    requires |a| == |b|
    ensures |r| == |a|
  {
    Plus(a, Times(-1.0, b))
  }

  lemma {:induction false} DotCommutes(a: Vector, b: Vector)
    requires |a| == |b|
    ensures Dot(a, b) == Dot(b, a)
  {
    if a != [] {
      DotCommutes(a[..|a| - 1], b[..|b| - 1]);
    }
  }

  lemma {:induction false} DotPlus(a: Vector, b: Vector, c: Vector)
    requires |a| == |b| == |c|
    ensures Dot(Plus(a, b), c) == Dot(a, c) + Dot(b, c)
    decreases |a|
  {
    if a != [] {
      var n := |a| - 1;
      assert Plus(a, b)[..n] == Plus(a[..n], b[..n]);
      DotPlus(a[..n], b[..n], c[..n]);
      assert (a[n] + b[n]) * c[n] == a[n] * c[n] + b[n] * c[n];
    }
  }

  lemma {:induction false} DotTimes(s: real, a: Vector, c: Vector)
    requires |a| == |c|
    ensures Dot(Times(s, a), c) == s * Dot(a, c)
    decreases |a|
  {
    if a != [] {
      var n := |a| - 1;
      assert Times(s, a)[..n] == Times(s, a[..n]) by {
        forall k | 0 <= k < n ensures Times(s, a)[..n][k] == Times(s, a[..n])[k] {
          assert a[..n][k] == a[k];
        }
      }
      DotTimes(s, a[..n], c[..n]);
      Distribute(s, Dot(a[..n], c[..n]), a[n], c[n]);
    }
  }

  lemma Distribute(s: real, d: real, x: real, y: real)
    ensures s * (d + x * y) == s * d + (s * x) * y
  {
  }

  lemma DotMinus(a: Vector, b: Vector, c: Vector)
    requires |a| == |b| == |c|
    ensures Dot(Minus(a, b), c) == Dot(a, c) - Dot(b, c)
  {
    DotPlus(a, Times(-1.0, b), c);
    DotTimes(-1.0, b, c);
  }

  // ---------------------------------------------------------------- matrices

  function Apply(m: Matrix, x: Vector): (r: Vector)
    requires Shape(m, |m|, |x|)
    ensures |r| == |m|
  {
    seq(|m|, i requires 0 <= i < |m| => Dot(m[i], x))
  }

  function Column(m: Matrix, cols: nat, j: nat): (r: Vector)
    requires Shape(m, |m|, cols) && j < cols
    ensures |r| == |m|
  {
    seq(|m|, i requires 0 <= i < |m| => m[i][j])
  }

  function Transpose(m: Matrix, cols: nat): (r: Matrix)
    requires Shape(m, |m|, cols)
    ensures Shape(r, cols, |m|)
  {
    seq(cols, j requires 0 <= j < cols => Column(m, cols, j))
  }

  // Row i of the product is the transpose of b applied to row i of a.
  function Product(a: Matrix, b: Matrix, cols: nat): (r: Matrix)
    requires Shape(a, |a|, |b|) && Shape(b, |b|, cols)
    ensures Shape(r, |a|, cols)
  {
    seq(|a|, i requires 0 <= i < |a| => Apply(Transpose(b, cols), a[i]))
  }

  function Sum(a: Matrix, b: Matrix, cols: nat): (r: Matrix)
    requires Shape(a, |a|, cols) && Shape(b, |a|, cols)
    ensures Shape(r, |a|, cols)
  {
    seq(|a|, i requires 0 <= i < |a| => Plus(a[i], b[i]))
  }

  function Scaled(s: real, a: Matrix, cols: nat): (r: Matrix)
    requires Shape(a, |a|, cols)
    ensures Shape(r, |a|, cols)
  {
    seq(|a|, i requires 0 <= i < |a| => Times(s, a[i]))
  }

  function Diagonal(d: Vector): (r: Matrix)
    ensures Shape(r, |d|, |d|)
  {
    seq(|d|, i requires 0 <= i < |d| => seq(|d|, j requires 0 <= j < |d| => if i == j then d[i] else 0.0))
  }

  function Ones(n: nat): (r: Vector)
    ensures |r| == n
  {
    seq(n, _ => 1.0)
  }

  function Identity(n: nat): (r: Matrix)
    ensures Shape(r, n, n)
  {
    Diagonal(Ones(n))
  }

  // ---------------------------------------------------------------- the bilinear form

  ghost function Form(m: Matrix, x: Vector, y: Vector): real
    requires Shape(m, |x|, |y|)
  {
    Dot(x, Apply(m, y))
  }

  // The last row of m adds its share to the transposed product.
  lemma TransposeGrows(m: Matrix, x: Vector, cols: nat)
    requires Shape(m, |x|, cols) && x != []
    ensures var n := |x| - 1;
            Apply(Transpose(m, cols), x) == Plus(Apply(Transpose(m[..n], cols), x[..n]), Times(x[n], m[n]))
  {
    var n := |x| - 1;
    var top := m[..n];
    var before, row := Apply(Transpose(top, cols), x[..n]), Times(x[n], m[n]);
    forall j | 0 <= j < cols ensures Apply(Transpose(m, cols), x)[j] == Plus(before, row)[j] {
      assert Column(m, cols, j)[..n] == Column(top, cols, j);
    }
  }

  lemma {:induction false} DotZeros(z: Vector, y: Vector)
    requires |z| == |y| && forall k :: 0 <= k < |z| ==> z[k] == 0.0
    ensures Dot(z, y) == 0.0
  {
    if z != [] {
      DotZeros(z[..|z| - 1], y[..|y| - 1]);
    }
  }

  lemma NoRows(m: Matrix, y: Vector)
    requires m == []
    ensures Dot(Apply(Transpose(m, |y|), []), y) == 0.0
  {
    var z := Apply(Transpose(m, |y|), []);
    forall j | 0 <= j < |y| ensures z[j] == 0.0 {
      assert Transpose(m, |y|)[j] == [];
    }
    DotZeros(z, y);
  }

  lemma TransposedDotGrows(m: Matrix, x: Vector, y: Vector)
    requires Shape(m, |x|, |y|) && x != []
    ensures var n := |x| - 1;
            Dot(Apply(Transpose(m, |y|), x), y) ==
            Dot(Apply(Transpose(m[..n], |y|), x[..n]), y) + Dot(Times(x[n], m[n]), y)
  {
    var n := |x| - 1;
    TransposeGrows(m, x, |y|);
    DotPlus(Apply(Transpose(m[..n], |y|), x[..n]), Times(x[n], m[n]), y);
  }

  // Moving a matrix across the dot product transposes it.
  lemma {:induction false} Adjoint(m: Matrix, x: Vector, y: Vector)
    requires Shape(m, |x|, |y|)
    ensures Form(m, x, y) == Dot(Apply(Transpose(m, |y|), x), y)
    decreases |x|
  {
    if x == [] {
      NoRows(m, y);
    } else {
      var n := |x| - 1;
      Adjoint(m[..n], x[..n], y);
      assert Apply(m, y)[..n] == Apply(m[..n], y);
      TransposedDotGrows(m, x, y);
      DotTimes(x[n], m[n], y);
    }
  }

  lemma ProductActs(a: Matrix, b: Matrix, x: Vector)
    requires Shape(a, |a|, |b|) && Shape(b, |b|, |x|)
    ensures Apply(Product(a, b, |x|), x) == Apply(a, Apply(b, x))
  {
    forall i | 0 <= i < |a| ensures Apply(Product(a, b, |x|), x)[i] == Apply(a, Apply(b, x))[i] {
      Adjoint(b, a[i], x);
    }
  }

  lemma TransposeForm(m: Matrix, x: Vector, y: Vector)
    requires Shape(m, |x|, |y|)
    ensures Form(Transpose(m, |y|), y, x) == Form(m, x, y)
  {
    Adjoint(m, x, y);
    DotCommutes(Apply(Transpose(m, |y|), x), y);
  }

  lemma ProductForm(a: Matrix, b: Matrix, x: Vector, y: Vector)
    requires Shape(a, |x|, |b|) && Shape(b, |b|, |y|)
    ensures Form(Product(a, b, |y|), x, y) == Form(a, x, Apply(b, y))
    ensures Form(Product(a, b, |y|), x, y) == Form(b, Apply(Transpose(a, |b|), x), y)
  {
    ProductActs(a, b, y);
    Adjoint(a, x, Apply(b, y));
  }

  lemma SumForm(a: Matrix, b: Matrix, x: Vector, y: Vector)
    requires Shape(a, |x|, |y|) && Shape(b, |x|, |y|)
    ensures Form(Sum(a, b, |y|), x, y) == Form(a, x, y) + Form(b, x, y)
  {
    var u, v := Apply(a, y), Apply(b, y);
    assert Apply(Sum(a, b, |y|), y) == Plus(u, v) by {
      forall i | 0 <= i < |a| ensures Apply(Sum(a, b, |y|), y)[i] == Plus(u, v)[i] {
        DotPlus(a[i], b[i], y);
      }
    }
    DotPlus(u, v, x);
    DotCommutes(Plus(u, v), x);
    DotCommutes(u, x);
    DotCommutes(v, x);
  }

  lemma ScaledForm(s: real, a: Matrix, x: Vector, y: Vector)
    requires Shape(a, |x|, |y|)
    ensures Form(Scaled(s, a, |y|), x, y) == s * Form(a, x, y)
  {
    var u := Apply(a, y);
    assert Apply(Scaled(s, a, |y|), y) == Times(s, u) by {
      forall i | 0 <= i < |a| ensures Apply(Scaled(s, a, |y|), y)[i] == Times(s, u)[i] {
        DotTimes(s, a[i], y);
      }
    }
    DotTimes(s, u, x);
    DotCommutes(Times(s, u), x);
    DotCommutes(u, x);
  }

  lemma FormMinusLeft(m: Matrix, x: Vector, a: Vector, y: Vector)
    requires |x| == |a| && Shape(m, |x|, |y|)
    ensures Form(m, Minus(x, a), y) == Form(m, x, y) - Form(m, a, y)
  {
    DotMinus(x, a, Apply(m, y));
  }

  lemma FormMinusRight(m: Matrix, x: Vector, y: Vector, b: Vector)
    requires |y| == |b| && Shape(m, |x|, |y|)
    ensures Form(m, x, Minus(y, b)) == Form(m, x, y) - Form(m, x, b)
  {
    Adjoint(m, x, y);
    Adjoint(m, x, b);
    Adjoint(m, x, Minus(y, b));
    var z := Apply(Transpose(m, |y|), x);
    DotMinus(y, b, z);
    DotCommutes(Minus(y, b), z);
    DotCommutes(y, z);
    DotCommutes(b, z);
  }

  // ---------------------------------------------------------------- basis vectors

  function Basis(n: nat, k: nat): (r: Vector)
    ensures |r| == n
  {
    seq(n, i => if i == k then 1.0 else 0.0)
  }

  lemma {:induction false} DotBasis(a: Vector, k: nat)
    ensures Dot(Basis(|a|, k), a) == if k < |a| then a[k] else 0.0
    decreases |a|
  {
    if a != [] {
      var n := |a| - 1;
      assert Basis(|a|, k)[..n] == Basis(n, k);
      DotBasis(a[..n], k);
    }
  }

  lemma FormOfBasis(m: Matrix, rows: nat, cols: nat, i: nat, j: nat)
    requires Shape(m, rows, cols) && i < rows && j < cols
    ensures Form(m, Basis(rows, i), Basis(cols, j)) == m[i][j]
  {
    DotBasis(Apply(m, Basis(cols, j)), i);
    DotBasis(m[i], j);
    DotCommutes(m[i], Basis(cols, j));
  }

  ghost predicate SameForm(a: Matrix, b: Matrix, rows: nat, cols: nat)
    requires Shape(a, rows, cols) && Shape(b, rows, cols)
  {
    forall x: Vector, y: Vector {:trigger Form(a, x, y)} {:trigger Form(b, x, y)} ::
      |x| == rows && |y| == cols ==> Form(a, x, y) == Form(b, x, y)
  }

  lemma SameFormIsEqual(a: Matrix, b: Matrix, rows: nat, cols: nat)
    requires Shape(a, rows, cols) && Shape(b, rows, cols) && SameForm(a, b, rows, cols)
    ensures a == b
  {
    forall i | 0 <= i < rows ensures a[i] == b[i] {
      forall j | 0 <= j < cols ensures a[i][j] == b[i][j] {
        FormOfBasis(a, rows, cols, i, j);
        FormOfBasis(b, rows, cols, i, j);
        assert Form(a, Basis(rows, i), Basis(cols, j)) == Form(b, Basis(rows, i), Basis(cols, j));
      }
    }
  }

  lemma {:induction false} DotAppend(a: Vector, b: Vector, c: Vector, d: Vector)
    requires |a| == |c| && |b| == |d|
    ensures Dot(a + b, c + d) == Dot(a, c) + Dot(b, d)
    decreases |b|
  {
    if b == [] {
      assert a + b == a && c + d == c;
    } else {
      var n := |b| - 1;
      assert (a + b)[..|a + b| - 1] == a + b[..n] && (c + d)[..|c + d| - 1] == c + d[..n];
      DotAppend(a, b[..n], c, d[..n]);
    }
  }

  // ---------------------------------------------------------------- symmetric positive semidefinite

  ghost predicate Symmetric(m: Matrix, n: nat)
    requires Shape(m, n, n)
  {
    Transpose(m, n) == m
  }

  ghost predicate Nonnegative(m: Matrix, n: nat)
    requires Shape(m, n, n)
  {
    forall x: Vector {:trigger Form(m, x, x)} :: |x| == n ==> Form(m, x, x) >= 0.0
  }

  // A covariance matrix.
  ghost predicate Covariance(m: Matrix, n: nat) {
    Shape(m, n, n) && Symmetric(m, n) && Nonnegative(m, n)
  }

  lemma SymmetricForm(m: Matrix, n: nat, x: Vector, y: Vector)
    requires Shape(m, n, n) && Symmetric(m, n) && |x| == |y| == n
    ensures Form(m, x, y) == Form(m, y, x)
  {
    TransposeForm(m, x, y);
  }

  lemma FormSymmetric(m: Matrix, n: nat)
    requires Shape(m, n, n)
    requires forall x: Vector, y: Vector {:trigger Form(m, x, y)} :: |x| == n && |y| == n ==>
             Form(m, x, y) == Form(m, y, x)
    ensures Symmetric(m, n)
  {
    forall x: Vector, y: Vector | |x| == n && |y| == n ensures Form(Transpose(m, n), x, y) == Form(m, x, y) {
      TransposeForm(m, y, x);
    }
    SameFormIsEqual(Transpose(m, n), m, n, n);
  }

  // The matrix 0.5 * (m + m^T) that the filter stores.
  function Symmetrised(m: Matrix, n: nat): (r: Matrix)
    requires Shape(m, n, n)
    ensures Shape(r, n, n)
  {
    Scaled(0.5, Sum(m, Transpose(m, n), n), n)
  }

  lemma SymmetrisedForm(m: Matrix, n: nat, x: Vector, y: Vector)
    requires Shape(m, n, n) && |x| == |y| == n
    ensures Form(Symmetrised(m, n), x, y) == 0.5 * (Form(m, x, y) + Form(m, y, x))
  {
    ScaledForm(0.5, Sum(m, Transpose(m, n), n), x, y);
    SumForm(m, Transpose(m, n), x, y);
    TransposeForm(m, y, x);
  }

  // Symmetrising makes any matrix symmetric, keeps its quadratic form, and changes no symmetric matrix.
  lemma SymmetrisedIsSymmetric(m: Matrix, n: nat)
    requires Shape(m, n, n)
    ensures Symmetric(Symmetrised(m, n), n)
    ensures Nonnegative(m, n) ==> Covariance(Symmetrised(m, n), n)
  {
    var s := Symmetrised(m, n);
    forall x: Vector, y: Vector | |x| == n && |y| == n ensures Form(s, x, y) == Form(s, y, x) {
      SymmetrisedForm(m, n, x, y);
      SymmetrisedForm(m, n, y, x);
    }
    FormSymmetric(s, n);
    forall x: Vector | |x| == n ensures Form(s, x, x) == Form(m, x, x) {
      SymmetrisedForm(m, n, x, x);
    }
  }

  lemma SymmetricIsUnchanged(m: Matrix, n: nat)
    requires Shape(m, n, n) && Symmetric(m, n)
    ensures Symmetrised(m, n) == m
  {
    forall x: Vector, y: Vector | |x| == n && |y| == n ensures Form(Symmetrised(m, n), x, y) == Form(m, x, y) {
      SymmetrisedForm(m, n, x, y);
      SymmetricForm(m, n, x, y);
    }
    SameFormIsEqual(Symmetrised(m, n), m, n, n);
  }

  // ---------------------------------------------------------------- congruence and diagonals

  // a m a^T
  function Congruent(a: Matrix, m: Matrix, k: nat, n: nat): (r: Matrix)
    requires Shape(a, k, n) && Shape(m, n, n)
    ensures Shape(r, k, k)
  {
    Product(Product(a, m, n), Transpose(a, n), k)
  }

  lemma CongruentForm(a: Matrix, m: Matrix, k: nat, n: nat, x: Vector, y: Vector)
    requires Shape(a, k, n) && Shape(m, n, n) && |x| == |y| == k
    ensures Form(Congruent(a, m, k, n), x, y) ==
            Form(m, Apply(Transpose(a, n), x), Apply(Transpose(a, n), y))
  {
    var at := Transpose(a, n);
    ProductForm(Product(a, m, n), at, x, y);
    ProductForm(a, m, x, Apply(at, y));
  }

  lemma CongruentKeepsCovariance(a: Matrix, m: Matrix, k: nat, n: nat)
    requires Shape(a, k, n) && Covariance(m, n)
    ensures Covariance(Congruent(a, m, k, n), k)
  {
    var r := Congruent(a, m, k, n);
    forall x: Vector, y: Vector | |x| == k && |y| == k ensures Form(r, x, y) == Form(r, y, x) {
      CongruentForm(a, m, k, n, x, y);
      CongruentForm(a, m, k, n, y, x);
      SymmetricForm(m, n, Apply(Transpose(a, n), x), Apply(Transpose(a, n), y));
    }
    FormSymmetric(r, k);
    forall x: Vector | |x| == k ensures Form(r, x, x) >= 0.0 {
      CongruentForm(a, m, k, n, x, x);
    }
  }

  lemma SumIsSymmetric(a: Matrix, b: Matrix, n: nat)
    requires Shape(a, n, n) && Shape(b, n, n) && Symmetric(a, n) && Symmetric(b, n)
    ensures Symmetric(Sum(a, b, n), n)
  {
    var s := Sum(a, b, n);
    forall x: Vector, y: Vector | |x| == n && |y| == n ensures Form(s, x, y) == Form(s, y, x) {
      SumForm(a, b, x, y);
      SumForm(a, b, y, x);
      SymmetricForm(a, n, x, y);
      SymmetricForm(b, n, x, y);
    }
    FormSymmetric(s, n);
  }

  lemma SumIsNonnegative(a: Matrix, b: Matrix, n: nat)
    requires Shape(a, n, n) && Shape(b, n, n) && Nonnegative(a, n) && Nonnegative(b, n)
    ensures Nonnegative(Sum(a, b, n), n)
  {
    forall x: Vector | |x| == n ensures Form(Sum(a, b, n), x, x) >= 0.0 {
      SumForm(a, b, x, x);
    }
  }

  lemma SumKeepsCovariance(a: Matrix, b: Matrix, n: nat)
    requires Covariance(a, n) && Covariance(b, n)
    ensures Covariance(Sum(a, b, n), n)
  {
    SumIsSymmetric(a, b, n);
    SumIsNonnegative(a, b, n);
  }

  lemma {:induction false} DiagonalSquares(d: Vector, x: Vector, y: Vector)
    requires |d| == |x| == |y| && (forall k :: 0 <= k < |d| ==> d[k] >= 0.0)
    requires forall k :: 0 <= k < |d| ==> y[k] == d[k] * x[k]
    ensures Dot(x, y) >= 0.0
    decreases |d|
  {
    if d != [] {
      var n := |d| - 1;
      DiagonalSquares(d[..n], x[..n], y[..n]);
      NonnegativeSquare(d[n], x[n]);
    }
  }

  lemma NonnegativeSquare(d: real, x: real)
    requires d >= 0.0
    ensures x * (d * x) >= 0.0
  {
    assert x * x >= 0.0;
    assert x * (d * x) == d * (x * x);
  }

  lemma DiagonalApplied(d: Vector, x: Vector, i: nat)
    requires |d| == |x| && i < |d|
    ensures Apply(Diagonal(d), x)[i] == d[i] * x[i]
  {
    var row := Diagonal(d)[i];
    assert row == Times(d[i], Basis(|d|, i)) by {
      forall j | 0 <= j < |d| ensures row[j] == Times(d[i], Basis(|d|, i))[j] {
      }
    }
    DotTimes(d[i], Basis(|d|, i), x);
    DotBasis(x, i);
  }

  lemma DiagonalIsCovariance(d: Vector)
    requires forall k :: 0 <= k < |d| ==> d[k] >= 0.0
    ensures Covariance(Diagonal(d), |d|)
  {
    var m, n := Diagonal(d), |d|;
    assert Transpose(m, n) == m by {
      forall i | 0 <= i < n ensures Transpose(m, n)[i] == m[i] {
        assert forall j :: 0 <= j < n ==> Transpose(m, n)[i][j] == m[j][i] == m[i][j];
      }
    }
    forall x: Vector | |x| == n ensures Form(m, x, x) >= 0.0 {
      forall k | 0 <= k < n ensures Apply(m, x)[k] == d[k] * x[k] {
        DiagonalApplied(d, x, k);
      }
      DiagonalSquares(d, x, Apply(m, x));
    }
  }

  lemma IdentityActs(x: Vector)
    ensures Apply(Identity(|x|), x) == x
  {
    forall i | 0 <= i < |x| ensures Apply(Identity(|x|), x)[i] == x[i] {
      DiagonalApplied(Ones(|x|), x, i);
    }
  }
}
