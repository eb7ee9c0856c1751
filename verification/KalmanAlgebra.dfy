// The covariance algebra of the error-state filter: propagation, the Joseph update for any gain, and
// what the update amounts to for the optimal gain.
module KalmanAlgebra {
  import opened Matrices

  // ---------------------------------------------------------------- propagation

  // 0.5 * (F P F^T + Q + transpose)
  function Propagated(p: Matrix, f: Matrix, q: Matrix, n: nat): Matrix
    requires Shape(p, n, n) && Shape(f, n, n) && Shape(q, n, n)
  {
    Symmetrised(Sum(Congruent(f, p, n, n), q, n), n)
  }

  // Propagation keeps a covariance a covariance, and the symmetrisation only undoes rounding: over the
  // reals it changes nothing.
  lemma PropagationKeepsCovariance(p: Matrix, f: Matrix, q: Matrix, n: nat)
    requires Covariance(p, n) && Shape(f, n, n) && Covariance(q, n)
    ensures Covariance(Propagated(p, f, q, n), n)
    ensures Propagated(p, f, q, n) == Sum(Congruent(f, p, n, n), q, n)
  {
    CongruentKeepsCovariance(f, p, n, n);
    SumKeepsCovariance(Congruent(f, p, n, n), q, n);
    SymmetricIsUnchanged(Sum(Congruent(f, p, n, n), q, n), n);
  }

  // ---------------------------------------------------------------- the update

  // S = H P H^T + R
  function InnovationCovariance(p: Matrix, h: Matrix, r: Matrix, n: nat, k: nat): (s: Matrix)
    requires Shape(p, n, n) && Shape(h, k, n) && Shape(r, k, k)
    ensures Shape(s, k, k)
  {
    Sum(Congruent(h, p, k, n), r, k)
  }

  // K = P H^T X, where X is what the decomposition of S returns for the identity.
  function Gain(p: Matrix, h: Matrix, x: Matrix, n: nat, k: nat): (g: Matrix)
    requires Shape(p, n, n) && Shape(h, k, n) && Shape(x, k, k)
    ensures Shape(g, n, k)
  {
    Product(Product(p, Transpose(h, n), k), x, k)
  }

  // I - K H
  function ResidualProjection(g: Matrix, h: Matrix, n: nat, k: nat): (m: Matrix)
    requires Shape(g, n, k) && Shape(h, k, n)
    ensures Shape(m, n, n)
  {
    Sum(Identity(n), Scaled(-1.0, Product(g, h, n), n), n)
  }

  // (I - K H) P (I - K H)^T + K R K^T
  function Joseph(p: Matrix, h: Matrix, r: Matrix, g: Matrix, n: nat, k: nat): (m: Matrix)
    requires Shape(p, n, n) && Shape(h, k, n) && Shape(r, k, k) && Shape(g, n, k)
    ensures Shape(m, n, n)
  {
    Sum(Congruent(ResidualProjection(g, h, n, k), p, n, n), Congruent(g, r, n, k), n)
  }

  // For any gain whatever, the Joseph form keeps a covariance a covariance.
  lemma JosephKeepsCovariance(p: Matrix, h: Matrix, r: Matrix, g: Matrix, n: nat, k: nat)
    requires Covariance(p, n) && Shape(h, k, n) && Covariance(r, k) && Shape(g, n, k)
    ensures Covariance(Joseph(p, h, r, g, n, k), n)
    ensures Symmetrised(Joseph(p, h, r, g, n, k), n) == Joseph(p, h, r, g, n, k)
  {
    CongruentKeepsCovariance(ResidualProjection(g, h, n, k), p, n, n);
    CongruentKeepsCovariance(g, r, n, k);
    SumKeepsCovariance(Congruent(ResidualProjection(g, h, n, k), p, n, n), Congruent(g, r, n, k), n);
    SymmetricIsUnchanged(Joseph(p, h, r, g, n, k), n);
  }

  lemma InnovationIsCovariance(p: Matrix, h: Matrix, r: Matrix, n: nat, k: nat)
    requires Covariance(p, n) && Shape(h, k, n) && Covariance(r, k)
    ensures Covariance(InnovationCovariance(p, h, r, n, k), k)
  {
    CongruentKeepsCovariance(h, p, k, n);
    SumKeepsCovariance(Congruent(h, p, k, n), r, k);
  }

  // ---------------------------------------------------------------- the optimal gain

  // S x S = S, as far as a singular S can be solved for. A proper inverse does so, and so does a decomposition that
  // skips the zero pivots of a semidefinite S.
  ghost predicate Solves(s: Matrix, x: Matrix, k: nat)
    requires Shape(s, k, k) && Shape(x, k, k)
  {
    forall v: Vector {:trigger Apply(s, v)} :: |v| == k ==> Apply(s, Apply(x, Apply(s, v))) == Apply(s, v)
  }

  lemma SameDotIsEqual(u: Vector, v: Vector)
    requires |u| == |v|
    requires forall y: Vector {:trigger Dot(u, y)} :: |y| == |u| ==> Dot(u, y) == Dot(v, y)
    ensures u == v
  {
    forall i | 0 <= i < |u| ensures u[i] == v[i] {
      var e := Basis(|u|, i);
      assert Dot(u, e) == Dot(v, e);
      DotBasis(u, i);
      DotBasis(v, i);
      DotCommutes(u, e);
      DotCommutes(v, e);
    }
  }

  // The form of x + t u, where u has form 0.
  lemma FormAlong(p: Matrix, n: nat, u: Vector, y: Vector, t: real)
    requires Covariance(p, n) && |u| == |y| == n && Form(p, u, u) == 0.0
    ensures Form(p, y, y) - 2.0 * (t * Form(p, u, y)) >= 0.0
  {
    var tu := Times(t, u);
    var z := Minus(y, tu);
    FormMinusLeft(p, y, tu, z);
    FormMinusRight(p, y, y, tu);
    FormMinusRight(p, tu, y, tu);
    DotTimes(t, u, Apply(p, y));
    DotTimes(t, u, Apply(p, tu));
    SymmetricForm(p, n, y, tu);
    SymmetricForm(p, n, u, tu);
    DotTimes(t, u, Apply(p, u));
    assert Form(p, z, z) >= 0.0;
  }

  lemma StepBeyond(f: real, d: real) returns (t: real)
    requires f != 0.0
    ensures 2.0 * (t * f) == d
  {
    t := d / (2.0 * f);
    assert t * (2.0 * f) == d;
  }

  // A direction without variance is uncorrelated with every other.
  lemma NoVarianceNoCovariance(p: Matrix, n: nat, u: Vector, y: Vector)
    requires Covariance(p, n) && |u| == |y| == n && Form(p, u, u) == 0.0
    ensures Form(p, y, u) == 0.0
  {
    var f, yy := Form(p, u, y), Form(p, y, y);
    SymmetricForm(p, n, u, y);
    if f != 0.0 {
      var t := StepBeyond(f, yy + 1.0);
      FormAlong(p, n, u, y, t);
    }
  }

  // What S makes nothing of, P H^T makes nothing of.
  lemma InnovationNull(p: Matrix, h: Matrix, r: Matrix, n: nat, k: nat, z: Vector, a: Vector)
    requires Covariance(p, n) && Shape(h, k, n) && Covariance(r, k) && |z| == k && |a| == n
    requires Form(InnovationCovariance(p, h, r, n, k), z, z) == 0.0
    ensures Form(p, a, Apply(Transpose(h, n), z)) == 0.0
  {
    var hz := Apply(Transpose(h, n), z);
    SumForm(Congruent(h, p, k, n), r, z, z);
    CongruentForm(h, p, k, n, z, z);
    assert Form(p, hz, hz) >= 0.0 && Form(r, z, z) >= 0.0;
    NoVarianceNoCovariance(p, n, hz, a);
  }

  // So P H^T does not tell apart two vectors that S does not.
  lemma SameInnovation(p: Matrix, h: Matrix, r: Matrix, n: nat, k: nat, v: Vector, w: Vector, a: Vector)
    requires Covariance(p, n) && Shape(h, k, n) && Covariance(r, k) && |v| == |w| == k && |a| == n
    requires var s := InnovationCovariance(p, h, r, n, k); Apply(s, w) == Apply(s, v)
    ensures Form(p, a, Apply(Transpose(h, n), w)) == Form(p, a, Apply(Transpose(h, n), v))
  {
    var s, ht, z := InnovationCovariance(p, h, r, n, k), Transpose(h, n), Minus(w, v);
    FormMinusRight(s, z, w, v);
    InnovationNull(p, h, r, n, k, z, a);
    ProductForm(p, ht, a, z);
    ProductForm(p, ht, a, w);
    ProductForm(p, ht, a, v);
    FormMinusRight(Product(p, ht, k), a, w, v);
  }

  // The transposed gain turns S into H P: K S = P H^T.
  lemma GainEquation(p: Matrix, h: Matrix, r: Matrix, x: Matrix, n: nat, k: nat, a: Vector, v: Vector)
    requires Covariance(p, n) && Shape(h, k, n) && Covariance(r, k) && Shape(x, k, k) && |a| == n && |v| == k
    requires Solves(InnovationCovariance(p, h, r, n, k), x, k)
    ensures var s, g := InnovationCovariance(p, h, r, n, k), Gain(p, h, x, n, k);
            Form(s, Apply(Transpose(g, k), a), v) == Form(p, a, Apply(Transpose(h, n), v))
  {
    var s, g, ht := InnovationCovariance(p, h, r, n, k), Gain(p, h, x, n, k), Transpose(h, n);
    InnovationIsCovariance(p, h, r, n, k);
    Adjoint(g, a, Apply(s, v));
    ProductForm(Product(p, ht, k), x, a, Apply(s, v));
    var w := Apply(x, Apply(s, v));
    SameInnovation(p, h, r, n, k, v, w, a);
    ProductForm(p, ht, a, w);
  }

  // (I - K H)^T a = a - H^T K^T a
  lemma ProjectionTransposed(g: Matrix, h: Matrix, n: nat, k: nat, a: Vector)
    requires Shape(g, n, k) && Shape(h, k, n) && |a| == n
    ensures Apply(Transpose(ResidualProjection(g, h, n, k), n), a) ==
            Minus(a, Apply(Transpose(h, n), Apply(Transpose(g, k), a)))
  {
    var m, gh := ResidualProjection(g, h, n, k), Product(g, h, n);
    var u := Apply(Transpose(g, k), a);
    var left, right := Apply(Transpose(m, n), a), Minus(a, Apply(Transpose(h, n), u));
    forall y: Vector | |y| == n ensures Dot(left, y) == Dot(right, y) {
      Adjoint(m, a, y);
      SumForm(Identity(n), Scaled(-1.0, gh, n), a, y);
      ScaledForm(-1.0, gh, a, y);
      IdentityActs(y);
      ProductForm(g, h, a, y);
      Adjoint(h, u, y);
      DotMinus(a, Apply(Transpose(h, n), u), y);
    }
    SameDotIsEqual(left, right);
  }

  lemma ProjectedForm(p: Matrix, h: Matrix, n: nat, k: nat, a: Vector, b: Vector, u: Vector, v: Vector)
    requires Shape(p, n, n) && Shape(h, k, n) && |a| == |b| == n && |u| == |v| == k
    ensures var ht := Transpose(h, n);
            Form(p, Minus(a, Apply(ht, u)), Minus(b, Apply(ht, v))) ==
            Form(p, a, b) - Form(p, a, Apply(ht, v)) - Form(p, Apply(ht, u), b) + Form(p, Apply(ht, u), Apply(ht, v))
  {
    var hu, hv := Apply(Transpose(h, n), u), Apply(Transpose(h, n), v);
    FormMinusLeft(p, a, hu, Minus(b, hv));
    FormMinusRight(p, a, b, hv);
    FormMinusRight(p, hu, b, hv);
  }

  // With the optimal gain the update subtracts K S K^T.
  lemma OptimalUpdateForm(p: Matrix, h: Matrix, r: Matrix, x: Matrix, n: nat, k: nat, a: Vector, b: Vector)
    requires Covariance(p, n) && Shape(h, k, n) && Covariance(r, k) && Shape(x, k, k) && |a| == |b| == n
    requires Solves(InnovationCovariance(p, h, r, n, k), x, k)
    ensures var s, g := InnovationCovariance(p, h, r, n, k), Gain(p, h, x, n, k);
            Form(Joseph(p, h, r, g, n, k), a, b) ==
            Form(p, a, b) - Form(s, Apply(Transpose(g, k), a), Apply(Transpose(g, k), b))
  {
    var s, g, ht := InnovationCovariance(p, h, r, n, k), Gain(p, h, x, n, k), Transpose(h, n);
    var u, v := Apply(Transpose(g, k), a), Apply(Transpose(g, k), b);
    SumForm(Congruent(ResidualProjection(g, h, n, k), p, n, n), Congruent(g, r, n, k), a, b);
    CongruentForm(ResidualProjection(g, h, n, k), p, n, n, a, b);
    CongruentForm(g, r, n, k, a, b);
    ProjectionTransposed(g, h, n, k, a);
    ProjectionTransposed(g, h, n, k, b);
    ProjectedForm(p, h, n, k, a, b, u, v);
    SumForm(Congruent(h, p, k, n), r, u, v);
    CongruentForm(h, p, k, n, u, v);
    GainEquation(p, h, r, x, n, k, a, v);
    GainEquation(p, h, r, x, n, k, b, u);
    InnovationIsCovariance(p, h, r, n, k);
    SymmetricForm(s, k, u, v);
    SymmetricForm(p, n, Apply(ht, u), b);
  }

  // So the Joseph result is (I - K H) P ...
  lemma OptimalUpdateIsProjection(p: Matrix, h: Matrix, r: Matrix, x: Matrix, n: nat, k: nat)
    requires Covariance(p, n) && Shape(h, k, n) && Covariance(r, k) && Shape(x, k, k)
    requires Solves(InnovationCovariance(p, h, r, n, k), x, k)
    ensures var g := Gain(p, h, x, n, k);
            Joseph(p, h, r, g, n, k) == Product(ResidualProjection(g, h, n, k), p, n)
  {
    var g := Gain(p, h, x, n, k);
    var m := ResidualProjection(g, h, n, k);
    forall a: Vector, b: Vector | |a| == n && |b| == n
      ensures Form(Joseph(p, h, r, g, n, k), a, b) == Form(Product(m, p, n), a, b)
    {
      OptimalUpdateForm(p, h, r, x, n, k, a, b);
      ProductForm(m, p, a, b);
      ProjectionTransposed(g, h, n, k, a);
      var u := Apply(Transpose(g, k), a);
      FormMinusLeft(p, a, Apply(Transpose(h, n), u), b);
      SymmetricForm(p, n, Apply(Transpose(h, n), u), b);
      GainEquation(p, h, r, x, n, k, b, u);
      InnovationIsCovariance(p, h, r, n, k);
      SymmetricForm(InnovationCovariance(p, h, r, n, k), k, u, Apply(Transpose(g, k), b));
    }
    SameFormIsEqual(Joseph(p, h, r, g, n, k), Product(m, p, n), n, n);
  }

  // ... and P - P' = K S K^T, which is again a covariance ...
  lemma OptimalUpdateRemoves(p: Matrix, h: Matrix, r: Matrix, x: Matrix, n: nat, k: nat)
    requires Covariance(p, n) && Shape(h, k, n) && Covariance(r, k) && Shape(x, k, k)
    requires Solves(InnovationCovariance(p, h, r, n, k), x, k)
    ensures var s, g := InnovationCovariance(p, h, r, n, k), Gain(p, h, x, n, k);
            && Sum(p, Scaled(-1.0, Joseph(p, h, r, g, n, k), n), n) == Congruent(g, s, n, k)
            && Covariance(Congruent(g, s, n, k), n)
  {
    var s, g := InnovationCovariance(p, h, r, n, k), Gain(p, h, x, n, k);
    var j := Joseph(p, h, r, g, n, k);
    var difference, removed := Sum(p, Scaled(-1.0, j, n), n), Congruent(g, s, n, k);
    forall a: Vector, b: Vector | |a| == n && |b| == n ensures Form(difference, a, b) == Form(removed, a, b) {
      OptimalUpdateForm(p, h, r, x, n, k, a, b);
      SumForm(p, Scaled(-1.0, j, n), a, b);
      ScaledForm(-1.0, j, a, b);
      CongruentForm(g, s, n, k, a, b);
    }
    SameFormIsEqual(difference, removed, n, n);
    InnovationIsCovariance(p, h, r, n, k);
    CongruentKeepsCovariance(g, s, n, k);
  }

  // ... so no state's variance grows.
  lemma OptimalUpdateNeverRaisesVariance(p: Matrix, h: Matrix, r: Matrix, x: Matrix, n: nat, k: nat, i: nat)
    requires Covariance(p, n) && Shape(h, k, n) && Covariance(r, k) && Shape(x, k, k) && i < n
    requires Solves(InnovationCovariance(p, h, r, n, k), x, k)
    ensures Joseph(p, h, r, Gain(p, h, x, n, k), n, k)[i][i] <= p[i][i]
  {
    var s, g := InnovationCovariance(p, h, r, n, k), Gain(p, h, x, n, k);
    var e := Basis(n, i);
    OptimalUpdateForm(p, h, r, x, n, k, e, e);
    FormOfBasis(p, n, n, i, i);
    FormOfBasis(Joseph(p, h, r, g, n, k), n, n, i, i);
    InnovationIsCovariance(p, h, r, n, k);
    assert Form(s, Apply(Transpose(g, k), e), Apply(Transpose(g, k), e)) >= 0.0;
  }
}
