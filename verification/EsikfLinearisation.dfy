// Why the filter's matrices are the right ones, and where they are not: each jacobian, and each block of the transition
// but the velocity rows, is the derivative of what injecting an error does to a prediction.
module EsikfLinearisation {
  import opened Basics
  import opened Matrices
  import opened EsikfModel
  import opened ExponentialMap

  // ---------------------------------------------------------------- derivatives

  // Around the zero error f is base + j e, up to c times the square of the largest entry of e.
  ghost predicate IsDerivative(f: Vector -> Vector, base: Vector, j: Matrix, c: real)
    requires Shape(j, |base|, 9)
  {
    forall e: Vector, s: real {:trigger EntriesWithin(e, s)} :: |e| == 9 && EntriesWithin(e, s) && s <= 1.0 ==>
      Near(f(e), Plus(base, Apply(j, e)), c * (s * s))
  }

  lemma NearByRest(x: Vector, base: Vector, linear: Vector, rest: Vector, d: real)
    requires |base| == |linear| == |rest| && x == Plus3(base, linear, rest) && EntriesWithin(rest, d)
    ensures Near(x, Plus(base, linear), d)
  {
    forall k | 0 <= k < |x| ensures -d <= x[k] - Plus(base, linear)[k] <= d {
      assert x[k] - Plus(base, linear)[k] == rest[k];
    }
  }

  // A number that is at most c s for every s up to 1 is zero.
  lemma VanishesWithStep(x: real, c: real) returns (s: real)
    requires x > 0.0
    ensures 0.0 < s <= 1.0 && c * (s * s) < s * x
  {
    var d := if c > 0.0 then c else 1.0;
    s := if x / (2.0 * d) < 1.0 then x / (2.0 * d) else 1.0;
    HalfFits(x, d, s);
    StepFits(x, c, d, s);
  }

  lemma HalfFits(x: real, d: real, s: real)
    requires x > 0.0 && d > 0.0 && s == if x / (2.0 * d) < 1.0 then x / (2.0 * d) else 1.0
    ensures 0.0 < s <= 1.0 && 2.0 * d * s <= x
  {
    var h := x / (2.0 * d);
    assert h * (2.0 * d) == x;
    if h <= 0.0 {
      CancelFactor(h, 0.0, 2.0 * d);
    } else if h >= 1.0 {
      CancelFactor(1.0, h, 2.0 * d);
    }
  }

  lemma StepFits(x: real, c: real, d: real, s: real)
    requires x > 0.0 && c <= d && d > 0.0 && 0.0 < s <= 1.0 && 2.0 * d * s <= x
    ensures c * (s * s) < s * x
  {
    CancelFactor(c, d, s);
    assert c * s <= d * s < x;
    CancelFactor(c * s, x, s);
    assert (c * s) * s == c * (s * s);
  }

  lemma BasisActs(j: Matrix, s: real, m: nat, i: nat)
    requires Shape(j, |j|, 9) && m < 9 && i < |j|
    ensures Apply(j, Times(s, Basis(9, m)))[i] == s * j[i][m]
  {
    ApplyTimes(j, s, Basis(9, m));
    DotBasis(j[i], m);
    DotCommutes(Basis(9, m), j[i]);
  }

  lemma DerivativesAgree(f: Vector -> Vector, base: Vector, j: Matrix, k: Matrix, c: real, d: real, i: nat, m: nat)
    requires Shape(j, |base|, 9) && Shape(k, |base|, 9) && i < |base| && m < 9
    requires IsDerivative(f, base, j, c) && IsDerivative(f, base, k, d)
    ensures j[i][m] <= k[i][m]
  {
    if j[i][m] > k[i][m] {
      var s := VanishesWithStep(j[i][m] - k[i][m], c + d);
      var e := Times(s, Basis(9, m));
      assert EntriesWithin(e, s);
      BasisActs(j, s, m, i);
      BasisActs(k, s, m, i);
      Contradicts(f(e)[i], base[i], s, j[i][m], k[i][m], c, d);
    }
  }

  // Two linear estimates of one number that are too far apart for both to hold.
  lemma Contradicts(x: real, base: real, s: real, j: real, k: real, c: real, d: real)
    requires x - (base + s * j) >= -(c * (s * s)) && x - (base + s * k) <= d * (s * s)
    ensures (c + d) * (s * s) >= s * (j - k)
  {
    assert (c + d) * (s * s) == c * (s * s) + d * (s * s) && s * (j - k) == s * j - s * k;
  }

  // There is at most one derivative.
  lemma DerivativeIsUnique(f: Vector -> Vector, base: Vector, j: Matrix, k: Matrix, c: real, d: real)
    requires Shape(j, |base|, 9) && Shape(k, |base|, 9)
    requires IsDerivative(f, base, j, c) && IsDerivative(f, base, k, d)
    ensures j == k
  {
    forall i | 0 <= i < |base| ensures j[i] == k[i] {
      forall m | 0 <= m < 9 ensures j[i][m] == k[i][m] {
        DerivativesAgree(f, base, j, k, c, d, i, m);
        DerivativesAgree(f, base, k, j, d, c, i, m);
      }
    }
  }

  lemma NoOtherDerivative(f: Vector -> Vector, base: Vector, j: Matrix, k: Matrix, c: real, d: real)
    requires Shape(j, |base|, 9) && Shape(k, |base|, 9) && IsDerivative(f, base, k, d) && j != k
    ensures !IsDerivative(f, base, j, c)
  {
    if IsDerivative(f, base, j, c) {
      DerivativeIsUnique(f, base, j, k, c, d);
    }
  }

  // ---------------------------------------------------------------- vectors that the body carries

  lemma ExponentialSplits(lib: Libraries, dtheta: Vector, v: Vector)
    requires lib.Valid() && |dtheta| == |v| == 3
    ensures Apply(lib.expmap(dtheta), v) == Plus3(v, Cross(dtheta, v), Remainder(lib, dtheta, v))
  {
  }

  // A body-fixed vector, seen from the world after the attitude error dtheta is injected.
  lemma CarriedVectorMoves(lib: Libraries, r: Matrix, dtheta: Vector, v: Vector)
    requires lib.Valid() && Shape(r, 3, 3) && |dtheta| == |v| == 3
    ensures Apply(Product(r, lib.expmap(dtheta), 3), v)
            == Plus3(Apply(r, v), Apply(r, Cross(dtheta, v)), Apply(r, Remainder(lib, dtheta, v)))
  {
    ProductActs(r, lib.expmap(dtheta), v);
    ExponentialSplits(lib, dtheta, v);
    ApplyPlus(r, Plus(v, Cross(dtheta, v)), Remainder(lib, dtheta, v));
    ApplyPlus(r, v, Cross(dtheta, v));
  }

  lemma SecondOrderWithin(s: real, u: real)
    requires 0.0 <= s <= 1.0 && 0.0 <= u
    ensures 3.0 * (1.0 * SecondOrder(s, u)) <= 9.0 * u * (s * s)
  {
    var p := s * s * u;
    assert s * s >= 0.0 && p >= 0.0;
    assert p * (s + 2.0) <= p * 3.0;
    assert 9.0 * u * (s * s) == 9.0 * p;
  }

  // What the remainder leaves of a vector with entries up to u, in the world.
  lemma RestWithin(lib: Libraries, r: Matrix, e: Vector, v: Vector, s: real, u: real)
    requires lib.Valid() && Rodrigues(lib) && Orthonormal(r) && |e| == 9 && |v| == 3
    requires EntriesWithin(e, s) && s <= 1.0 && EntriesWithin(v, u)
    ensures EntriesWithin(Apply(r, Remainder(lib, e[..3], v)), 9.0 * u * (s * s))
  {
    assert -s <= e[0] <= s && -u <= v[0] <= u;
    RemainderIsSecondOrder(lib, e[..3], v, s, u);
    OrthonormalWithin(r);
    AppliedWithin(r, Remainder(lib, e[..3], v), 1.0, SecondOrder(s, u));
    SecondOrderWithin(s, u);
  }

  // x + (a + b + c) with y added to x, regrouped.
  lemma Regroup(x: Vector, y: Vector, a: Vector, b: Vector, c: Vector)
    requires |x| == |y| == |a| == |b| == |c|
    ensures Plus(Plus(x, y), Plus3(a, b, c)) == Plus3(Plus(x, a), Plus(b, y), c)
  {
  }

  // ---------------------------------------------------------------- the measurements

  // The predicted antenna position after an error is injected.
  ghost function AntennaAfter(lib: Libraries, config: Config, n: Nominal): Vector -> Vector
    requires lib.Valid() && config.Valid() && n.Shaped()
  {
    (e: Vector) => if |e| == 9 then PredictedAntenna(config, Corrected(lib, n, e, n.covariance)) else []
  }

  ghost function VelocityAfter(lib: Libraries, config: Config, n: Nominal): Vector -> Vector
    requires lib.Valid() && config.Valid() && n.Shaped()
  {
    (e: Vector) => if |e| == 9 then PredictedVelocity(config, Corrected(lib, n, e, n.covariance)) else []
  }

  lemma AntennaSplits(lib: Libraries, config: Config, n: Nominal, e: Vector)
    requires lib.Valid() && config.Valid() && n.Shaped() && |e| == 9
    ensures var lever := config.imuToAntenna;
            PredictedAntenna(config, Corrected(lib, n, e, n.covariance))
            == Plus3(PredictedAntenna(config, n), Apply(CarriedJacobian(n, lever, 3), e),
                     Apply(n.pose.rotation, Remainder(lib, e[..3], lever)))
  {
    var lever, r, dtheta := config.imuToAntenna, n.pose.rotation, e[..3];
    CarriedVectorMoves(lib, r, dtheta, lever);
    CarriedJacobianActs(n, lever, 3, e);
    Regroup(n.pose.translation, e[3..6], Apply(r, lever), Apply(r, Cross(dtheta, lever)),
            Apply(r, Remainder(lib, dtheta, lever)));
  }

  lemma VelocitySplits(lib: Libraries, config: Config, n: Nominal, e: Vector)
    requires lib.Valid() && config.Valid() && n.Shaped() && |e| == 9
    ensures var lever := LeverVelocity(config, n);
            PredictedVelocity(config, Corrected(lib, n, e, n.covariance))
            == Plus3(PredictedVelocity(config, n), Apply(CarriedJacobian(n, lever, 6), e),
                     Apply(n.pose.rotation, Remainder(lib, e[..3], lever)))
  {
    var lever, r, dtheta := LeverVelocity(config, n), n.pose.rotation, e[..3];
    CarriedVectorMoves(lib, r, dtheta, lever);
    CarriedJacobianActs(n, lever, 6, e);
    assert e[6..] == e[6..9];
    Regroup(n.velocity, e[6..9], Apply(r, lever), Apply(r, Cross(dtheta, lever)),
            Apply(r, Remainder(lib, dtheta, lever)));
  }

  // The position jacobian is the derivative of the predicted antenna position.
  lemma AntennaJacobianIsDerivative(lib: Libraries, config: Config, n: Nominal, u: real)
    requires lib.Valid() && Rodrigues(lib) && config.Valid() && n.Shaped() && Orthonormal(n.pose.rotation)
    requires EntriesWithin(config.imuToAntenna, u)
    ensures IsDerivative(AntennaAfter(lib, config, n), PredictedAntenna(config, n),
                         CarriedJacobian(n, config.imuToAntenna, 3), 9.0 * u)
  {
    var lever, base := config.imuToAntenna, PredictedAntenna(config, n);
    var j := CarriedJacobian(n, lever, 3);
    forall e: Vector, s: real {:trigger EntriesWithin(e, s)} | |e| == 9 && EntriesWithin(e, s) && s <= 1.0
      ensures Near(AntennaAfter(lib, config, n)(e), Plus(base, Apply(j, e)), 9.0 * u * (s * s))
    {
      AntennaSplits(lib, config, n, e);
      RestWithin(lib, n.pose.rotation, e, lever, s, u);
      NearByRest(AntennaAfter(lib, config, n)(e), base, Apply(j, e),
                 Apply(n.pose.rotation, Remainder(lib, e[..3], lever)), 9.0 * u * (s * s));
    }
  }

  // The velocity jacobian is the derivative of the predicted velocity of the antenna.
  lemma VelocityJacobianIsDerivative(lib: Libraries, config: Config, n: Nominal, u: real)
    requires lib.Valid() && Rodrigues(lib) && config.Valid() && n.Shaped() && Orthonormal(n.pose.rotation)
    requires EntriesWithin(LeverVelocity(config, n), u)
    ensures IsDerivative(VelocityAfter(lib, config, n), PredictedVelocity(config, n),
                         CarriedJacobian(n, LeverVelocity(config, n), 6), 9.0 * u)
  {
    var lever, base := LeverVelocity(config, n), PredictedVelocity(config, n);
    var j := CarriedJacobian(n, lever, 6);
    forall e: Vector, s: real {:trigger EntriesWithin(e, s)} | |e| == 9 && EntriesWithin(e, s) && s <= 1.0
      ensures Near(VelocityAfter(lib, config, n)(e), Plus(base, Apply(j, e)), 9.0 * u * (s * s))
    {
      VelocitySplits(lib, config, n, e);
      RestWithin(lib, n.pose.rotation, e, lever, s, u);
      NearByRest(VelocityAfter(lib, config, n)(e), base, Apply(j, e),
                 Apply(n.pose.rotation, Remainder(lib, e[..3], lever)), 9.0 * u * (s * s));
    }
  }

  // ---------------------------------------------------------------- rotations keep cross products

  // Rows of length one, at right angles, and right-handed.
  ghost predicate Rotation(q: Matrix) {
    && Shape(q, 3, 3) && Orthonormal(Transpose(q, 3))
    && Cross(q[0], q[1]) == q[2] && Cross(q[1], q[2]) == q[0] && Cross(q[2], q[0]) == q[1]
  }

  // Lagrange's identity for two pairs of vectors.
  lemma CrossProducts(u0: real, u1: real, u2: real, v0: real, v1: real, v2: real,
                      a0: real, a1: real, a2: real, b0: real, b1: real, b2: real)
    ensures (u0 * a0 + u1 * a1 + u2 * a2) * (v0 * b0 + v1 * b1 + v2 * b2)
            - (v0 * a0 + v1 * a1 + v2 * a2) * (u0 * b0 + u1 * b1 + u2 * b2)
            == (u1 * v2 - u2 * v1) * (a1 * b2 - a2 * b1) + (u2 * v0 - u0 * v2) * (a2 * b0 - a0 * b2)
               + (u0 * v1 - u1 * v0) * (a0 * b1 - a1 * b0)
  {
  }

  // x is the dot product of u and a, written out.
  ghost predicate IsDot3(x: real, u: Vector, a: Vector) {
    |u| == |a| == 3 && x == u[0] * a[0] + u[1] * a[1] + u[2] * a[2]
  }

  // Row w of a right-handed matrix whose other rows are u and v.
  lemma RowOfCross(u: Vector, v: Vector, w: Vector, a: Vector, b: Vector, ua: real, vb: real, va: real, ub: real,
                   wc: real)
    requires |u| == |v| == |a| == |b| == 3 && Cross(u, v) == w
    requires IsDot3(ua, u, a) && IsDot3(vb, v, b) && IsDot3(va, v, a) && IsDot3(ub, u, b) && IsDot3(wc, w, Cross(a, b))
    ensures wc == ua * vb - va * ub
  {
    CrossProducts(u[0], u[1], u[2], v[0], v[1], v[2], a[0], a[1], a[2], b[0], b[1], b[2]);
  }

  // x is q a, written out.
  ghost predicate IsApplied(x: Vector, q: Matrix, a: Vector) {
    Shape(q, 3, 3) && |x| == |a| == 3 && forall i :: 0 <= i < 3 ==> IsDot3(x[i], q[i], a)
  }

  lemma AppliedWrittenOut(q: Matrix, a: Vector)
    requires Shape(q, 3, 3) && |a| == 3
    ensures IsApplied(Apply(q, a), q, a)
  {
    forall i | 0 <= i < 3 ensures IsDot3(Apply(q, a)[i], q[i], a) {
      DotOfThree(q[i], a);
    }
  }

  lemma CrossOfApplied(q: Matrix, a: Vector, b: Vector, x: Vector, y: Vector, l: Vector)
    requires Rotation(q) && IsApplied(x, q, a) && IsApplied(y, q, b) && IsApplied(l, q, Cross(a, b))
    ensures l[0] == x[1] * y[2] - x[2] * y[1]
    ensures l[1] == x[2] * y[0] - x[0] * y[2]
    ensures l[2] == x[0] * y[1] - x[1] * y[0]
  {
    RowOfCross(q[1], q[2], q[0], a, b, x[1], y[2], x[2], y[1], l[0]);
    RowOfCross(q[2], q[0], q[1], a, b, x[2], y[0], x[0], y[2], l[1]);
    RowOfCross(q[0], q[1], q[2], a, b, x[0], y[1], x[1], y[0], l[2]);
  }

  lemma IsCross(x: Vector, y: Vector, l: Vector)
    requires |x| == |y| == |l| == 3
    requires l[0] == x[1] * y[2] - x[2] * y[1] && l[1] == x[2] * y[0] - x[0] * y[2] && l[2] == x[0] * y[1] - x[1] * y[0]
    ensures l == Cross(x, y)
  {
  }

  lemma RotationKeepsCross(q: Matrix, a: Vector, b: Vector)
    requires Rotation(q) && |a| == |b| == 3
    ensures Apply(q, Cross(a, b)) == Cross(Apply(q, a), Apply(q, b))
  {
    AppliedWrittenOut(q, a);
    AppliedWrittenOut(q, b);
    AppliedWrittenOut(q, Cross(a, b));
    CrossOfApplied(q, a, b, Apply(q, a), Apply(q, b), Apply(q, Cross(a, b)));
    IsCross(Apply(q, a), Apply(q, b), Apply(q, Cross(a, b)));
  }

  // ---------------------------------------------------------------- the prediction

  // The pose that an error injected before a prediction leads to.
  function PoseAfter(lib: Libraries, n: Nominal, relative: Pose, e: Vector): (p: Pose)
    requires lib.Valid() && n.Shaped() && ValidPose(relative) && |e| == 9
    ensures ValidPose(p)
  {
    Compose(Corrected(lib, n, e, n.covariance).pose, relative)
  }

  ghost function PositionAfter(lib: Libraries, n: Nominal, relative: Pose): Vector -> Vector
    requires lib.Valid() && n.Shaped() && ValidPose(relative)
  {
    (e: Vector) => if |e| == 9 then PoseAfter(lib, n, relative, e).translation else []
  }

  // Where the body-fixed vector x points then.
  ghost function DirectionAfter(lib: Libraries, n: Nominal, relative: Pose, x: Vector): Vector -> Vector
    requires lib.Valid() && n.Shaped() && ValidPose(relative) && |x| == 3
  {
    (e: Vector) => if |e| == 9 then Apply(PoseAfter(lib, n, relative, e).rotation, x) else []
  }

  ghost function SpeedAfter(lib: Libraries, config: Config, n: Nominal, relative: Pose, dt: real): Vector -> Vector
    requires lib.Valid() && n.Shaped() && ValidPose(relative) && dt > 0.0
  {
    (e: Vector) =>
      if |e| == 9 then Predicted(lib, config, Corrected(lib, n, e, n.covariance), relative, dt).velocity else []
  }

  lemma PositionSplits(lib: Libraries, n: Nominal, relative: Pose, e: Vector)
    requires lib.Valid() && n.Shaped() && ValidPose(relative) && |e| == 9
    ensures PoseAfter(lib, n, relative, e).translation
            == Plus3(Compose(n.pose, relative).translation, Apply(PredictionTransition(n, relative), e)[3..6],
                     Apply(n.pose.rotation, Remainder(lib, e[..3], relative.translation)))
  {
    var r, dtheta, t := n.pose.rotation, e[..3], relative.translation;
    var f := Apply(PredictionTransition(n, relative), e);
    CarriedVectorMoves(lib, r, dtheta, t);
    TransitionActs(n, relative, e);
    assert f[3..6] == Plus(Apply(r, Cross(dtheta, t)), e[3..6]);
    Regroup(n.pose.translation, e[3..6], Apply(r, t), Apply(r, Cross(dtheta, t)), Apply(r, Remainder(lib, dtheta, t)));
  }

  lemma AttitudeSplits(lib: Libraries, n: Nominal, relative: Pose, e: Vector, x: Vector)
    requires lib.Valid() && n.Shaped() && ValidPose(relative) && Rotation(relative.rotation) && |e| == 9 && |x| == 3
    ensures var f := Apply(PredictionTransition(n, relative), e);
            var after := Compose(n.pose, relative).rotation;
            Apply(PoseAfter(lib, n, relative, e).rotation, x)
            == Plus3(Apply(after, x), Apply(after, Cross(f[..3], x)),
                     Apply(n.pose.rotation, Remainder(lib, e[..3], Apply(relative.rotation, x))))
  {
    var r, q, dtheta := n.pose.rotation, relative.rotation, e[..3];
    var f := Apply(PredictionTransition(n, relative), e);
    TransitionActs(n, relative, e);
    assert f[..3] == Apply(Transpose(q, 3), dtheta);
    var turned := Product(r, lib.expmap(dtheta), 3);
    ProductActs(turned, q, x);
    CarriedVectorMoves(lib, r, dtheta, Apply(q, x));
    ProductActs(r, q, x);
    ProductActs(r, q, Cross(f[..3], x));
    RotationKeepsCross(q, f[..3], x);
    TransposeTwice(q);
    OrthonormalUndoes(Transpose(q, 3), dtheta);
  }

  lemma TransposeTwice(q: Matrix)
    requires Shape(q, 3, 3)
    ensures Transpose(Transpose(q, 3), 3) == q
  {
    var t := Transpose(Transpose(q, 3), 3);
    forall i | 0 <= i < 3 ensures t[i] == q[i] {
    }
  }

  // The position rows of the transition are the derivative of the predicted position.
  lemma PositionRowsAreDerivative(lib: Libraries, n: Nominal, relative: Pose, u: real)
    requires lib.Valid() && Rodrigues(lib) && n.Shaped() && Orthonormal(n.pose.rotation) && ValidPose(relative)
    requires EntriesWithin(relative.translation, u)
    ensures IsDerivative(PositionAfter(lib, n, relative), Compose(n.pose, relative).translation,
                         PredictionTransition(n, relative)[3..6], 9.0 * u)
  {
    var t, base := relative.translation, Compose(n.pose, relative).translation;
    var j := PredictionTransition(n, relative)[3..6];
    forall e: Vector, s: real {:trigger EntriesWithin(e, s)} | |e| == 9 && EntriesWithin(e, s) && s <= 1.0
      ensures Near(PositionAfter(lib, n, relative)(e), Plus(base, Apply(j, e)), 9.0 * u * (s * s))
    {
      PositionSplits(lib, n, relative, e);
      RestWithin(lib, n.pose.rotation, e, t, s, u);
      assert Apply(j, e) == Apply(PredictionTransition(n, relative), e)[3..6];
      NearByRest(PositionAfter(lib, n, relative)(e), base, Apply(j, e),
                 Apply(n.pose.rotation, Remainder(lib, e[..3], t)), 9.0 * u * (s * s));
    }
  }

  // How x moves with an attitude error in the frame after the increment, which the attitude rows of the transition make
  // of the error before it.
  function AttitudeMatrix(n: Nominal, relative: Pose, x: Vector): (j: Matrix)
    requires n.Shaped() && ValidPose(relative) && |x| == 3
    ensures Shape(j, 3, 9)
  {
    var after := Compose(n.pose, relative).rotation;
    Product(Product(Scaled(-1.0, after, 3), Skew(x), 3), PredictionTransition(n, relative)[..3], 9)
  }

  lemma AttitudeMatrixActs(n: Nominal, relative: Pose, x: Vector, e: Vector)
    requires n.Shaped() && ValidPose(relative) && |x| == 3 && |e| == 9
    ensures Apply(AttitudeMatrix(n, relative, x), e) ==
            Apply(Compose(n.pose, relative).rotation, Cross(Apply(PredictionTransition(n, relative), e)[..3], x))
  {
    var after, rows := Compose(n.pose, relative).rotation, PredictionTransition(n, relative)[..3];
    ProductActs(Product(Scaled(-1.0, after, 3), Skew(x), 3), rows, e);
    assert Apply(rows, e) == Apply(PredictionTransition(n, relative), e)[..3];
    SkewActs(after, x, Apply(rows, e));
  }

  lemma AttitudeIsNear(lib: Libraries, n: Nominal, relative: Pose, x: Vector, e: Vector, s: real, w: real)
    requires lib.Valid() && Rodrigues(lib) && n.Shaped() && Orthonormal(n.pose.rotation)
    requires ValidPose(relative) && Rotation(relative.rotation) && |x| == 3
    requires |e| == 9 && EntriesWithin(e, s) && s <= 1.0 && EntriesWithin(Apply(relative.rotation, x), w)
    ensures Near(Apply(PoseAfter(lib, n, relative, e).rotation, x),
                 Plus(Apply(Compose(n.pose, relative).rotation, x), Apply(AttitudeMatrix(n, relative, x), e)),
                 9.0 * w * (s * s))
  {
    var turned := Apply(relative.rotation, x);
    AttitudeSplits(lib, n, relative, e, x);
    AttitudeMatrixActs(n, relative, x, e);
    RestWithin(lib, n.pose.rotation, e, turned, s, w);
    NearByRest(Apply(PoseAfter(lib, n, relative, e).rotation, x), Apply(Compose(n.pose, relative).rotation, x),
               Apply(AttitudeMatrix(n, relative, x), e),
               Apply(n.pose.rotation, Remainder(lib, e[..3], turned)), 9.0 * w * (s * s));
  }

  // And this is the derivative of where x points after the prediction.
  lemma AttitudeRowsAreDerivative(lib: Libraries, n: Nominal, relative: Pose, x: Vector, w: real)
    requires lib.Valid() && Rodrigues(lib) && n.Shaped() && Orthonormal(n.pose.rotation)
    requires ValidPose(relative) && Rotation(relative.rotation) && |x| == 3
    requires EntriesWithin(Apply(relative.rotation, x), w)
    ensures IsDerivative(DirectionAfter(lib, n, relative, x), Apply(Compose(n.pose, relative).rotation, x),
                         AttitudeMatrix(n, relative, x), 9.0 * w)
  {
    var base, j := Apply(Compose(n.pose, relative).rotation, x), AttitudeMatrix(n, relative, x);
    forall e: Vector, s: real {:trigger EntriesWithin(e, s)} | |e| == 9 && EntriesWithin(e, s) && s <= 1.0
      ensures Near(DirectionAfter(lib, n, relative, x)(e), Plus(base, Apply(j, e)), 9.0 * w * (s * s))
    {
      AttitudeIsNear(lib, n, relative, x, e, s, w);
    }
  }

  // ---------------------------------------------------------------- the velocity rows

  // What the predicted velocity owes to an attitude error, to first order.
  function SpeedShare(n: Nominal, relative: Pose, dt: real, e: Vector): Vector
    requires n.Shaped() && ValidPose(relative) && dt > 0.0 && |e| == 9
  {
    Times(1.0 / dt, Apply(n.pose.rotation, Cross(e[..3], relative.translation)))
  }

  function SpeedRest(lib: Libraries, n: Nominal, relative: Pose, dt: real, e: Vector): Vector
    requires lib.Valid() && n.Shaped() && ValidPose(relative) && dt > 0.0 && |e| == 9
  {
    Times(1.0 / dt, Apply(n.pose.rotation, Remainder(lib, e[..3], relative.translation)))
  }

  lemma TimesPlus3(k: real, a: Vector, b: Vector, c: Vector)
    requires |a| == |b| == |c|
    ensures Times(k, Plus3(a, b, c)) == Plus3(Times(k, a), Times(k, b), Times(k, c))
  {
    forall i | 0 <= i < |a| ensures Times(k, Plus3(a, b, c))[i] == Plus3(Times(k, a), Times(k, b), Times(k, c))[i] {
      DistributeOver3(k, a[i], b[i], c[i]);
    }
  }

  lemma DistributeOver3(k: real, a: real, b: real, c: real)
    ensures k * (a + b + c) == k * a + k * b + k * c
  {
  }

  // The prediction sets the velocity from the increment; an error of the velocity before has no part in it.
  lemma SpeedSplits(lib: Libraries, config: Config, n: Nominal, relative: Pose, dt: real, e: Vector)
    requires lib.Valid() && n.Shaped() && ValidPose(relative) && dt > 0.0 && |e| == 9
    ensures Predicted(lib, config, Corrected(lib, n, e, n.covariance), relative, dt).velocity
            == Plus3(Predicted(lib, config, n, relative, dt).velocity, SpeedShare(n, relative, dt, e),
                     SpeedRest(lib, n, relative, dt, e))
  {
    var r, t, p := n.pose.rotation, relative.translation, n.pose.translation;
    var a, b, c := Apply(r, t), Apply(r, Cross(e[..3], t)), Apply(r, Remainder(lib, e[..3], t));
    CarriedVectorMoves(lib, r, e[..3], t);
    AddThenSubtract(p, a);
    AddThenSubtract(Plus(p, e[3..6]), Plus3(a, b, c));
    TimesPlus3(1.0 / dt, a, b, c);
  }

  lemma AddThenSubtract(a: Vector, b: Vector)
    requires |a| == |b|
    ensures Minus(Plus(a, b), a) == b
  {
  }

  // The velocity rows of the transition, applied to an error, give the change of the predicted velocity, up to the
  // second order, exactly when the velocity error is what the attitude error makes of the increment.
  lemma VelocityRowsDescribeIff(lib: Libraries, config: Config, n: Nominal, relative: Pose, dt: real, e: Vector)
    requires lib.Valid() && n.Shaped() && ValidPose(relative) && dt > 0.0 && |e| == 9
    ensures Predicted(lib, config, Corrected(lib, n, e, n.covariance), relative, dt).velocity
            == Plus3(Predicted(lib, config, n, relative, dt).velocity,
                     Apply(PredictionTransition(n, relative), e)[6..], SpeedRest(lib, n, relative, dt, e))
            <==> e[6..] == Times(1.0 / dt, Apply(n.pose.rotation, Cross(e[..3], relative.translation)))
  {
    var f := Apply(PredictionTransition(n, relative), e);
    SpeedSplits(lib, config, n, relative, dt, e);
    TransitionActs(n, relative, e);
    assert f[6..] == e[6..];
    CancelMiddle(Predicted(lib, config, n, relative, dt).velocity, SpeedShare(n, relative, dt, e), f[6..],
                 SpeedRest(lib, n, relative, dt, e));
  }

  lemma CancelMiddle(a: Vector, b: Vector, c: Vector, d: Vector)
    requires |a| == |b| == |c| == |d|
    ensures Plus3(a, b, d) == Plus3(a, c, d) <==> b == c
  {
    if Plus3(a, b, d) == Plus3(a, c, d) {
      forall i | 0 <= i < |a| ensures b[i] == c[i] {
        assert Plus3(a, b, d)[i] == a[i] + b[i] + d[i] && Plus3(a, c, d)[i] == a[i] + c[i] + d[i];
      }
    }
  }

  lemma NothingToCarry(r: Matrix, theta: Vector, t: Vector)
    requires Shape(r, 3, 3) && theta == Zero3() && |t| == 3
    ensures Apply(r, Cross(theta, t)) == Zero3()
  {
    assert Cross(theta, t) == Zero3();
    ZeroIsKept(r);
  }

  lemma ZeroIsKept(r: Matrix)
    requires Shape(r, 3, 3)
    ensures Apply(r, Zero3()) == Zero3()
  {
    forall i | 0 <= i < 3 ensures Apply(r, Zero3())[i] == 0.0 {
      DotOfThree(r[i], Zero3());
    }
  }

  lemma OnlyZero(v: Vector, d: real)
    requires |v| == 3 && EntriesWithin(v, d) && d == 0.0
    ensures v == Zero3()
  {
  }

  // So they fail for every pure velocity error: the prediction forgets it, the transition keeps it.
  lemma VelocityErrorIsForgotten(lib: Libraries, config: Config, n: Nominal, relative: Pose, dt: real, e: Vector)
    requires lib.Valid() && Rodrigues(lib) && n.Shaped() && ValidPose(relative) && dt > 0.0
    requires |e| == 9 && e[..6] == Zero3() + Zero3() && e[6..] != Zero3()
    ensures var before, after := Predicted(lib, config, n, relative, dt).velocity,
                                 Predicted(lib, config, Corrected(lib, n, e, n.covariance), relative, dt).velocity;
            && after == before
            && after != Plus3(before, Apply(PredictionTransition(n, relative), e)[6..],
                              SpeedRest(lib, n, relative, dt, e))
  {
    var r, t := n.pose.rotation, relative.translation;
    assert e[..3] == e[..6][..3] == Zero3();
    NothingToCarry(r, e[..3], t);
    RestOfZero(lib, r, e[..3], t);
    TimesZero(1.0 / dt);
    VelocityRowsDescribeIff(lib, config, n, relative, dt, e);
    SpeedSplits(lib, config, n, relative, dt, e);
    NothingAdded(Predicted(lib, config, n, relative, dt).velocity);
  }

  lemma TimesZero(k: real)
    ensures Times(k, Zero3()) == Zero3()
  {
  }

  lemma NothingAdded(v: Vector)
    requires |v| == 3
    ensures Plus3(v, Zero3(), Zero3()) == v
  {
  }

  lemma RestOfZero(lib: Libraries, r: Matrix, theta: Vector, t: Vector)
    requires lib.Valid() && Rodrigues(lib) && Shape(r, 3, 3) && theta == Zero3() && |t| == 3
    ensures Apply(r, Remainder(lib, theta, t)) == Zero3()
  {
    var u := BoundOf(t);
    RemainderIsSecondOrder(lib, theta, t, 0.0, u);
    OnlyZero(Remainder(lib, theta, t), SecondOrder(0.0, u));
    ZeroIsKept(r);
  }

  function BoundOf(t: Vector): (u: real)
    requires |t| == 3
    ensures EntriesWithin(t, u)
  {
    Size(t[0]) + Size(t[1]) + Size(t[2])
  }

  function Size(x: real): (y: real)
    ensures y >= 0.0 && -y <= x <= y
  {
    if x < 0.0 then -x else x
  }

  // The derivative of the predicted velocity.
  function SpeedMatrix(n: Nominal, relative: Pose, dt: real): (j: Matrix)
    requires n.Shaped() && ValidPose(relative) && dt > 0.0
    ensures Shape(j, 3, 9)
  {
    var coupling := Product(Scaled(-1.0, n.pose.rotation, 3), Skew(relative.translation), 3);
    seq(3, i requires 0 <= i < 3 => Times(1.0 / dt, coupling[i] + Basis(6, 6)))
  }

  lemma SpeedMatrixActs(n: Nominal, relative: Pose, dt: real, e: Vector)
    requires n.Shaped() && ValidPose(relative) && dt > 0.0 && |e| == 9
    ensures Apply(SpeedMatrix(n, relative, dt), e) == SpeedShare(n, relative, dt, e)
  {
    var j := SpeedMatrix(n, relative, dt);
    var coupling := Product(Scaled(-1.0, n.pose.rotation, 3), Skew(relative.translation), 3);
    SkewActs(n.pose.rotation, relative.translation, e[..3]);
    forall i | 0 <= i < 3 ensures Apply(j, e)[i] == SpeedShare(n, relative, dt, e)[i] {
      DotTimes(1.0 / dt, coupling[i] + Basis(6, 6), e);
      RowActs(coupling[i] + Basis(6, 6), coupling[i], 6, e);
    }
  }

  lemma SpeedIsNear(lib: Libraries, config: Config, n: Nominal, relative: Pose, dt: real, e: Vector, d: real, kd: real)
    requires lib.Valid() && n.Shaped() && ValidPose(relative) && dt > 0.0 && |e| == 9
    requires EntriesWithin(Apply(n.pose.rotation, Remainder(lib, e[..3], relative.translation)), d)
    requires kd == 1.0 / dt * d
    ensures Near(Predicted(lib, config, Corrected(lib, n, e, n.covariance), relative, dt).velocity,
                 Plus(Predicted(lib, config, n, relative, dt).velocity, Apply(SpeedMatrix(n, relative, dt), e)), kd)
  {
    SpeedSplits(lib, config, n, relative, dt, e);
    SpeedMatrixActs(n, relative, dt, e);
    TimesWithin(1.0 / dt, Apply(n.pose.rotation, Remainder(lib, e[..3], relative.translation)), d, kd);
    NearByRest(Predicted(lib, config, Corrected(lib, n, e, n.covariance), relative, dt).velocity,
               Predicted(lib, config, n, relative, dt).velocity, Apply(SpeedMatrix(n, relative, dt), e),
               SpeedRest(lib, n, relative, dt, e), kd);
  }

  lemma SpeedMatrixIsDerivative(lib: Libraries, config: Config, n: Nominal, relative: Pose, dt: real, u: real, c: real)
    requires lib.Valid() && Rodrigues(lib) && n.Shaped() && Orthonormal(n.pose.rotation) && ValidPose(relative)
    requires dt > 0.0 && EntriesWithin(relative.translation, u) && c == 1.0 / dt * (9.0 * u)
    ensures IsDerivative(SpeedAfter(lib, config, n, relative, dt), Predicted(lib, config, n, relative, dt).velocity,
                         SpeedMatrix(n, relative, dt), c)
  {
    var base, j := Predicted(lib, config, n, relative, dt).velocity, SpeedMatrix(n, relative, dt);
    forall e: Vector, s: real {:trigger EntriesWithin(e, s)} | |e| == 9 && EntriesWithin(e, s) && s <= 1.0
      ensures Near(SpeedAfter(lib, config, n, relative, dt)(e), Plus(base, Apply(j, e)), c * (s * s))
    {
      SpeedIsNearBy(lib, config, n, relative, dt, e, s, u, c);
    }
  }

  lemma SpeedIsNearBy(lib: Libraries, config: Config, n: Nominal, relative: Pose, dt: real, e: Vector, s: real,
                      u: real, c: real)
    requires lib.Valid() && Rodrigues(lib) && n.Shaped() && Orthonormal(n.pose.rotation) && ValidPose(relative)
    requires dt > 0.0 && EntriesWithin(relative.translation, u) && c == 1.0 / dt * (9.0 * u)
    requires |e| == 9 && EntriesWithin(e, s) && s <= 1.0
    ensures Near(Predicted(lib, config, Corrected(lib, n, e, n.covariance), relative, dt).velocity,
                 Plus(Predicted(lib, config, n, relative, dt).velocity, Apply(SpeedMatrix(n, relative, dt), e)),
                 c * (s * s))
  {
    RestWithin(lib, n.pose.rotation, e, relative.translation, s, u);
    Associate(c, 1.0 / dt, 9.0 * u, s * s);
    SpeedIsNear(lib, config, n, relative, dt, e, 9.0 * u * (s * s), c * (s * s));
  }

  lemma Associate(c: real, x: real, y: real, z: real)
    requires c == x * y
    ensures c * z == x * (y * z)
  {
  }

  lemma TimesWithin(k: real, v: Vector, d: real, kd: real)
    requires k >= 0.0 && EntriesWithin(v, d) && kd == k * d
    ensures EntriesWithin(Times(k, v), kd)
  {
    forall i | 0 <= i < |v| ensures -kd <= Times(k, v)[i] <= kd {
      ProductWithin(k, v[i], k, d);
    }
  }

  lemma SpeedMatrixIsSomeDerivative(lib: Libraries, config: Config, n: Nominal, relative: Pose, dt: real)
    returns (c: real)
    requires lib.Valid() && Rodrigues(lib) && n.Shaped() && Orthonormal(n.pose.rotation) && ValidPose(relative)
    requires dt > 0.0
    ensures IsDerivative(SpeedAfter(lib, config, n, relative, dt), Predicted(lib, config, n, relative, dt).velocity,
                         SpeedMatrix(n, relative, dt), c)
  {
    var u := BoundOf(relative.translation);
    c := 1.0 / dt * (9.0 * u);
    SpeedMatrixIsDerivative(lib, config, n, relative, dt, u, c);
  }

  function VelocityRows(n: Nominal, relative: Pose): (m: Matrix)
    requires n.Shaped() && ValidPose(relative)
    ensures Shape(m, 3, 9)
  {
    PredictionTransition(n, relative)[6..]
  }

  // The velocity rows of the transition are the derivative of the predicted velocity for no state, increment or dt.
  lemma VelocityRowsAreNoDerivative(lib: Libraries, config: Config, n: Nominal, relative: Pose, dt: real, c: real)
    requires lib.Valid() && Rodrigues(lib) && n.Shaped() && Orthonormal(n.pose.rotation) && ValidPose(relative)
    requires dt > 0.0
    ensures !IsDerivative(SpeedAfter(lib, config, n, relative, dt), Predicted(lib, config, n, relative, dt).velocity,
                          VelocityRows(n, relative), c)
  {
    var d := SpeedMatrixIsSomeDerivative(lib, config, n, relative, dt);
    SpeedMatrixDiffers(n, relative, dt);
    NoOtherDerivative(SpeedAfter(lib, config, n, relative, dt), Predicted(lib, config, n, relative, dt).velocity,
                      VelocityRows(n, relative), SpeedMatrix(n, relative, dt), c, d);
  }

  lemma SpeedMatrixDiffers(n: Nominal, relative: Pose, dt: real)
    requires n.Shaped() && ValidPose(relative) && dt > 0.0
    ensures VelocityRows(n, relative) != SpeedMatrix(n, relative, dt)
  {
    var coupling := Product(Scaled(-1.0, n.pose.rotation, 3), Skew(relative.translation), 3);
    assert (coupling[0] + Basis(6, 6))[6] == 0.0;
    assert SpeedMatrix(n, relative, dt)[0][6] == 1.0 / dt * 0.0;
    assert VelocityRows(n, relative)[0][6] == 1.0;
  }
}
