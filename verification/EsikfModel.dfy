// The global error-state filter on values: nominal state, covariance and what each operation makes of them.
// Error coordinates are [dtheta, dp, dv].
module EsikfModel {
  import opened Basics
  import opened Matrices
  import opened KalmanAlgebra
  import opened RtkQueue

  datatype Pose = Pose(rotation: Matrix, translation: Vector)

  // The rotation functions of the geometry library and the LDLT solver of the linear algebra library.
  // Nothing is assumed of them but the shapes of what they return. `solve(S)` is what the decomposition of S returns
  // for I, or None when the decomposition reports failure.
  datatype Libraries = Libraries(
    expmap: Vector -> Matrix, logmap: Matrix -> Vector, yawOf: Matrix -> real,
    replaceYaw: (Matrix, real) -> Matrix, solve: Matrix -> Option<Matrix>)
  {
    ghost predicate Valid() {
      && (forall v: Vector {:trigger expmap(v)} :: |v| == 3 ==> Shape(expmap(v), 3, 3))
      && (forall m: Matrix {:trigger logmap(m)} :: Shape(m, 3, 3) ==> |logmap(m)| == 3)
      && (forall m: Matrix, yaw: real {:trigger replaceYaw(m, yaw)} :: Shape(m, 3, 3) ==>
         Shape(replaceYaw(m, yaw), 3, 3))
      && (forall s: Matrix {:trigger solve(s)} :: Shape(s, |s|, |s|) && solve(s).Some? ==>
         Shape(solve(s).value, |s|, |s|))
    }
  }

  datatype Config = Config(
    enabled: bool, syncTolerance: real,
    rotationProcessVariance: real, positionProcessVariance: real, velocityProcessVariance: real,
    positionNisGate: real, velocityNisGate: real, headingNisGate: real,
    headingOffset: real, imuToAntenna: Vector)
  {
    ghost predicate Valid() {
      && rotationProcessVariance >= 0.0 && positionProcessVariance >= 0.0 && velocityProcessVariance >= 0.0
      && |imuToAntenna| == 3
    }
  }

  ghost predicate NonnegativeEntries(v: Vector) {
    forall k :: 0 <= k < |v| ==> v[k] >= 0.0
  }

  // Variances of an observation are never negative.
  ghost predicate ValidObservation(o: Observation) {
    && |o.position| == |o.positionVariance| == |o.velocity| == |o.velocityVariance| == 3
    && NonnegativeEntries(o.positionVariance) && NonnegativeEntries(o.velocityVariance) && o.headingVariance >= 0.0
  }

  ghost predicate ValidPose(p: Pose) {
    Shape(p.rotation, 3, 3) && |p.translation| == 3
  }

  // What predict and the updates change.
  datatype Nominal = Nominal(pose: Pose, velocity: Vector, angularVelocity: Vector, covariance: Matrix) {
    ghost predicate Valid() {
      && ValidPose(pose) && |velocity| == |angularVelocity| == 3
      && Covariance(covariance, 9)
    }

    ghost predicate Shaped() {
      && ValidPose(pose) && |velocity| == |angularVelocity| == 3
      && Shape(covariance, 9, 9)
    }
  }

  // ---------------------------------------------------------------- geometry

  function Zero3(): Vector {
    [0.0, 0.0, 0.0]
  }

  function Cross(a: Vector, b: Vector): Vector
    requires |a| == |b| == 3
  {
    [a[1] * b[2] - a[2] * b[1], a[2] * b[0] - a[0] * b[2], a[0] * b[1] - a[1] * b[0]]
  }

  function Skew(v: Vector): Matrix
    requires |v| == 3
  {
    [[0.0, -v[2], v[1]], [v[2], 0.0, -v[0]], [-v[1], v[0], 0.0]]
  }

  function Compose(a: Pose, b: Pose): Pose
    requires ValidPose(a) && ValidPose(b)
  {
    Pose(Product(a.rotation, b.rotation, 3), Plus(a.translation, Apply(a.rotation, b.translation)))
  }

  // The motion that leads from one pose to another, seen from the first.
  function Between(a: Pose, b: Pose): Pose
    requires ValidPose(a) && ValidPose(b)
  {
    var inverse := Transpose(a.rotation, 3);
    Pose(Product(inverse, b.rotation, 3), Apply(inverse, Minus(b.translation, a.translation)))
  }

  const PI: real := 3.14159265358979323846

  // An angle brought into [-PI, PI] by full turns.
  function WrapAngle(angle: real): (r: real)
    decreases if angle > PI then angle else if angle < -PI then -angle else 0.0
  {
    if angle > PI then WrapAngle(angle - 2.0 * PI)
    else if angle < -PI then WrapAngle(angle + 2.0 * PI)
    else angle
  }

  lemma {:induction false} WrapAngleTurns(angle: real) returns (turns: int)
    ensures -PI <= WrapAngle(angle) <= PI
    ensures WrapAngle(angle) == angle + turns as real * (2.0 * PI)
    ensures -PI <= angle <= PI ==> turns == 0
    decreases if angle > PI then angle else if angle < -PI then -angle else 0.0
  {
    if angle > PI {
      turns := WrapAngleTurns(angle - 2.0 * PI);
      turns := turns - 1;
    } else if angle < -PI {
      turns := WrapAngleTurns(angle + 2.0 * PI);
      turns := turns + 1;
    } else {
      turns := 0;
    }
  }

  // ---------------------------------------------------------------- prediction

  // The identity with two blocks in the first three columns.
  function Transition(relative: Matrix, coupling: Matrix): (f: Matrix)
    requires Shape(relative, 3, 3) && Shape(coupling, 3, 3)
    ensures Shape(f, 9, 9)
  {
    seq(9, i requires 0 <= i < 9 => seq(9, j requires 0 <= j < 9 =>
      if i < 3 && j < 3 then relative[i][j]
      else if 3 <= i < 6 && j < 3 then coupling[i - 3][j]
      else if i == j then 1.0 else 0.0))
  }

  function ThreeByThree(a: real, b: real, c: real): (v: Vector)
    ensures |v| == 9
  {
    [a, a, a, b, b, b, c, c, c]
  }

  function NoiseVariances(config: Config, dt: real): (d: Vector)
    ensures |d| == 9
  {
    ThreeByThree(config.rotationProcessVariance * dt, config.positionProcessVariance * dt,
                 config.velocityProcessVariance * dt)
  }

  function ProcessNoise(config: Config, dt: real): (q: Matrix)
    ensures Shape(q, 9, 9)
  {
    Diagonal(NoiseVariances(config, dt))
  }

  function PredictionTransition(n: Nominal, relative: Pose): (f: Matrix)
    requires n.Shaped() && ValidPose(relative)
    ensures Shape(f, 9, 9)
  {
    Transition(Transpose(relative.rotation, 3),
               Product(Scaled(-1.0, n.pose.rotation, 3), Skew(relative.translation), 3))
  }

  function Predicted(lib: Libraries, config: Config, n: Nominal, relative: Pose, dt: real): Nominal
    requires n.Shaped() && ValidPose(relative) && dt > 0.0
  {
    var pose := Compose(n.pose, relative);
    Nominal(pose,
            Times(1.0 / dt, Minus(pose.translation, n.pose.translation)),
            Times(1.0 / dt, lib.logmap(relative.rotation)),
            Propagated(n.covariance, PredictionTransition(n, relative), ProcessNoise(config, dt), 9))
  }

  lemma ProcessNoiseIsCovariance(config: Config, dt: real)
    requires config.Valid() && dt > 0.0
    ensures Covariance(ProcessNoise(config, dt), 9)
  {
    var d := NoiseVariances(config, dt);
    forall k | 0 <= k < 9 ensures d[k] >= 0.0 {
      assert config.rotationProcessVariance * dt >= 0.0 && config.positionProcessVariance * dt >= 0.0 &&
             config.velocityProcessVariance * dt >= 0.0;
    }
    DiagonalIsCovariance(d);
  }

  lemma PredictedIsValid(lib: Libraries, config: Config, n: Nominal, relative: Pose, dt: real)
    requires lib.Valid() && config.Valid() && n.Valid() && ValidPose(relative) && dt > 0.0
    ensures Predicted(lib, config, n, relative, dt).Valid()
  {
    ProcessNoiseIsCovariance(config, dt);
    PropagationKeepsCovariance(n.covariance, PredictionTransition(n, relative), ProcessNoise(config, dt), 9);
  }

  ghost predicate Orthonormal(m: Matrix) {
    Shape(m, 3, 3) && Product(Transpose(m, 3), m, 3) == Identity(3)
  }

  lemma OrthonormalUndoes(m: Matrix, v: Vector)
    requires Orthonormal(m) && |v| == 3
    ensures Apply(Transpose(m, 3), Apply(m, v)) == v
  {
    ProductActs(Transpose(m, 3), m, v);
    IdentityActs(v);
  }

  lemma RotationUndone(r: Matrix, q: Matrix)
    requires Orthonormal(r) && Shape(q, 3, 3)
    ensures Product(Transpose(r, 3), Product(r, q, 3), 3) == q
  {
    var back := Product(Transpose(r, 3), Product(r, q, 3), 3);
    forall x: Vector, y: Vector | |x| == 3 && |y| == 3 ensures Form(back, x, y) == Form(q, x, y) {
      ProductForm(Transpose(r, 3), Product(r, q, 3), x, y);
      ProductActs(r, q, y);
      OrthonormalUndoes(r, Apply(q, y));
    }
    SameFormIsEqual(back, q, 3, 3);
  }

  // Prediction moves the global pose by exactly the local increment.
  lemma PredictionKeepsIncrement(a: Pose, relative: Pose)
    requires ValidPose(a) && ValidPose(relative) && Orthonormal(a.rotation)
    ensures Between(a, Compose(a, relative)) == relative
  {
    RotationUndone(a.rotation, relative.rotation);
    var moved := Apply(a.rotation, relative.translation);
    assert Minus(Plus(a.translation, moved), a.translation) == moved;
    OrthonormalUndoes(a.rotation, relative.translation);
  }

  // ---------------------------------------------------------------- initialisation

  function InitialVariances(o: Observation): (d: Vector)
    requires |o.positionVariance| == |o.velocityVariance| == 3
    ensures |d| == 9
  {
    var heading := if o.headingValid then o.headingVariance else 1.0;
    [heading, heading, heading] + o.positionVariance +
    if o.velocityValid then o.velocityVariance else [4.0, 4.0, 4.0]
  }

  function InitialCovariance(o: Observation): (m: Matrix)
    requires |o.positionVariance| == |o.velocityVariance| == 3
    ensures Shape(m, 9, 9)
  {
    Diagonal(InitialVariances(o))
  }

  function InitialisedRotation(lib: Libraries, config: Config, o: Observation, local: Pose): (r: Matrix)
    requires lib.Valid() && ValidPose(local)
    ensures Shape(r, 3, 3)
  {
    if o.headingValid then lib.replaceYaw(local.rotation, WrapAngle(o.heading + config.headingOffset))
    else local.rotation
  }

  function Initialised(lib: Libraries, config: Config, n: Nominal, o: Observation, local: Pose): Nominal
    requires lib.Valid() && n.Shaped() && ValidPose(local) && |config.imuToAntenna| == 3
    requires |o.position| == |o.positionVariance| == |o.velocity| == |o.velocityVariance| == 3
  {
    var rotation := InitialisedRotation(lib, config, o, local);
    Nominal(Pose(rotation, Minus(o.position, Apply(rotation, config.imuToAntenna))),
            if o.velocityValid then Minus(o.velocity, Apply(rotation, Cross(n.angularVelocity, config.imuToAntenna)))
            else Zero3(),
            n.angularVelocity,
            InitialCovariance(o))
  }

  lemma InitialIsCovariance(o: Observation)
    requires ValidObservation(o)
    ensures Covariance(InitialCovariance(o), 9)
  {
    DiagonalIsCovariance(InitialVariances(o));
  }

  lemma InitialisedIsValid(lib: Libraries, config: Config, n: Nominal, o: Observation, local: Pose)
    requires lib.Valid() && config.Valid() && n.Valid() && ValidObservation(o) && ValidPose(local)
    ensures Initialised(lib, config, n, o, local).Valid()
  {
    InitialIsCovariance(o);
  }

  // ---------------------------------------------------------------- measurement updates

  // A measurement that depends on the rotation through `left` and directly on three error coordinates.
  function Jacobian(left: Matrix, at: nat): (h: Matrix)
    requires Shape(left, 3, 3)
    ensures Shape(h, 3, 9)
  {
    seq(3, i requires 0 <= i < 3 => seq(9, j requires 0 <= j < 9 =>
      if j < 3 then left[i][j] else if j == at + i then 1.0 else 0.0))
  }

  function Corrected(lib: Libraries, n: Nominal, error: Vector, covariance: Matrix): Nominal
    requires n.Shaped() && |error| == 9 && Shape(lib.expmap(error[..3]), 3, 3)
  {
    Nominal(Pose(Product(n.pose.rotation, lib.expmap(error[..3]), 3), Plus(n.pose.translation, error[3..6])),
            Plus(n.velocity, error[6..]), n.angularVelocity, covariance)
  }

  // One gated update: None when the measurement is rejected.
  function Updated(lib: Libraries, n: Nominal, innovation: Vector, h: Matrix, r: Matrix, gate: real): Option<Nominal>
    requires n.Shaped() && Shape(h, |innovation|, 9) && Shape(r, |innovation|, |innovation|)
    requires lib.Valid()
  {
    var k := |innovation|;
    var s := InnovationCovariance(n.covariance, h, r, 9, k);
    match lib.solve(s)
    case None => None
    case Some(x) =>
      if Dot(innovation, Apply(x, innovation)) > gate then None
      else
        var gain := Gain(n.covariance, h, x, 9, k);
        Some(Corrected(lib, n, Apply(gain, innovation), Symmetrised(Joseph(n.covariance, h, r, gain, 9, k), 9)))
  }

  lemma UpdatedIsValid(lib: Libraries, n: Nominal, innovation: Vector, h: Matrix, r: Matrix, gate: real)
    requires lib.Valid() && n.Valid() && Shape(h, |innovation|, 9) && Covariance(r, |innovation|)
    ensures Updated(lib, n, innovation, h, r, gate).Some? ==> Updated(lib, n, innovation, h, r, gate).value.Valid()
  {
    var k := |innovation|;
    var x := lib.solve(InnovationCovariance(n.covariance, h, r, 9, k));
    if x.Some? {
      JosephKeepsCovariance(n.covariance, h, r, Gain(n.covariance, h, x.value, 9, k), 9, k);
    }
  }

  // When the solver really solves for S, singular or not, an accepted update lowers or keeps every variance.
  lemma AcceptedUpdateNeverRaisesVariance(lib: Libraries, n: Nominal, innovation: Vector, h: Matrix, r: Matrix,
                                          gate: real, i: nat)
    requires lib.Valid() && n.Valid() && Shape(h, |innovation|, 9) && Covariance(r, |innovation|) && i < 9
    requires Updated(lib, n, innovation, h, r, gate).Some?
    requires var s := InnovationCovariance(n.covariance, h, r, 9, |innovation|);
             Solves(s, lib.solve(s).value, |innovation|)
    ensures Shape(Updated(lib, n, innovation, h, r, gate).value.covariance, 9, 9)
    ensures Updated(lib, n, innovation, h, r, gate).value.covariance[i][i] <= n.covariance[i][i]
  {
    var k := |innovation|;
    var x := lib.solve(InnovationCovariance(n.covariance, h, r, 9, k)).value;
    JosephKeepsCovariance(n.covariance, h, r, Gain(n.covariance, h, x, 9, k), 9, k);
    OptimalUpdateNeverRaisesVariance(n.covariance, h, r, x, 9, k, i);
  }

  // ---------------------------------------------------------------- the three measurements

  function PredictedAntenna(config: Config, n: Nominal): Vector
    requires n.Shaped() && |config.imuToAntenna| == 3
  {
    Plus(n.pose.translation, Apply(n.pose.rotation, config.imuToAntenna))
  }

  function LeverVelocity(config: Config, n: Nominal): Vector
    requires n.Shaped() && |config.imuToAntenna| == 3
  {
    Cross(n.angularVelocity, config.imuToAntenna)
  }

  function PredictedVelocity(config: Config, n: Nominal): Vector
    requires n.Shaped() && |config.imuToAntenna| == 3
  {
    Plus(n.velocity, Apply(n.pose.rotation, LeverVelocity(config, n)))
  }

  // Initialisation makes the position innovation, and the velocity innovation when there is one, vanish.
  lemma InitialisationExplainsObservation(lib: Libraries, config: Config, n: Nominal, o: Observation, local: Pose)
    requires lib.Valid() && config.Valid() && n.Valid() && ValidObservation(o) && ValidPose(local)
    ensures Initialised(lib, config, n, o, local).Valid()
    ensures PredictedAntenna(config, Initialised(lib, config, n, o, local)) == o.position
    ensures o.velocityValid ==> PredictedVelocity(config, Initialised(lib, config, n, o, local)) == o.velocity
  {
    InitialisedIsValid(lib, config, n, o, local);
    var m := Initialised(lib, config, n, o, local);
    SubtractThenAdd(o.position, Apply(m.pose.rotation, config.imuToAntenna));
    SubtractThenAdd(o.velocity, Apply(m.pose.rotation, LeverVelocity(config, m)));
  }

  lemma SubtractThenAdd(a: Vector, b: Vector)
    requires |a| == |b|
    ensures Plus(Minus(a, b), b) == a
  {
  }

  // The Jacobian for a vector carried by the body: -R skew(v), plus the identity at `at`.
  function CarriedJacobian(n: Nominal, v: Vector, at: nat): (h: Matrix)
    requires n.Shaped() && |v| == 3
    ensures Shape(h, 3, 9)
  {
    Jacobian(Product(Scaled(-1.0, n.pose.rotation, 3), Skew(v), 3), at)
  }

  // A row made of three entries and a unit vector.
  lemma RowActs(row: Vector, left: Vector, k: nat, e: Vector)
    requires |row| == |e| == 9 && |left| == 3 && row == left + Basis(6, k)
    ensures Dot(row, e) == Dot(left, e[..3]) + if k < 6 then e[3 + k] else 0.0
  {
    assert e == e[..3] + e[3..];
    DotAppend(left, Basis(6, k), e[..3], e[3..]);
    DotBasis(e[3..], k);
  }

  // -R skew(v) applied to a small rotation is how R v moves: R (dtheta x v).
  lemma SkewActs(r: Matrix, v: Vector, dtheta: Vector)
    requires Shape(r, 3, 3) && |v| == |dtheta| == 3
    ensures Apply(Product(Scaled(-1.0, r, 3), Skew(v), 3), dtheta) == Apply(r, Cross(dtheta, v))
  {
    var u := Apply(Skew(v), dtheta);
    ProductActs(Scaled(-1.0, r, 3), Skew(v), dtheta);
    SkewIsCross(v, dtheta);
    forall i | 0 <= i < 3 ensures Apply(Scaled(-1.0, r, 3), u)[i] == Apply(r, Times(-1.0, u))[i] {
      DotTimes(-1.0, r[i], u);
      DotTimes(-1.0, u, r[i]);
      DotCommutes(u, r[i]);
      DotCommutes(Times(-1.0, u), r[i]);
    }
    assert Times(-1.0, u) == Cross(dtheta, v);
  }

  lemma DotOfThree(a: Vector, b: Vector)
    requires |a| == |b| == 3
    ensures Dot(a, b) == a[0] * b[0] + a[1] * b[1] + a[2] * b[2]
  {
    assert Dot(a[..1], b[..1]) == Dot(a[..1][..0], b[..1][..0]) + a[0] * b[0];
    assert a[..2][..1] == a[..1] && b[..2][..1] == b[..1];
    assert Dot(a[..2], b[..2]) == Dot(a[..1], b[..1]) + a[1] * b[1];
  }

  lemma SkewIsCross(v: Vector, x: Vector)
    requires |v| == |x| == 3
    ensures Apply(Skew(v), x) == Cross(v, x)
  {
    DotOfThree(Skew(v)[0], x);
    DotOfThree(Skew(v)[1], x);
    DotOfThree(Skew(v)[2], x);
    var s := Apply(Skew(v), x);
    assert s[0] == 0.0 * x[0] + (-v[2]) * x[1] + v[1] * x[2] == v[1] * x[2] - v[2] * x[1];
    assert s[1] == v[2] * x[0] + 0.0 * x[1] + (-v[0]) * x[2] == v[2] * x[0] - v[0] * x[2];
    assert s[2] == (-v[1]) * x[0] + v[0] * x[1] + 0.0 * x[2] == v[0] * x[1] - v[1] * x[0];
    assert s == [s[0], s[1], s[2]];
  }

  // What the jacobian makes of an error [dtheta, dp, dv].
  lemma CarriedJacobianActs(n: Nominal, v: Vector, at: nat, e: Vector)
    requires n.Shaped() && |v| == 3 && (at == 3 || at == 6) && |e| == 9
    ensures Apply(CarriedJacobian(n, v, at), e) ==
            Plus(Apply(n.pose.rotation, Cross(e[..3], v)), e[at..at + 3])
  {
    var left := Product(Scaled(-1.0, n.pose.rotation, 3), Skew(v), 3);
    var h := CarriedJacobian(n, v, at);
    SkewActs(n.pose.rotation, v, e[..3]);
    forall i | 0 <= i < 3 ensures Apply(h, e)[i] == Apply(left, e[..3])[i] + e[at..at + 3][i] {
      assert h[i] == left[i] + Basis(6, at - 3 + i);
      RowActs(h[i], left[i], at - 3 + i, e);
    }
  }

  // Row k of the transition, applied to an error.
  lemma TransitionRowActs(back: Matrix, coupling: Matrix, e: Vector, k: nat)
    requires Shape(back, 3, 3) && Shape(coupling, 3, 3) && |e| == 9 && k < 9
    ensures Dot(Transition(back, coupling)[k], e)
            == if k < 3 then Dot(back[k], e[..3])
               else if k < 6 then Dot(coupling[k - 3], e[..3]) + e[k] else e[k]
  {
    var f, i := Transition(back, coupling), k % 3;
    TransitionRows(back, coupling, i);
    if k < 3 {
      RowActs(f[k], back[i], 6, e);
    } else if k < 6 {
      RowActs(f[k], coupling[i], i, e);
    } else {
      RowActs(f[k], Zero3(), 3 + i, e);
      DotOfThree(Zero3(), e[..3]);
    }
  }

  // What the transition makes of an error [dtheta, dp, dv].
  lemma TransitionActs(n: Nominal, relative: Pose, e: Vector)
    requires n.Shaped() && ValidPose(relative) && |e| == 9
    ensures Apply(PredictionTransition(n, relative), e) ==
            Apply(Transpose(relative.rotation, 3), e[..3]) +
            Plus(Apply(n.pose.rotation, Cross(e[..3], relative.translation)), e[3..6]) + e[6..]
  {
    var back := Transpose(relative.rotation, 3);
    var coupling := Product(Scaled(-1.0, n.pose.rotation, 3), Skew(relative.translation), 3);
    SkewActs(n.pose.rotation, relative.translation, e[..3]);
    BlocksAct(back, coupling, e);
  }

  lemma BlocksAct(back: Matrix, coupling: Matrix, e: Vector)
    requires Shape(back, 3, 3) && Shape(coupling, 3, 3) && |e| == 9
    ensures Apply(Transition(back, coupling), e)
            == Apply(back, e[..3]) + Plus(Apply(coupling, e[..3]), e[3..6]) + e[6..]
  {
    var r := Apply(back, e[..3]) + Plus(Apply(coupling, e[..3]), e[3..6]) + e[6..];
    forall k | 0 <= k < 9 ensures Apply(Transition(back, coupling), e)[k] == r[k] {
      TransitionRowActs(back, coupling, e, k);
    }
  }

  lemma TransitionRows(back: Matrix, coupling: Matrix, i: nat)
    requires Shape(back, 3, 3) && Shape(coupling, 3, 3) && i < 3
    ensures var f := Transition(back, coupling);
            f[i] == back[i] + Basis(6, 6) && f[3 + i] == coupling[i] + Basis(6, i) &&
              f[6 + i] == Zero3() + Basis(6, 3 + i)
  {
  }

  const STEP: real := 0.000001

  function PerturbedYawRate(lib: Libraries, n: Nominal, axis: nat): real
    requires n.Shaped() && Shape(lib.expmap(Times(STEP, Basis(3, axis))), 3, 3)
  {
    var perturbed := Product(n.pose.rotation, lib.expmap(Times(STEP, Basis(3, axis))), 3);
    WrapAngle(lib.yawOf(perturbed) - lib.yawOf(n.pose.rotation)) / STEP
  }

  function HeadingJacobian(lib: Libraries, n: Nominal): (h: Matrix)
    requires n.Shaped()
    requires lib.Valid()
    ensures Shape(h, 1, 9)
  {
    [[PerturbedYawRate(lib, n, 0), PerturbedYawRate(lib, n, 1), PerturbedYawRate(lib, n, 2),
      0.0, 0.0, 0.0, 0.0, 0.0, 0.0]]
  }

  function HeadingNoise(o: Observation): real {
    if o.headingVariance > STEP then o.headingVariance else STEP
  }

  function PositionUpdate(lib: Libraries, config: Config, n: Nominal, o: Observation): Option<Nominal>
    requires lib.Valid() && config.Valid() && n.Shaped() && |o.position| == |o.positionVariance| == 3
  {
    Updated(lib, n, Minus(o.position, PredictedAntenna(config, n)), CarriedJacobian(n, config.imuToAntenna, 3),
            Diagonal(o.positionVariance), config.positionNisGate)
  }

  function VelocityUpdate(lib: Libraries, config: Config, n: Nominal, o: Observation): Option<Nominal>
    requires lib.Valid() && config.Valid() && n.Shaped() && |o.velocity| == |o.velocityVariance| == 3
  {
    Updated(lib, n, Minus(o.velocity, PredictedVelocity(config, n)), CarriedJacobian(n, LeverVelocity(config, n), 6),
            Diagonal(o.velocityVariance), config.velocityNisGate)
  }

  function HeadingUpdate(lib: Libraries, config: Config, n: Nominal, o: Observation): Option<Nominal>
    requires lib.Valid() && config.Valid() && n.Shaped()
  {
    Updated(lib, n, [WrapAngle(o.heading + config.headingOffset - lib.yawOf(n.pose.rotation))],
            HeadingJacobian(lib, n), Diagonal([HeadingNoise(o)]), config.headingNisGate)
  }

  function OrKeep(n: Nominal, update: Option<Nominal>): Nominal {
    match update
    case Some(m) => m
    case None => n
  }

  // Each update keeps the covariance a covariance, whether accepted or rejected.
  lemma PositionUpdateKeepsValid(lib: Libraries, config: Config, n: Nominal, o: Observation)
    requires lib.Valid() && config.Valid() && n.Valid() && ValidObservation(o)
    ensures OrKeep(n, PositionUpdate(lib, config, n, o)).Valid()
  {
    var h, r := CarriedJacobian(n, config.imuToAntenna, 3), Diagonal(o.positionVariance);
    DiagonalIsCovariance(o.positionVariance);
    UpdatedIsValid(lib, n, Minus(o.position, PredictedAntenna(config, n)), h, r, config.positionNisGate);
  }

  lemma VelocityUpdateKeepsValid(lib: Libraries, config: Config, n: Nominal, o: Observation)
    requires lib.Valid() && config.Valid() && n.Valid() && ValidObservation(o)
    ensures OrKeep(n, VelocityUpdate(lib, config, n, o)).Valid()
  {
    var h, r := CarriedJacobian(n, LeverVelocity(config, n), 6), Diagonal(o.velocityVariance);
    DiagonalIsCovariance(o.velocityVariance);
    UpdatedIsValid(lib, n, Minus(o.velocity, PredictedVelocity(config, n)), h, r, config.velocityNisGate);
  }

  lemma ScalarUpdateKeepsValid(lib: Libraries, n: Nominal, z: real, h: Matrix, variance: real, gate: real)
    requires lib.Valid() && n.Valid() && Shape(h, 1, 9) && variance >= 0.0
    ensures OrKeep(n, Updated(lib, n, [z], h, Diagonal([variance]), gate)).Valid()
  {
    DiagonalIsCovariance([variance]);
    UpdatedIsValid(lib, n, [z], h, Diagonal([variance]), gate);
  }

  lemma HeadingUpdateKeepsValid(lib: Libraries, config: Config, n: Nominal, o: Observation)
    requires lib.Valid() && config.Valid() && n.Valid()
    ensures OrKeep(n, HeadingUpdate(lib, config, n, o)).Valid()
  {
    ScalarUpdateKeepsValid(lib, n, WrapAngle(o.heading + config.headingOffset - lib.yawOf(n.pose.rotation)),
                           HeadingJacobian(lib, n), HeadingNoise(o), config.headingNisGate);
  }
}
