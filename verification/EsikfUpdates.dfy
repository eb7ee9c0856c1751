// What an accepted measurement does to the state: the correction explains the innovation, but for the share that the
// measurement noise accounts for, and an observation is used as far as its gates let it.
module EsikfUpdates {
  import opened Basics
  import opened Matrices
  import opened KalmanAlgebra
  import opened EsikfModel
  import opened ExponentialMap
  import opened RtkQueue
  import opened GlobalEsikf

  // ---------------------------------------------------------------- one measurement

  // The correction e of m over n covers H P H' y of the innovation z and leaves R y, where S y = z. In the direction y
  // it covers no less than nothing and no more than all of z.
  ghost predicate Covers(lib: Libraries, n: Nominal, m: Nominal, z: Vector, h: Matrix, r: Matrix, y: Vector, e: Vector)
    requires lib.Valid() && n.Shaped() && |y| == |z| && Shape(h, |z|, 9) && Shape(r, |z|, |z|)
  {
    && |e| == 9 && m == Corrected(lib, n, e, m.covariance)
    && Apply(h, e) == Minus(z, Apply(r, y))
    && Apply(h, e) == Apply(Congruent(h, n.covariance, |z|, 9), y)
    && 0.0 <= Dot(y, Apply(h, e)) <= Dot(y, z)
  }

  ghost predicate Explains(lib: Libraries, n: Nominal, m: Nominal, z: Vector, h: Matrix, r: Matrix, y: Vector)
    requires lib.Valid() && n.Shaped() && |y| == |z| && Shape(h, |z|, 9) && Shape(r, |z|, |z|)
  {
    exists e :: Covers(lib, n, m, z, h, r, y, e)
  }

  // P H' X z = P H' y
  lemma GainOnInnovation(p: Matrix, h: Matrix, r: Matrix, x: Matrix, n: nat, k: nat, z: Vector, y: Vector)
    requires Covariance(p, n) && Shape(h, k, n) && Covariance(r, k) && Shape(x, k, k) && |z| == |y| == k
    requires var s := InnovationCovariance(p, h, r, n, k); Solves(s, x, k) && Apply(s, y) == z
    ensures Apply(Gain(p, h, x, n, k), z) == Apply(p, Apply(Transpose(h, n), y))
  {
    var s, ht := InnovationCovariance(p, h, r, n, k), Transpose(h, n);
    var w := Apply(x, z);
    var left, right := Apply(Gain(p, h, x, n, k), z), Apply(p, Apply(ht, y));
    ProductActs(Product(p, ht, k), x, z);
    ProductActs(p, ht, w);
    assert Apply(s, w) == Apply(s, y);
    forall a: Vector {:trigger Dot(left, a)} | |a| == n ensures Dot(left, a) == Dot(right, a) {
      SameInnovation(p, h, r, n, k, y, w, a);
      DotCommutes(left, a);
      DotCommutes(right, a);
    }
    SameDotIsEqual(left, right);
  }

  lemma InnovationSplits(p: Matrix, h: Matrix, r: Matrix, n: nat, k: nat, y: Vector)
    requires Shape(p, n, n) && Shape(h, k, n) && Shape(r, k, k) && |y| == k
    ensures Apply(InnovationCovariance(p, h, r, n, k), y)
            == Plus(Apply(Congruent(h, p, k, n), y), Apply(r, y))
    ensures Apply(Congruent(h, p, k, n), y) == Apply(h, Apply(p, Apply(Transpose(h, n), y)))
  {
    SumActs(Congruent(h, p, k, n), r, y);
    ProductActs(Product(h, p, n), Transpose(h, n), y);
    ProductActs(h, p, Apply(Transpose(h, n), y));
  }

  lemma SharesAddUp(c: Vector, d: Vector, z: Vector, y: Vector)
    requires |c| == |d| == |y| && z == Plus(c, d)
    ensures c == Minus(z, d) && Dot(y, z) == Dot(y, c) + Dot(y, d)
  {
    DotCommutes(y, z);
    DotPlus(c, d, y);
    DotCommutes(c, y);
    DotCommutes(d, y);
  }

  lemma SharesAreNonnegative(p: Matrix, h: Matrix, r: Matrix, n: nat, k: nat, y: Vector, c: Vector, z: Vector)
    requires Covariance(p, n) && Shape(h, k, n) && Covariance(r, k) && |y| == k
    requires c == Apply(Congruent(h, p, k, n), y) && z == Plus(c, Apply(r, y))
    ensures c == Minus(z, Apply(r, y)) && 0.0 <= Dot(y, c) <= Dot(y, z)
  {
    CongruentKeepsCovariance(h, p, k, n);
    SharesAddUp(c, Apply(r, y), z, y);
    assert Form(Congruent(h, p, k, n), y, y) >= 0.0 && Form(r, y, y) >= 0.0;
  }

  // An accepted update explains its innovation.
  lemma UpdateExplains(lib: Libraries, n: Nominal, z: Vector, h: Matrix, r: Matrix, gate: real, y: Vector)
    requires lib.Valid() && n.Valid() && Shape(h, |z|, 9) && Covariance(r, |z|) && |y| == |z|
    requires Updated(lib, n, z, h, r, gate).Some?
    requires var s := InnovationCovariance(n.covariance, h, r, 9, |z|);
             Solves(s, lib.solve(s).value, |z|) && Apply(s, y) == z
    ensures Explains(lib, n, Updated(lib, n, z, h, r, gate).value, z, h, r, y)
  {
    var k, p := |z|, n.covariance;
    var x := lib.solve(InnovationCovariance(p, h, r, 9, k)).value;
    var e, c := Apply(Gain(p, h, x, 9, k), z), Apply(Congruent(h, p, k, 9), y);
    GainOnInnovation(p, h, r, x, 9, k, z, y);
    InnovationSplits(p, h, r, 9, k, y);
    SharesAreNonnegative(p, h, r, 9, k, y, c, z);
    assert Covers(lib, n, Updated(lib, n, z, h, r, gate).value, z, h, r, y, e);
  }

  // It is accepted exactly when the solver succeeds and the innovation, weighted by the inverse of its covariance,
  // is within the gate: z' S^-1 z = z' y.
  lemma AcceptedIffWithinGate(lib: Libraries, n: Nominal, z: Vector, h: Matrix, r: Matrix, gate: real, y: Vector)
    requires lib.Valid() && n.Valid() && Shape(h, |z|, 9) && Covariance(r, |z|) && |y| == |z|
    requires var s := InnovationCovariance(n.covariance, h, r, 9, |z|);
             && Apply(s, y) == z && (lib.solve(s).Some? ==> Solves(s, lib.solve(s).value, |z|))
    ensures Updated(lib, n, z, h, r, gate).Some? <==>
            lib.solve(InnovationCovariance(n.covariance, h, r, 9, |z|)).Some? && Dot(z, y) <= gate
  {
    var k := |z|;
    var s := InnovationCovariance(n.covariance, h, r, 9, k);
    if lib.solve(s).Some? {
      var w := Apply(lib.solve(s).value, z);
      InnovationIsCovariance(n.covariance, h, r, 9, k);
      DotCommutes(z, w);
      SymmetricForm(s, k, w, y);
      DotCommutes(z, y);
      assert Form(s, w, y) == Dot(w, z) && Form(s, y, w) == Dot(y, z);
    }
  }

  // ---------------------------------------------------------------- the three measurements

  // The innovation, jacobian and noise of an observation, and the gate it has to pass.
  datatype Measurement = Measurement(z: Vector, h: Matrix, r: Matrix, gate: real) {
    ghost predicate Valid() {
      Shape(h, |z|, 9) && Covariance(r, |z|)
    }
  }

  // Observed minus predicted antenna position, the derivative of the prediction, and the observed variances.
  function PositionMeasurement(config: Config, n: Nominal, o: Observation): Measurement
    requires config.Valid() && n.Shaped() && |o.position| == 3
  {
    Measurement(Minus(o.position, PredictedAntenna(config, n)), CarriedJacobian(n, config.imuToAntenna, 3),
                Diagonal(o.positionVariance), config.positionNisGate)
  }

  function VelocityMeasurement(config: Config, n: Nominal, o: Observation): Measurement
    requires config.Valid() && n.Shaped() && |o.velocity| == 3
  {
    Measurement(Minus(o.velocity, PredictedVelocity(config, n)),
                CarriedJacobian(n, LeverVelocity(config, n), 6), Diagonal(o.velocityVariance), config.velocityNisGate)
  }

  // The observed minus the predicted yaw, by the shorter turn.
  function HeadingMeasurement(lib: Libraries, config: Config, n: Nominal, o: Observation): Measurement
    requires lib.Valid() && n.Shaped()
  {
    Measurement([WrapAngle(o.heading + config.headingOffset - lib.yawOf(n.pose.rotation))], HeadingJacobian(lib, n),
                Diagonal([HeadingNoise(o)]), config.headingNisGate)
  }

  // m comes out of n by the measurement: nothing changes if it is refused, and otherwise its innovation is explained.
  ghost predicate Takes(lib: Libraries, n: Nominal, m: Nominal, used: bool, q: Measurement)
    requires lib.Valid() && n.Valid() && q.Valid()
  {
    var s := InnovationCovariance(n.covariance, q.h, q.r, 9, |q.z|);
    && (!used ==> m == n)
    && (lib.solve(s).None? ==> !used)
    && (lib.solve(s).Some? && Solves(s, lib.solve(s).value, |q.z|) ==>
          forall y: Vector {:trigger Apply(s, y)} :: |y| == |q.z| && Apply(s, y) == q.z ==>
            && (used <==> Dot(q.z, y) <= q.gate)
            && (used ==> Explains(lib, n, m, q.z, q.h, q.r, y)))
  }

  lemma UpdateTakes(lib: Libraries, n: Nominal, q: Measurement)
    requires lib.Valid() && n.Valid() && q.Valid()
    ensures var u := Updated(lib, n, q.z, q.h, q.r, q.gate);
            Takes(lib, n, OrKeep(n, u), u.Some?, q)
  {
    var u := Updated(lib, n, q.z, q.h, q.r, q.gate);
    var s := InnovationCovariance(n.covariance, q.h, q.r, 9, |q.z|);
    if lib.solve(s).Some? && Solves(s, lib.solve(s).value, |q.z|) {
      forall y: Vector {:trigger Apply(s, y)} | |y| == |q.z| && Apply(s, y) == q.z
        ensures u.Some? <==> Dot(q.z, y) <= q.gate
        ensures u.Some? ==> Explains(lib, n, u.value, q.z, q.h, q.r, y)
      {
        AcceptedIffWithinGate(lib, n, q.z, q.h, q.r, q.gate, y);
        if u.Some? {
          UpdateExplains(lib, n, q.z, q.h, q.r, q.gate, y);
        }
      }
    }
  }

  // A position update takes the observed antenna position.
  lemma PositionIsTaken(lib: Libraries, config: Config, n: Nominal, o: Observation)
    requires lib.Valid() && config.Valid() && n.Valid() && ValidObservation(o)
    ensures PositionMeasurement(config, n, o).Valid()
    ensures var u := PositionUpdate(lib, config, n, o);
            Takes(lib, n, OrKeep(n, u), u.Some?, PositionMeasurement(config, n, o))
  {
    DiagonalIsCovariance(o.positionVariance);
    UpdateTakes(lib, n, PositionMeasurement(config, n, o));
  }

  lemma VelocityIsTaken(lib: Libraries, config: Config, n: Nominal, o: Observation)
    requires lib.Valid() && config.Valid() && n.Valid() && ValidObservation(o)
    ensures VelocityMeasurement(config, n, o).Valid()
    ensures var u := VelocityUpdate(lib, config, n, o);
            Takes(lib, n, OrKeep(n, u), u.Some?, VelocityMeasurement(config, n, o))
  {
    DiagonalIsCovariance(o.velocityVariance);
    UpdateTakes(lib, n, VelocityMeasurement(config, n, o));
  }

  lemma HeadingIsTaken(lib: Libraries, config: Config, n: Nominal, o: Observation)
    requires lib.Valid() && config.Valid() && n.Valid()
    ensures HeadingMeasurement(lib, config, n, o).Valid()
    ensures var u := HeadingUpdate(lib, config, n, o);
            Takes(lib, n, OrKeep(n, u), u.Some?, HeadingMeasurement(lib, config, n, o))
  {
    DiagonalIsCovariance([HeadingNoise(o)]);
    UpdateTakes(lib, n, HeadingMeasurement(lib, config, n, o));
  }

  lemma ExplainedBy(lib: Libraries, n: Nominal, q: Measurement, m: Nominal, y: Vector) returns (e: Vector)
    requires lib.Valid() && n.Valid() && q.Valid() && |y| == |q.z|
    requires Updated(lib, n, q.z, q.h, q.r, q.gate) == Some(m)
    requires var s := InnovationCovariance(n.covariance, q.h, q.r, 9, |q.z|);
             Solves(s, lib.solve(s).value, |q.z|) && Apply(s, y) == q.z
    ensures |e| == 9 && m == Corrected(lib, n, e, m.covariance) && Apply(q.h, e) == Minus(q.z, Apply(q.r, y))
  {
    UpdateExplains(lib, n, q.z, q.h, q.r, q.gate, y);
    e :| Covers(lib, n, m, q.z, q.h, q.r, y, e);
  }

  lemma OneEntry(z: real, noise: real, y: real, moved: Vector)
    requires moved == Minus([z], Apply(Diagonal([noise]), [y]))
    ensures moved[0] + noise * y == z
  {
    DiagonalApplied([noise], [y], 0);
  }

  // The linearised antenna moves to where it was observed, but for what the observed variances account for.
  lemma AntennaIsExplained(lib: Libraries, config: Config, n: Nominal, o: Observation, y: Vector) returns (e: Vector)
    requires lib.Valid() && config.Valid() && n.Valid() && ValidObservation(o) && |y| == 3
    requires PositionUpdate(lib, config, n, o).Some?
    requires var h, r := CarriedJacobian(n, config.imuToAntenna, 3), Diagonal(o.positionVariance);
             var s := InnovationCovariance(n.covariance, h, r, 9, 3);
             && Solves(s, lib.solve(s).value, 3)
             && Apply(s, y) == Minus(o.position, PredictedAntenna(config, n))
    ensures var m := PositionUpdate(lib, config, n, o).value; |e| == 9 && m == Corrected(lib, n, e, m.covariance)
    ensures forall i :: 0 <= i < 3 ==>
              PredictedAntenna(config, n)[i] + Apply(CarriedJacobian(n, config.imuToAntenna, 3), e)[i]
              == o.position[i] - o.positionVariance[i] * y[i]
  {
    var q, m := PositionMeasurement(config, n, o), PositionUpdate(lib, config, n, o).value;
    DiagonalIsCovariance(o.positionVariance);
    e := ExplainedBy(lib, n, q, m, y);
    ObservedButForNoise(o.position, PredictedAntenna(config, n), o.positionVariance, y, Apply(q.h, e));
  }

  // The same for the velocity of the antenna.
  lemma AntennaVelocityIsExplained(lib: Libraries, config: Config, n: Nominal, o: Observation, y: Vector)
    returns (e: Vector)
    requires lib.Valid() && config.Valid() && n.Valid() && ValidObservation(o) && |y| == 3
    requires VelocityUpdate(lib, config, n, o).Some?
    requires var h, r := CarriedJacobian(n, LeverVelocity(config, n), 6), Diagonal(o.velocityVariance);
             var s := InnovationCovariance(n.covariance, h, r, 9, 3);
             && Solves(s, lib.solve(s).value, 3)
             && Apply(s, y) == Minus(o.velocity, PredictedVelocity(config, n))
    ensures var m := VelocityUpdate(lib, config, n, o).value; |e| == 9 && m == Corrected(lib, n, e, m.covariance)
    ensures forall i :: 0 <= i < 3 ==>
              PredictedVelocity(config, n)[i] + Apply(CarriedJacobian(n, LeverVelocity(config, n), 6), e)[i]
              == o.velocity[i] - o.velocityVariance[i] * y[i]
  {
    var q, m := VelocityMeasurement(config, n, o), VelocityUpdate(lib, config, n, o).value;
    DiagonalIsCovariance(o.velocityVariance);
    e := ExplainedBy(lib, n, q, m, y);
    ObservedButForNoise(o.velocity, PredictedVelocity(config, n), o.velocityVariance, y, Apply(q.h, e));
  }

  lemma ObservedButForNoise(observed: Vector, predicted: Vector, variances: Vector, y: Vector, moved: Vector)
    requires |observed| == |predicted| == |variances| == |y| == 3
    requires moved == Minus(Minus(observed, predicted), Apply(Diagonal(variances), y))
    ensures forall i :: 0 <= i < 3 ==> predicted[i] + moved[i] == observed[i] - variances[i] * y[i]
  {
    forall i | 0 <= i < 3 ensures predicted[i] + moved[i] == observed[i] - variances[i] * y[i] {
      DiagonalApplied(variances, y, i);
    }
  }

  // The yaw, as far as the numeric derivatives tell, moves to the observed heading up to whole turns, but for what the
  // noise accounts for.
  lemma YawIsExplained(lib: Libraries, config: Config, n: Nominal, o: Observation, y: real)
    returns (e: Vector, turns: int)
    requires lib.Valid() && config.Valid() && n.Valid() && HeadingUpdate(lib, config, n, o).Some?
    requires var s := InnovationCovariance(n.covariance, HeadingJacobian(lib, n), Diagonal([HeadingNoise(o)]), 9, 1);
             && Solves(s, lib.solve(s).value, 1)
             && Apply(s, [y]) == [WrapAngle(o.heading + config.headingOffset - lib.yawOf(n.pose.rotation))]
    ensures var m := HeadingUpdate(lib, config, n, o).value; |e| == 9 && m == Corrected(lib, n, e, m.covariance)
    ensures lib.yawOf(n.pose.rotation) + Apply(HeadingJacobian(lib, n), e)[0] + HeadingNoise(o) * y
            == o.heading + config.headingOffset + turns as real * (2.0 * PI)
    ensures -PI <= Apply(HeadingJacobian(lib, n), e)[0] + HeadingNoise(o) * y <= PI
  {
    var q, m := HeadingMeasurement(lib, config, n, o), HeadingUpdate(lib, config, n, o).value;
    DiagonalIsCovariance([HeadingNoise(o)]);
    e := ExplainedBy(lib, n, q, m, [y]);
    turns := WrapAngleTurns(o.heading + config.headingOffset - lib.yawOf(n.pose.rotation));
    OneEntry(q.z[0], HeadingNoise(o), y, Apply(q.h, e));
  }

  // ---------------------------------------------------------------- one observation

  // An observation is taken in three steps: its position always, then its velocity and its heading where valid.
  lemma ObservationIsTaken(lib: Libraries, config: Config, n: Nominal, o: Observation)
    returns (a: Nominal, b: Nominal, position: bool, velocity: bool, heading: bool)
    requires lib.Valid() && config.Valid() && n.Valid() && ValidObservation(o)
    ensures a.Valid() && b.Valid()
    ensures PositionMeasurement(config, n, o).Valid() && VelocityMeasurement(config, a, o).Valid()
    ensures HeadingMeasurement(lib, config, b, o).Valid()
    ensures Takes(lib, n, a, position, PositionMeasurement(config, n, o))
    ensures if o.velocityValid then Takes(lib, a, b, velocity, VelocityMeasurement(config, a, o))
            else b == a && !velocity
    ensures var (c, used) := Assimilated(lib, config, n, o);
            && used == (position || velocity || heading)
            && if o.headingValid then Takes(lib, b, c, heading, HeadingMeasurement(lib, config, b, o))
               else c == b && !heading
  {
    PositionUpdateKeepsValid(lib, config, n, o);
    PositionIsTaken(lib, config, n, o);
    position, a := PositionUpdate(lib, config, n, o).Some?, OrKeep(n, PositionUpdate(lib, config, n, o));
    VelocityUpdateKeepsValid(lib, config, a, o);
    VelocityIsTaken(lib, config, a, o);
    velocity, b := false, a;
    if o.velocityValid {
      velocity, b := VelocityUpdate(lib, config, a, o).Some?, OrKeep(a, VelocityUpdate(lib, config, a, o));
    }
    HeadingIsTaken(lib, config, b, o);
    heading := o.headingValid && HeadingUpdate(lib, config, b, o).Some?;
  }

  // ---------------------------------------------------------------- initialisation and propagation

  // The heading innovation vanishes after initialisation, if setting the yaw of a rotation gives it that yaw.
  lemma InitialisationExplainsHeading(lib: Libraries, config: Config, n: Nominal, o: Observation, local: Pose)
    requires lib.Valid() && config.Valid() && n.Valid() && ValidObservation(o) && ValidPose(local) && o.headingValid
    requires forall m: Matrix, yaw: real {:trigger lib.replaceYaw(m, yaw)} ::
               -PI <= yaw <= PI ==> lib.yawOf(lib.replaceYaw(m, yaw)) == yaw
    ensures var m := Initialised(lib, config, n, o, local);
            WrapAngle(o.heading + config.headingOffset - lib.yawOf(m.pose.rotation)) == 0.0
  {
    var angle := o.heading + config.headingOffset;
    var turns := WrapAngleTurns(angle);
    WholeTurnsVanish(-turns);
  }

  lemma {:induction false} WholeTurnsVanish(turns: int)
    ensures WrapAngle(turns as real * (2.0 * PI)) == 0.0
    decreases if turns < 0 then -turns else turns
  {
    var angle := turns as real * (2.0 * PI);
    if turns > 0 {
      assert (turns - 1) as real * (2.0 * PI) == angle - 2.0 * PI;
      WholeTurnsVanish(turns - 1);
    } else if turns < 0 {
      assert (turns + 1) as real * (2.0 * PI) == angle + 2.0 * PI;
      WholeTurnsVanish(turns + 1);
    }
  }

  // The first matched observation anchors the filter: the antenna is where and as fast as observed, and the attitude is
  // the local one but for the observed yaw. Only a later one can update it, and a frame without a match only moves it.
  lemma FirstMatchAnchors(lib: Libraries, config: Config, before: Memory, after: Memory, stamp: real, local: Pose,
                          m: Match, moved: Nominal, rtkUpdated: bool)
    requires FrameOutcome(lib, config, before, after, stamp, local, m, moved, rtkUpdated)
    ensures rtkUpdated ==> before.globallyInitialized && m.best.Some?
    ensures m.best.None? ==> after.state == moved
    ensures m.best.Some? && before.globallyInitialized ==>
              (after.state, rtkUpdated) == Assimilated(lib, config, moved, m.best.value)
    ensures m.best.Some? && !before.globallyInitialized ==>
              && after.globallyInitialized && after.state.Valid()
              && PredictedAntenna(config, after.state) == m.best.value.position
              && (m.best.value.velocityValid ==> PredictedVelocity(config, after.state) == m.best.value.velocity)
              && (!m.best.value.velocityValid ==> after.state.velocity == [0.0, 0.0, 0.0])
              && (!m.best.value.headingValid ==> after.state.pose.rotation == local.rotation)
              && after.state.angularVelocity == moved.angularVelocity
  {
    if m.best.Some? && !before.globallyInitialized {
      InitialisationExplainsObservation(lib, config, moved, m.best.value, local);
    }
  }

  // The initial covariance: each coordinate is as uncertain as the observation says, or as the stated defaults, and no
  // two are correlated.
  lemma InitialUncertainty(lib: Libraries, config: Config, n: Nominal, o: Observation, local: Pose, i: nat, j: nat)
    requires lib.Valid() && config.Valid() && n.Valid() && ValidObservation(o) && ValidPose(local) && i < 3 && j < 9
    ensures var p := Initialised(lib, config, n, o, local).covariance;
            && Shape(p, 9, 9)
            && p[i][j] == (if j != i then 0.0 else if o.headingValid then o.headingVariance else 1.0)
            && p[3 + i][j] == (if j != 3 + i then 0.0 else o.positionVariance[i])
            && p[6 + i][j] == (if j != 6 + i then 0.0 else if o.velocityValid then o.velocityVariance[i] else 4.0)
  {
    var d := InitialVariances(o);
    assert d[3 + i] == o.positionVariance[i];
    assert d[6 + i] == if o.velocityValid then o.velocityVariance[i] else 4.0;
  }

  // A frame that comes at most a second after the last one moves the pose by the local increment, and the velocity and
  // the rate say how fast; a first one sets the pose; any other changes nothing.
  lemma PropagationFollowsLocal(lib: Libraries, config: Config, n: Nominal, haveLivo: bool, lastLocal: Pose,
                                lastStamp: real, stamp: real, local: Pose)
    requires lib.Valid() && config.Valid() && n.Valid() && ValidPose(lastLocal) && ValidPose(local)
    ensures var m := Propagate(lib, config, n, haveLivo, lastLocal, lastStamp, stamp, local);
            && (!haveLivo ==> m == n.(pose := local))
            && (haveLivo && !(0.0 < stamp - lastStamp <= 1.0) ==> m == n)
            && (haveLivo && 0.0 < stamp - lastStamp <= 1.0 ==>
                  && (Orthonormal(n.pose.rotation) ==> Between(n.pose, m.pose) == Between(lastLocal, local))
                  && Plus(n.pose.translation, Times(stamp - lastStamp, m.velocity)) == m.pose.translation
                  && Times(stamp - lastStamp, m.angularVelocity) == lib.logmap(Between(lastLocal, local).rotation))
  {
    var dt := stamp - lastStamp;
    if haveLivo && 0.0 < dt <= 1.0 {
      var relative := Between(lastLocal, local);
      var moved := Compose(n.pose, relative);
      if Orthonormal(n.pose.rotation) {
        PredictionKeepsIncrement(n.pose, relative);
      }
      TimesInverse(dt, Minus(moved.translation, n.pose.translation));
      TimesInverse(dt, lib.logmap(relative.rotation));
      assert Plus(n.pose.translation, Minus(moved.translation, n.pose.translation)) == moved.translation;
    }
  }

  lemma TimesInverse(dt: real, v: Vector)
    requires dt > 0.0
    ensures Times(dt, Times(1.0 / dt, v)) == v
  {
    forall i | 0 <= i < |v| ensures Times(dt, Times(1.0 / dt, v))[i] == v[i] {
      InverseCancels(dt, v[i]);
    }
  }

  lemma InverseCancels(dt: real, x: real)
    requires dt > 0.0
    ensures dt * (1.0 / dt * x) == x
  {
    assert dt * (1.0 / dt) == 1.0;
  }

  // Between two frames each coordinate gathers variance at its configured rate, on top of what the transition carries.
  lemma PredictedUncertainty(lib: Libraries, config: Config, n: Nominal, relative: Pose, dt: real, i: nat, j: nat)
    requires lib.Valid() && config.Valid() && n.Valid() && ValidPose(relative) && dt > 0.0 && i < 9 && j < 9
    ensures var carried := Congruent(PredictionTransition(n, relative), n.covariance, 9, 9);
            Predicted(lib, config, n, relative, dt).covariance[i][j] ==
              carried[i][j] +
              if i != j then 0.0
              else if i < 3 then config.rotationProcessVariance * dt
              else if i < 6 then config.positionProcessVariance * dt
              else config.velocityProcessVariance * dt
  {
    ProcessNoiseIsCovariance(config, dt);
    PropagationKeepsCovariance(n.covariance, PredictionTransition(n, relative), ProcessNoise(config, dt), 9);
  }
}
