// RealtimeGlobalEsikf: the filter object. Each method is proved to turn the nominal state and covariance
// into what EsikfModel says, and to keep the covariance symmetric positive semidefinite, the RTK queue
// sorted and the queue bounded.
module GlobalEsikf {
  import opened Basics
  import opened Matrices
  import opened KalmanAlgebra
  import opened RtkQueue
  import opened EsikfModel

  const QUEUE_LIMIT: nat := 2000

  // Propagation, or a fresh reference after the first frame, a jump back or a long gap.
  function Propagate(lib: Libraries, config: Config, n: Nominal, haveLivo: bool, lastLocal: Pose, lastStamp: real,
                     stamp: real, local: Pose): (r: Nominal)
    requires n.Shaped() && ValidPose(lastLocal) && ValidPose(local)
  {
    var dt := stamp - lastStamp;
    if !haveLivo then n.(pose := local)
    else if dt <= 0.0 || dt > 1.0 then n
    else Predicted(lib, config, n, Between(lastLocal, local), dt)
  }

  lemma PropagateKeepsValid(lib: Libraries, config: Config, n: Nominal, haveLivo: bool, lastLocal: Pose,
                            lastStamp: real, stamp: real, local: Pose)
    requires lib.Valid() && config.Valid() && n.Valid() && ValidPose(lastLocal) && ValidPose(local)
    ensures Propagate(lib, config, n, haveLivo, lastLocal, lastStamp, stamp, local).Valid()
  {
    var dt := stamp - lastStamp;
    if haveLivo && 0.0 < dt <= 1.0 {
      PredictedIsValid(lib, config, n, Between(lastLocal, local), dt);
    }
  }

  // The state after the match of a frame was used, and whether it updated an initialised filter.
  ghost function Used(lib: Libraries, config: Config, n: Nominal, initialized: bool, m: Match, local: Pose)
    : (Nominal, bool)
    requires lib.Valid() && config.Valid() && n.Valid() && ValidPose(local)
    requires m.best.Some? ==> ValidObservation(m.best.value)
  {
    if m.best.None? then (n, false)
    else if initialized then Assimilated(lib, config, n, m.best.value)
    else (Initialised(lib, config, n, m.best.value, local), false)
  }

  // The three updates in order, each from what the one before left; the flag tells whether any was used.
  ghost function Assimilated(lib: Libraries, config: Config, n: Nominal, o: Observation): (r: (Nominal, bool))
    requires lib.Valid() && config.Valid() && n.Valid() && ValidObservation(o)
    ensures r.0.Valid()
  {
    PositionUpdateKeepsValid(lib, config, n, o);
    var position := PositionUpdate(lib, config, n, o);
    var a := OrKeep(n, position);
    VelocityUpdateKeepsValid(lib, config, a, o);
    var velocity := if o.velocityValid then VelocityUpdate(lib, config, a, o) else None;
    var b := OrKeep(a, velocity);
    HeadingUpdateKeepsValid(lib, config, b, o);
    var heading := if o.headingValid then HeadingUpdate(lib, config, b, o) else None;
    (OrKeep(b, heading), position.Some? || velocity.Some? || heading.Some?)
  }

  ghost predicate ValidQueue(q: Queue) {
    Sorted(q) && |q| <= QUEUE_LIMIT && forall k :: 0 <= k < |q| ==> ValidObservation(q[k])
  }

  lemma PushKeepsValidQueue(q: Queue, o: Observation)
    requires ValidQueue(q) && ValidObservation(o)
    ensures ValidQueue(Newest(Inserted(q, o), QUEUE_LIMIT))
  {
    PushKeepsOrder(q, o, QUEUE_LIMIT);
    var all, kept := Inserted(q, o), Newest(Inserted(q, o), QUEUE_LIMIT);
    forall k | 0 <= k < |kept| ensures ValidObservation(kept[k]) {
      var at := UpperBound(q, o.stamp, 0);
      var i := |all| - |kept| + k;
      assert kept[k] == all[i];
      assert all[i] == if i < at then q[i] else if i == at then o else q[i - 1];
    }
  }

  lemma MatchKeepsValidQueue(q: Queue, stamp: real, tolerance: real, m: Match)
    requires ValidQueue(q) && RealtimeMatch(q, stamp, tolerance, m)
    ensures ValidQueue(m.rest) && (m.best.Some? ==> ValidObservation(m.best.value))
  {
    RealtimeMatchCuts(q, stamp, tolerance, m);
    CutKeepsValidQueue(q, m);
  }

  lemma CutKeepsValidQueue(q: Queue, m: Match)
    requires ValidQueue(q) && Cuts(q, m)
    ensures ValidQueue(m.rest) && (m.best.Some? ==> ValidObservation(m.best.value))
  {
    var k: nat :| k <= |q| && m.rest == q[k..] && (m.best.Some? ==> k > 0 && m.best.value == q[k - 1]);
  }

  // The fields of the filter that a frame changes.
  datatype Memory = Memory(state: Nominal, haveLivo: bool, lastLocalPose: Pose, lastLivoStamp: real, rtkQueue: Queue,
                           globallyInitialized: bool) {
    ghost predicate Valid() {
      state.Valid() && ValidPose(lastLocalPose) && ValidQueue(rtkQueue)
    }
  }

  // What a frame does: the state moves to its pose, the best observation leaves the queue as `m`, and is used.
  ghost predicate FrameOutcome(lib: Libraries, config: Config, before: Memory, after: Memory, stamp: real, local: Pose,
                               m: Match, moved: Nominal, rtkUpdated: bool)
  {
    && lib.Valid() && config.Valid() && before.Valid() && ValidPose(local)
    && RealtimeMatch(before.rtkQueue, stamp, config.syncTolerance, m)
    && (m.best.Some? ==> ValidObservation(m.best.value))
    && moved == Propagate(lib, config, before.state, before.haveLivo, before.lastLocalPose, before.lastLivoStamp, stamp,
                          local)
    && moved.Valid() && (after.state, rtkUpdated) == Used(lib, config, moved, before.globallyInitialized, m, local)
    && after.haveLivo && after.lastLocalPose == local && after.lastLivoStamp == stamp && after.rtkQueue == m.rest
    && after.globallyInitialized == (before.globallyInitialized || m.best.Some?)
  }

  class RealtimeGlobalEsikf {
    const lib: Libraries
    var config: Config
    var rtkQueue: Queue
    var lastLocalPose: Pose
    var globalPose: Pose
    var velocity: Vector
    var angularVelocityBody: Vector
    var covariance: Matrix
    var lastLivoStamp: real
    var haveLivo: bool
    var globallyInitialized: bool

    function State(): Nominal
      reads this
    {
      Nominal(globalPose, velocity, angularVelocityBody, covariance)
    }

    function Contents(): Memory
      reads this
    {
      Memory(State(), haveLivo, lastLocalPose, lastLivoStamp, rtkQueue, globallyInitialized)
    }

    ghost predicate Valid()
      reads this
    {
      && lib.Valid() && config.Valid() && ValidQueue(rtkQueue) && ValidPose(lastLocalPose)
      && State().Valid()
    }

    constructor (lib: Libraries, config: Config)
      requires lib.Valid() && config.Valid()
      ensures Valid() && this.lib == lib && this.config == config
      ensures rtkQueue == [] && !haveLivo && !globallyInitialized
    {
      this.lib := lib;
      this.config := config;
      rtkQueue := [];
      lastLocalPose := Pose(Identity(3), Zero3());
      globalPose := Pose(Identity(3), Zero3());
      velocity, angularVelocityBody := Zero3(), Zero3();
      covariance := Identity(9);
      lastLivoStamp := 0.0;
      haveLivo, globallyInitialized := false, false;
      DiagonalIsCovariance(Ones(9));
    }

    method Configure(config: Config)
      requires Valid() && config.Valid()
      modifies this
      ensures Valid() && this.config == config
      ensures rtkQueue == [] && !haveLivo && !globallyInitialized && lastLivoStamp == 0.0
      ensures State() == Nominal(Pose(Identity(3), Zero3()), Zero3(), Zero3(),
                                 Diagonal([0.25, 0.25, 1.0, 100.0, 100.0, 100.0, 4.0, 4.0, 4.0]))
    {
      this.config := config;
      rtkQueue := [];
      globalPose := Pose(Identity(3), Zero3());
      velocity := Zero3();
      angularVelocityBody := Zero3();
      covariance := Diagonal([0.25, 0.25, 1.0, 100.0, 100.0, 100.0, 4.0, 4.0, 4.0]);
      lastLivoStamp := 0.0;
      haveLivo := false;
      globallyInitialized := false;
      DiagonalIsCovariance([0.25, 0.25, 1.0, 100.0, 100.0, 100.0, 4.0, 4.0, 4.0]);
    }

    // An observation whose stamp is not finite is ignored.
    method PushRtk(observation: Observation, finite: bool)
      requires Valid() && ValidObservation(observation)
      modifies this`rtkQueue
      ensures Valid()
      ensures rtkQueue == if finite then Newest(Inserted(old(rtkQueue), observation), QUEUE_LIMIT) else old(rtkQueue)
    {
      if !finite {
        return;
      }
      PushKeepsValidQueue(rtkQueue, observation);
      rtkQueue := Push(rtkQueue, observation, QUEUE_LIMIT);
    }

    method Predict(localRelative: Pose, dt: real)
      requires Valid() && ValidPose(localRelative) && dt > 0.0
      modifies this`globalPose, this`velocity, this`angularVelocityBody, this`covariance
      ensures Valid()
      ensures State() == Predicted(lib, config, old(State()), localRelative, dt)
    {
      ghost var before := State();
      PredictedIsValid(lib, config, before, localRelative, dt);
      var oldPosition, oldRotation := globalPose.translation, globalPose.rotation;
      angularVelocityBody := Times(1.0 / dt, lib.logmap(localRelative.rotation));
      globalPose := Compose(globalPose, localRelative);
      velocity := Times(1.0 / dt, Minus(globalPose.translation, oldPosition));
      var transition := Transition(Transpose(localRelative.rotation, 3),
                                   Product(Scaled(-1.0, oldRotation, 3), Skew(localRelative.translation), 3));
      var processNoise := ProcessNoise(config, dt);
      covariance := Sum(Congruent(transition, covariance, 9, 9), processNoise, 9);
      covariance := Symmetrised(covariance, 9);
    }

    method InitializeFromRtk(observation: Observation, localPose: Pose)
      requires Valid() && ValidObservation(observation) && ValidPose(localPose)
      modifies this`globalPose, this`velocity, this`covariance, this`globallyInitialized
      ensures Valid() && globallyInitialized
      ensures State() == Initialised(lib, config, old(State()), observation, localPose)
    {
      InitialisedIsValid(lib, config, State(), observation, localPose);
      var rotation := localPose.rotation;
      if observation.headingValid {
        var yaw := Wrapped(observation.heading + config.headingOffset);
        rotation := lib.replaceYaw(rotation, yaw);
      }
      globalPose := Pose(rotation, Minus(observation.position, Apply(rotation, config.imuToAntenna)));
      if observation.velocityValid {
        velocity := Minus(observation.velocity, Apply(rotation, Cross(angularVelocityBody, config.imuToAntenna)));
      } else {
        velocity := Zero3();
      }
      covariance := InitialCovariance(observation);
      globallyInitialized := true;
    }

    static method Wrapped(angle: real) returns (r: real)
      ensures r == WrapAngle(angle)
    {
      r := angle;
      while r > PI
        invariant WrapAngle(r) == WrapAngle(angle)
        decreases r
      {
        r := r - 2.0 * PI;
      }
      while r < -PI
        invariant WrapAngle(r) == WrapAngle(angle) && r <= PI
        decreases -r
      {
        r := r + 2.0 * PI;
      }
    }

    // A rejected measurement changes nothing.
    method KalmanUpdate(innovation: Vector, jacobian: Matrix, measurementCovariance: Matrix, nisGate: real)
      returns (accepted: bool)
      requires Valid() && Shape(jacobian, |innovation|, 9) && Covariance(measurementCovariance, |innovation|)
      modifies this`globalPose, this`velocity, this`covariance
      ensures Valid()
      ensures var u := Updated(lib, old(State()), innovation, jacobian, measurementCovariance, nisGate);
              accepted == u.Some? && State() == OrKeep(old(State()), u)
    {
      UpdatedIsValid(lib, State(), innovation, jacobian, measurementCovariance, nisGate);
      var k := |innovation|;
      var innovationCovariance := InnovationCovariance(covariance, jacobian, measurementCovariance, 9, k);
      var decomposition := lib.solve(innovationCovariance);
      if decomposition.None? {
        return false;
      }
      var nis := Dot(innovation, Apply(decomposition.value, innovation));
      if nis > nisGate {
        return false;
      }
      var gain := Gain(covariance, jacobian, decomposition.value, 9, k);
      InjectError(Apply(gain, innovation));
      covariance := Joseph(covariance, jacobian, measurementCovariance, gain, 9, k);
      covariance := Symmetrised(covariance, 9);
      return true;
    }

    method InjectError(error: Vector)
      requires lib.Valid() && State().Shaped() && |error| == 9
      modifies this`globalPose, this`velocity
      ensures State() == Corrected(lib, old(State()), error, covariance)
    {
      globalPose := Pose(Product(globalPose.rotation, lib.expmap(error[..3]), 3),
                         Plus(globalPose.translation, error[3..6]));
      velocity := Plus(velocity, error[6..]);
    }

    method UpdatePosition(observation: Observation) returns (used: bool)
      requires Valid() && ValidObservation(observation)
      modifies this`globalPose, this`velocity, this`covariance
      ensures Valid()
      ensures var u := PositionUpdate(lib, config, old(State()), observation);
              used == u.Some? && State() == OrKeep(old(State()), u)
    {
      var rotation := globalPose.rotation;
      var predicted := Plus(globalPose.translation, Apply(rotation, config.imuToAntenna));
      var jacobian := Jacobian(Product(Scaled(-1.0, rotation, 3), Skew(config.imuToAntenna), 3), 3);
      DiagonalIsCovariance(observation.positionVariance);
      used := KalmanUpdate(Minus(observation.position, predicted), jacobian, Diagonal(observation.positionVariance),
                           config.positionNisGate);
    }

    method UpdateVelocity(observation: Observation) returns (used: bool)
      requires Valid() && ValidObservation(observation)
      modifies this`globalPose, this`velocity, this`covariance
      ensures Valid()
      ensures var u := VelocityUpdate(lib, config, old(State()), observation);
              used == u.Some? && State() == OrKeep(old(State()), u)
    {
      var rotation := globalPose.rotation;
      var leverVelocityBody := Cross(angularVelocityBody, config.imuToAntenna);
      var predicted := Plus(velocity, Apply(rotation, leverVelocityBody));
      var jacobian := Jacobian(Product(Scaled(-1.0, rotation, 3), Skew(leverVelocityBody), 3), 6);
      DiagonalIsCovariance(observation.velocityVariance);
      used := KalmanUpdate(Minus(observation.velocity, predicted), jacobian, Diagonal(observation.velocityVariance),
                           config.velocityNisGate);
    }

    // The row of numeric derivatives of the yaw, axis by axis.
    method YawDerivatives() returns (row: Vector)
      requires Valid()
      ensures [row] == HeadingJacobian(lib, State())
    {
      var nominalYaw := lib.yawOf(globalPose.rotation);
      row := [];
      var axis := 0;
      while axis < 3
        invariant 0 <= axis <= 3 && |row| == axis
        invariant forall k :: 0 <= k < axis ==> row[k] == PerturbedYawRate(lib, State(), k)
      {
        var perturbed := Product(globalPose.rotation, lib.expmap(Times(STEP, Basis(3, axis))), 3);
        var difference := Wrapped(lib.yawOf(perturbed) - nominalYaw);
        row := row + [difference / STEP];
        axis := axis + 1;
      }
      row := row + [0.0, 0.0, 0.0, 0.0, 0.0, 0.0];
      assert row == HeadingJacobian(lib, State())[0];
    }

    method UpdateHeading(observation: Observation) returns (used: bool)
      requires Valid() && ValidObservation(observation)
      modifies this`globalPose, this`velocity, this`covariance
      ensures Valid()
      ensures var u := HeadingUpdate(lib, config, old(State()), observation);
              used == u.Some? && State() == OrKeep(old(State()), u)
    {
      var row := YawDerivatives();
      var innovation := Wrapped(observation.heading + config.headingOffset - lib.yawOf(globalPose.rotation));
      var noise := if STEP < observation.headingVariance then observation.headingVariance else STEP;
      DiagonalIsCovariance([noise]);
      used := KalmanUpdate([innovation], [row], Diagonal([noise]), config.headingNisGate);
    }

    method PropagateTo(stamp: real, localPose: Pose)
      requires Valid() && ValidPose(localPose)
      modifies this`globalPose, this`velocity, this`angularVelocityBody, this`covariance,
               this`lastLocalPose, this`lastLivoStamp, this`haveLivo
      ensures Valid() && haveLivo && lastLocalPose == localPose && lastLivoStamp == stamp
      ensures State() ==
              Propagate(lib, config, old(State()), old(haveLivo), old(lastLocalPose), old(lastLivoStamp),
                        stamp, localPose)
    {
      PropagateKeepsValid(lib, config, State(), haveLivo, lastLocalPose, lastLivoStamp, stamp, localPose);
      if !haveLivo {
        lastLocalPose := localPose;
        globalPose := localPose;
        lastLivoStamp := stamp;
        haveLivo := true;
      } else {
        var dt := stamp - lastLivoStamp;
        if dt <= 0.0 || dt > 1.0 {
          lastLocalPose := localPose;
          lastLivoStamp := stamp;
        } else {
          var relative := Between(lastLocalPose, localPose);
          Predict(relative, dt);
          lastLocalPose := localPose;
          lastLivoStamp := stamp;
        }
      }
    }

    method Assimilate(observation: Observation) returns (rtkUpdated: bool)
      requires Valid() && ValidObservation(observation)
      modifies this`globalPose, this`velocity, this`covariance
      ensures Valid()
      ensures (State(), rtkUpdated) == Assimilated(lib, config, old(State()), observation)
    {
      var positionUsed := UpdatePosition(observation);
      var velocityUsed := false;
      if observation.velocityValid {
        velocityUsed := UpdateVelocity(observation);
      }
      var headingUsed := false;
      if observation.headingValid {
        headingUsed := UpdateHeading(observation);
      }
      rtkUpdated := positionUsed || velocityUsed || headingUsed;
    }

    // The observation for this frame leaves the queue, with everything before it.
    method TakeMatch(stamp: real) returns (m: Match)
      requires Valid()
      modifies this`rtkQueue
      ensures Valid() && RealtimeMatch(old(rtkQueue), stamp, config.syncTolerance, m) && rtkQueue == m.rest
      ensures m.best.Some? ==> ValidObservation(m.best.value)
    {
      m := MatchRealtime(rtkQueue, stamp, config.syncTolerance);
      MatchKeepsValidQueue(rtkQueue, stamp, config.syncTolerance, m);
      rtkQueue := m.rest;
    }

    // Anchor the filter with the matched observation, or update it.
    method UseMatch(m: Match, localPose: Pose) returns (rtkUpdated: bool)
      requires Valid() && ValidPose(localPose) && (m.best.Some? ==> ValidObservation(m.best.value))
      modifies this`globalPose, this`velocity, this`covariance, this`globallyInitialized
      ensures Valid()
      ensures (State(), rtkUpdated) == Used(lib, config, old(State()), old(globallyInitialized), m, localPose)
      ensures Contents() == old(Contents()).(state := State(),
                                             globallyInitialized := old(globallyInitialized) || m.best.Some?)
    {
      rtkUpdated := false;
      if m.best.Some? {
        if !globallyInitialized {
          InitializeFromRtk(m.best.value, localPose);
        } else {
          rtkUpdated := Assimilate(m.best.value);
        }
      }
    }

    method ArriveAt(stamp: real, localPose: Pose) returns (m: Match)
      requires Valid() && ValidPose(localPose)
      modifies this`globalPose, this`velocity, this`angularVelocityBody, this`covariance,
               this`lastLocalPose, this`lastLivoStamp, this`haveLivo, this`rtkQueue
      ensures Valid()
      ensures var before := old(Contents());
              && Contents() == Memory(Propagate(lib, config, before.state, before.haveLivo, before.lastLocalPose,
                                                before.lastLivoStamp, stamp, localPose),
                                      true, localPose, stamp, m.rest, before.globallyInitialized)
              && RealtimeMatch(before.rtkQueue, stamp, config.syncTolerance, m)
      ensures m.best.Some? ==> ValidObservation(m.best.value)
    {
      PropagateTo(stamp, localPose);
      m := TakeMatch(stamp);
    }

    method ProcessFrame(stamp: real, localPose: Pose) returns (rtkUpdated: bool, ghost m: Match, ghost moved: Nominal)
      requires Valid() && ValidPose(localPose)
      modifies this
      ensures Valid() && config == old(config)
      ensures FrameOutcome(lib, config, old(Contents()), Contents(), stamp, localPose, m, moved, rtkUpdated)
    {
      var found := ArriveAt(stamp, localPose);
      m, moved := found, State();
      rtkUpdated := UseMatch(found, localPose);
    }

    // One frame: propagate, match the nearest observation, and anchor or update with it.
    method ProcessLivo(stamp: real, finite: bool, localPose: Pose)
      returns (valid: bool, pose: Pose, globalVelocity: Vector, poseCovariance: Matrix, rtkUpdated: bool)
      requires Valid() && ValidPose(localPose)
      modifies this
      ensures Valid() && config == old(config)
      ensures !config.enabled || !finite ==> !valid && !rtkUpdated && Contents() == old(Contents())
      ensures config.enabled && finite ==>
                && valid == globallyInitialized
                && Nominal(pose, globalVelocity, angularVelocityBody, poseCovariance) == State()
                && exists m, moved ::
                     FrameOutcome(lib, config, old(Contents()), Contents(), stamp, localPose, m, moved, rtkUpdated)
    {
      rtkUpdated := false;
      pose, globalVelocity, poseCovariance := globalPose, velocity, covariance;
      if !config.enabled || !finite {
        valid := false;
        return;
      }
      ghost var m: Match;
      ghost var moved: Nominal;
      rtkUpdated, m, moved := ProcessFrame(stamp, localPose);
      pose, globalVelocity, poseCovariance := globalPose, velocity, covariance;
      valid := globallyInitialized;
    }
  }
}
