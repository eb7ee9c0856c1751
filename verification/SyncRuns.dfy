// The lidar, camera, inertial and RTK queues and the cycle that cuts them: every cycle either waits, throws an
// image away, or hands out one package, a lidar-inertial one or a visual one, which is then propagated.
module SyncRuns {
  import opened Basics
  import opened DataCut

  datatype Mode = Wait | Lio | Vio

  datatype Image = Image(stamp: real, picture: int)

  type LidarFrame = f: Frame | f.points != []
    witness Frame(0.0, [Point(Body(0.0, 0.0, 0.0, 0.0), 0.0)])

  datatype Settings = Settings(exposure: real, initCount: int)

  datatype State = State(
    frames: seq<LidarFrame>, images: seq<Image>, imu: seq<Imu>, rtk: seq<Rtk>,
    newestLidar: real, newestImu: real, newestImage: real, rtkReady: bool,
    mode: Mode, lastUpdate: real, current: seq<Point>, next: seq<Point>,
    imuReady: bool, imuCount: int, lastImu: Imu, lastPropEnd: real)

  datatype Package =
    | LioPackage(start: real, time: real, cloud: seq<Point>, imu: seq<Imu>, rtk: Option<Rtk>)
    | VioPackage(time: real, picture: int)

  const RTK_CAPACITY: nat := 5000

  // The end of the last propagation is not set before the first one.
  function PowerOn(lastImu: Imu, lastPropEnd: real): State {
    State([], [], [], [], -1.0, -1.0, -1.0, false, Wait, -1.0, [], [], false, 1, lastImu, lastPropEnd)
  }

  // ---------------------------------------------------------------- arrivals

  // A frame that does not go back in time.
  function LidarArrived(s: State, f: LidarFrame): State {
    s.(frames := s.frames + [f], newestLidar := f.header)
  }

  function ImuArrived(s: State, x: Imu): State {
    if s.newestLidar < 0.0 || (s.newestImu > 0.0 && x.stamp < s.newestImu) then s
    else s.(imu := s.imu + [x], newestImu := x.stamp)
  }

  function ImageArrived(s: State, x: Image): State {
    if -0.001 < x.stamp - s.newestImage < 0.001 || s.newestLidar < 0.0 || x.stamp < s.newestImage
       || x.stamp - s.newestImage < 0.02 then s
    else s.(images := s.images + [x], newestImage := x.stamp)
  }

  function RtkArrived(s: State, x: Rtk): State {
    if !x.valid then s
    else
      var q := s.rtk + [x];
      s.(rtk := if |q| > RTK_CAPACITY then q[|q| - RTK_CAPACITY..] else q)
  }

  // ---------------------------------------------------------------- one cycle

  predicate HasAll(s: State) {
    s.frames != [] && s.images != [] && s.imu != []
  }

  function Capture(g: Settings, s: State): real
    requires s.images != []
  {
    s.images[0].stamp + g.exposure
  }

  function LidarNewest(s: State): real
    requires s.frames != []
  {
    var f := s.frames[|s.frames| - 1];
    TimeOf(f.points[|f.points| - 1], f.header).time
  }

  function Anchored(s: State): State
    requires s.frames != []
  {
    if s.lastUpdate < 0.0 then s.(lastUpdate := s.frames[0].header) else s
  }

  function KeptFix(s: State, time: real): Option<Rtk> {
    if s.rtkReady then KeptOf(s.rtk, s.lastUpdate, time) else None
  }

  function CutPackage(s: State, time: real): Package {
    var clouds := CutClouds(s.next, s.frames, s.lastUpdate, time);
    LioPackage(s.lastUpdate, time, clouds.current, After(s.imu[..LeadingImu(s.imu, time)], s.lastUpdate),
               KeptFix(s, time))
  }

  function CutState(s: State, time: real): State {
    var clouds := CutClouds(s.next, s.frames, s.lastUpdate, time);
    s.(frames := s.frames[Leading(s.frames, time)..], imu := s.imu[LeadingImu(s.imu, time)..],
       rtk := if s.rtkReady then s.rtk[LeadingRtk(s.rtk, time)..] else s.rtk,
       current := clouds.current, next := clouds.next, mode := Lio)
  }

  function Synced(g: Settings, s: State): (State, Option<Package>) {
    if !HasAll(s) then (s, None)
    else
      var time := Capture(g, s);
      if s.mode.Lio? then (s.(mode := Vio, images := s.images[1..]), Some(VioPackage(time, s.images[0].picture)))
      else Covered(Anchored(s), time)
  }

  // An image that is too old is thrown away; one that the lidar or the inertial samples do not reach waits.
  function Covered(a: State, time: real): (State, Option<Package>)
    requires HasAll(a)
  {
    if time < a.lastUpdate + 0.00001 then (a.(images := a.images[1..]), None)
    else if time > LidarNewest(a) || time > a.imu[|a.imu| - 1].stamp then (a, None)
    else (CutState(a, time), Some(CutPackage(a, time)))
  }

  // The samples a package is propagated over, the last one of the batch before in front.
  function Samples(s: State, p: Package): seq<Imu> {
    [s.lastImu] + if p.LioPackage? then p.imu else []
  }

  function Processed(g: Settings, s: State, p: Package): State {
    if !s.imuReady then
      if p.VioPackage? || p.imu == [] then s
      else
        var n := s.imuCount + |p.imu|;
        s.(imuCount := n, lastImu := p.imu[|p.imu| - 1], imuReady := n > g.initCount)
    else
      var v := Samples(s, p);
      s.(lastUpdate := p.time, lastPropEnd := p.time, lastImu := v[|v| - 1])
  }

  function Cycled(g: Settings, s: State): (State, Option<Package>) {
    var (t, p) := Synced(g, s);
    if p.Some? then (Processed(g, t, p.value), p) else (t, p)
  }

  // ---------------------------------------------------------------- runs

  datatype Event =
    | LidarArrives(frame: LidarFrame) | ImuArrives(sample: Imu) | ImageArrives(image: Image)
    | RtkArrives(fix: Rtk) | RtkInitialises | Cycle

  // A state with what a run has produced and consumed: the packages, the time of the last lidar-inertial one,
  // every inertial sample accepted and every lidar point received with its time.
  datatype World = World(s: State, log: seq<Package>, base: real, imus: seq<Imu>, points: multiset<Timed>)

  function Logged(w: World, p: Package): World {
    w.(log := w.log + [p], base := p.time)
  }

  function Next(g: Settings, w: World, e: Event): World {
    match e
    case LidarArrives(f) => w.(s := LidarArrived(w.s, f), points := w.points + Absolute(f.points, f.header))
    case ImuArrives(x) =>
      var t := ImuArrived(w.s, x);
      w.(s := t, imus := if t == w.s then w.imus else w.imus + [x])
    case ImageArrives(x) => w.(s := ImageArrived(w.s, x))
    case RtkArrives(x) => w.(s := RtkArrived(w.s, x))
    case RtkInitialises => w.(s := w.s.(rtkReady := true))
    case Cycle =>
      var (t, p) := Cycled(g, w.s);
      if p.Some? then Logged(w.(s := t), p.value) else w.(s := t)
  }

  // Time stamps are positive and frames do not go back.
  predicate Admissible(w: World, e: Event) {
    match e
    case LidarArrives(f) => f.header >= 0.0 && f.header >= w.s.newestLidar
    case ImuArrives(x) => x.stamp > 0.0
    case _ => true
  }

  function RunFrom(g: Settings, w: World, es: seq<Event>): World {
    if es == [] then w else Next(g, RunFrom(g, w, es[..|es| - 1]), es[|es| - 1])
  }

  predicate AdmissibleRun(g: Settings, w: World, es: seq<Event>) {
    es == [] || (AdmissibleRun(g, w, es[..|es| - 1]) && Admissible(RunFrom(g, w, es[..|es| - 1]), es[|es| - 1]))
  }

  // ---------------------------------------------------------------- what every run keeps

  // Lidar-inertial and visual packages take turns, and a visual one has the time of the one before it.
  ghost predicate Alternates(log: seq<Package>) {
    forall k :: 0 <= k < |log| ==>
      && (log[k].LioPackage? <==> k % 2 == 0)
      && (k % 2 == 1 ==> log[k].time == log[k - 1].time)
  }

  ghost predicate ModeFits(g: Settings, w: World) {
    && (w.s.mode.Lio? <==> |w.log| % 2 == 1)
    && (w.s.mode.Wait? ==> w.log == [] && !w.s.imuReady)
    && (w.s.mode.Lio? ==> w.s.images != [] && Capture(g, w.s) == w.base)
    && (w.log != [] ==> w.log[|w.log| - 1].time == w.base)
  }

  function Popped(w: World): int {
    |w.imus| - |w.s.imu|
  }

  // The queue is the end of the ordered history; what was popped is no later than the last cut.
  ghost predicate QueueFits(imus: seq<Imu>, queue: seq<Imu>, newest: real, base: real, waiting: bool) {
    && Ordered(imus) && |queue| <= |imus| && queue == imus[|imus| - |queue|..]
    && (forall i :: 0 <= i < |imus| ==> 0.0 < imus[i].stamp <= newest)
    && (waiting ==> queue == imus)
    && (!waiting ==> base <= newest)
    && (forall i :: 0 <= i < |imus| - |queue| ==> imus[i].stamp <= base)
  }

  ghost predicate ImuFits(w: World) {
    QueueFits(w.imus, w.s.imu, w.s.newestImu, w.base, w.s.mode.Wait?)
  }

  // Once the filter is initialised, the last update, the end of the last propagation and the last cut agree
  // whenever a visual package has been handed out.
  ghost predicate ClockFits(w: World) {
    && (w.s.imuReady ==> w.s.lastImu.stamp <= w.base)
    && (w.s.imuReady && w.s.mode.Vio? ==> w.s.lastUpdate == w.base && w.s.lastPropEnd == w.base)
    && (!w.s.mode.Wait? ==> w.base > 0.0 && w.s.lastUpdate >= 0.0)
    && (!w.s.mode.Wait? && !w.s.imuReady ==> w.s.lastUpdate < w.base)
    && (forall i :: 0 <= i < |w.s.frames| ==> w.s.frames[i].header >= 0.0)
  }

  // Images are in order, and apart from the one a visual package waits for they are later than the last cut.
  ghost predicate ImagesFit(g: Settings, w: World) {
    && (forall i, j :: 0 <= i < j < |w.s.images| ==> w.s.images[i].stamp < w.s.images[j].stamp)
    && (forall i :: 0 <= i < |w.s.images| ==> w.s.images[i].stamp <= w.s.newestImage)
    && (!w.s.mode.Wait? ==> w.base <= w.s.newestImage + g.exposure)
    && (w.s.mode.Vio? ==> forall i :: 0 <= i < |w.s.images| ==> w.base < w.s.images[i].stamp + g.exposure)
  }

  ghost predicate Inv(g: Settings, w: World) {
    Alternates(w.log) && ModeFits(g, w) && ImagesFit(g, w) && ImuFits(w) && ClockFits(w)
  }

  ghost predicate PoweredOn(w: World) {
    && w.log == [] && w.imus == [] && w.points == multiset{}
    && w.s == PowerOn(w.s.lastImu, w.s.lastPropEnd)
  }

  lemma ImuArrivalKeepsInv(g: Settings, w: World, x: Imu)
    requires Inv(g, w) && Admissible(w, ImuArrives(x))
    ensures Inv(g, Next(g, w, ImuArrives(x)))
  {
    var v := Next(g, w, ImuArrives(x));
    if v.s != w.s {
      assert v.s.imu == w.s.imu + [x] && v.imus == w.imus + [x];
      assert w.imus != [] ==> w.s.newestImu > 0.0 by {
        if w.imus != [] {
          assert 0.0 < w.imus[0].stamp;
        }
      }
      assert v.imus[Popped(v)..] == w.imus[Popped(w)..] + [x];
    }
  }

  lemma ArrivalKeepsInv(g: Settings, w: World, e: Event)
    requires Inv(g, w) && Admissible(w, e) && !e.Cycle?
    ensures Inv(g, Next(g, w, e))
  {
    match e
    case ImuArrives(x) => ImuArrivalKeepsInv(g, w, x);
    case _ =>
  }

  lemma WaitingState(g: Settings, s: State)
    requires Cycled(g, s).1 == None
    ensures var t := Cycled(g, s).0;
            && t == s.(images := t.images, lastUpdate := t.lastUpdate)
            && (t.lastUpdate == s.lastUpdate ||
               (s.lastUpdate < 0.0 && s.frames != [] && t.lastUpdate == s.frames[0].header))
            && (t.images == s.images || (s.images != [] && !s.mode.Lio? && t.images == s.images[1..]))
  {
  }

  // An image that is too old is thrown away, and one that is too new waits.
  lemma WaitingKeepsInv(g: Settings, w: World)
    requires Inv(g, w) && Cycled(g, w.s).1 == None
    ensures Inv(g, Next(g, w, Cycle))
  {
    WaitingState(g, w.s);
    assert Next(g, w, Cycle) == w.(s := Cycled(g, w.s).0);
  }

  // ---------------------------------------------------------------- a lidar-inertial package

  // The next package is a lidar-inertial one, cut at `time` from the anchored state a.
  ghost predicate Cuts(g: Settings, s: State, a: State, time: real) {
    && HasAll(s) && !s.mode.Lio? && a == Anchored(s) && time == Capture(g, s)
    && a.lastUpdate + 0.00001 <= time <= a.imu[|a.imu| - 1].stamp && time <= LidarNewest(a)
  }

  lemma PackageByMode(g: Settings, s: State)
    requires Cycled(g, s).1.Some?
    ensures HasAll(s)
    ensures s.mode.Lio? ==>
            Cycled(g, s) == (Processed(g, s.(mode := Vio, images := s.images[1..]), Cycled(g, s).1.value),
                                             Some(VioPackage(Capture(g, s), s.images[0].picture)))
    ensures !s.mode.Lio? ==>
              var a, time := Anchored(s), Capture(g, s);
              && Cuts(g, s, a, time)
              && Cycled(g, s) == (Processed(g, CutState(a, time), CutPackage(a, time)), Some(CutPackage(a, time)))
  {
  }

  lemma {:induction false} AfterIn(queue: seq<Imu>, start: real)
    ensures forall i :: 0 <= i < |After(queue, start)| ==>
              After(queue, start)[i] in queue && After(queue, start)[i].stamp > start
  {
    if queue != [] {
      AfterIn(queue[..|queue| - 1], start);
    }
  }

  // The batch of a cut lies after the last update and not after the cut.
  lemma BatchBounds(s: State, time: real)
    ensures forall x :: x in CutPackage(s, time).imu ==> s.lastUpdate < x.stamp <= time
  {
    LeadingImuStops(s.imu, time);
    AfterIn(s.imu[..LeadingImu(s.imu, time)], s.lastUpdate);
  }

  lemma ProcessedClock(g: Settings, s: State, p: Package, base: real)
    requires s.imuReady ==> s.lastImu.stamp <= base
    requires base <= p.time && (p.LioPackage? ==> forall x :: x in p.imu ==> x.stamp <= p.time)
    ensures var t := Processed(g, s, p);
            && (t.imuReady ==> t.lastImu.stamp <= p.time)
            && (s.imuReady ==> t.lastUpdate == p.time && t.lastPropEnd == p.time && t.imuReady)
            && (!s.imuReady ==> t.lastUpdate == s.lastUpdate)
            && (p.VioPackage? && t.imuReady ==> s.imuReady)
            && t == s.(imuReady := t.imuReady, imuCount := t.imuCount, lastImu := t.lastImu,
                       lastUpdate := t.lastUpdate, lastPropEnd := t.lastPropEnd)
  {
    var t := Processed(g, s, p);
    if t.lastImu != s.lastImu {
      assert t.lastImu == p.imu[|p.imu| - 1] && t.lastImu in p.imu;
    }
  }

  // What a cycle that hands out a lidar-inertial package p does to the rest of the world.
  ghost predicate LioStep(g: Settings, w: World, v: World, p: Package)
    requires HasAll(w.s)
  {
    && p.LioPackage? && p.time == Capture(g, w.s) && v.log == w.log + [p] && v.base == p.time && v.s.mode.Lio?
    && v.s.images == w.s.images && v.s.newestImage == w.s.newestImage && v.imus == w.imus
    && v.s.newestImu == w.s.newestImu && p.time <= w.s.imu[|w.s.imu| - 1].stamp
    && v.s.imu == w.s.imu[LeadingImu(w.s.imu, p.time)..]
  }

  lemma LioStepHolds(g: Settings, w: World)
    requires Cycled(g, w.s).1.Some? && !w.s.mode.Lio?
    ensures HasAll(w.s) && LioStep(g, w, Next(g, w, Cycle), CutPackage(Anchored(w.s), Capture(g, w.s)))
  {
    PackageByMode(g, w.s);
    var a, time := Anchored(w.s), Capture(g, w.s);
    var c, p := CutState(a, time), CutPackage(a, time);
    assert c.images == w.s.images && c.imu == w.s.imu[LeadingImu(w.s.imu, time)..];
    ProcessedKeeps(g, c, p);
    assert Next(g, w, Cycle) == Logged(w.(s := Processed(g, c, p)), p);
  }

  lemma ProcessedKeeps(g: Settings, s: State, p: Package)
    ensures var t := Processed(g, s, p);
            t == s.(imuReady := t.imuReady, imuCount := t.imuCount, lastImu := t.lastImu,
                    lastUpdate := t.lastUpdate, lastPropEnd := t.lastPropEnd)
  {
  }

  lemma LioKeepsOrder(g: Settings, w: World, v: World, p: Package)
    requires Alternates(w.log) && ModeFits(g, w) && ImagesFit(g, w) && !w.s.mode.Lio? && HasAll(w.s)
    requires LioStep(g, w, v, p)
    ensures Alternates(v.log) && ModeFits(g, v) && ImagesFit(g, v)
  {
  }

  lemma LioKeepsClock(g: Settings, w: World)
    requires ModeFits(g, w) && ClockFits(w) && ImagesFit(g, w) && Cycled(g, w.s).1.Some? && !w.s.mode.Lio?
    ensures ClockFits(Next(g, w, Cycle))
  {
    PackageByMode(g, w.s);
    var a, time := Anchored(w.s), Capture(g, w.s);
    BatchBounds(a, time);
    ProcessedClock(g, CutState(a, time), CutPackage(a, time), if w.s.mode.Wait? then time else w.base);
    assert forall i :: 0 <= i < |CutState(a, time).frames| ==> CutState(a, time).frames[i] in w.s.frames;
  }

  // Popping up to a later cut keeps the queue the end of the history.
  lemma PopKeepsQueue(imus: seq<Imu>, queue: seq<Imu>, newest: real, base: real, waiting: bool, cut: real)
    requires QueueFits(imus, queue, newest, base, waiting) && (waiting || base <= cut) && cut <= newest
    ensures QueueFits(imus, queue[LeadingImu(queue, cut)..], newest, cut, false)
  {
    var n, popped := LeadingImu(queue, cut), |imus| - |queue|;
    LeadingImuStops(queue, cut);
    forall i | 0 <= i < popped + n ensures imus[i].stamp <= cut {
      if i >= popped {
        assert imus[i] == queue[i - popped];
      }
    }
  }

  lemma LioKeepsImu(g: Settings, w: World, v: World, p: Package)
    requires ImagesFit(g, w) && ImuFits(w) && HasAll(w.s) && !w.s.mode.Lio? && LioStep(g, w, v, p)
    ensures ImuFits(v)
  {
    assert w.s.imu[|w.s.imu| - 1] == w.imus[|w.imus| - 1];
    PopKeepsQueue(w.imus, w.s.imu, w.s.newestImu, w.base, w.s.mode.Wait?, p.time);
  }

  lemma LioKeepsInv(g: Settings, w: World)
    requires Inv(g, w) && Cycled(g, w.s).1.Some? && !w.s.mode.Lio?
    ensures Inv(g, Next(g, w, Cycle))
  {
    LioStepHolds(g, w);
    PackageByMode(g, w.s);
    LioKeepsOrder(g, w, Next(g, w, Cycle), CutPackage(Anchored(w.s), Capture(g, w.s)));
    LioKeepsImu(g, w, Next(g, w, Cycle), CutPackage(Anchored(w.s), Capture(g, w.s)));
    LioKeepsClock(g, w);
  }

  lemma VioKeepsInv(g: Settings, w: World)
    requires Inv(g, w) && Cycled(g, w.s).1.Some? && w.s.mode.Lio?
    ensures Inv(g, Next(g, w, Cycle))
  {
    PackageByMode(g, w.s);
    var s, p := w.s.(mode := Vio, images := w.s.images[1..]), VioPackage(Capture(g, w.s), w.s.images[0].picture);
    ProcessedClock(g, s, p, w.base);
  }

  lemma StepKeepsInv(g: Settings, w: World, e: Event)
    requires Inv(g, w) && Admissible(w, e)
    ensures Inv(g, Next(g, w, e))
  {
    if !e.Cycle? {
      ArrivalKeepsInv(g, w, e);
    } else if Cycled(g, w.s).1 == None {
      WaitingKeepsInv(g, w);
    } else if w.s.mode.Lio? {
      VioKeepsInv(g, w);
    } else {
      LioKeepsInv(g, w);
    }
  }

  lemma PowerOnHasInv(g: Settings, w: World)
    requires PoweredOn(w)
    ensures Inv(g, w)
  {
  }

  // From power on, after any events: packages alternate, every visual one has the time of the lidar-inertial
  // one before it, and once the filter is initialised all clocks agree after each visual package.
  lemma {:induction false} EveryRunKeepsInv(g: Settings, w: World, es: seq<Event>)
    requires Inv(g, w) && AdmissibleRun(g, w, es)
    ensures Inv(g, RunFrom(g, w, es))
  {
    if es != [] {
      EveryRunKeepsInv(g, w, es[..|es| - 1]);
      StepKeepsInv(g, RunFrom(g, w, es[..|es| - 1]), es[|es| - 1]);
    }
  }
}
