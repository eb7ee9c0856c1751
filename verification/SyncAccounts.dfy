// The books of a run once the filter is initialised: every lidar point ends up in exactly one cloud, at its own
// time, and every lidar-inertial package takes over where the last one stopped.
module SyncAccounts {
  import opened Basics
  import opened DataCut
  import opened ImuPropagation
  import opened SyncRuns

  // All points handed out so far, with their times.
  function Emitted(log: seq<Package>): multiset<Timed> {
    if log == [] then multiset{}
    else
      var p := log[|log| - 1];
      Emitted(log[..|log| - 1]) + if p.LioPackage? then Absolute(p.cloud, p.start) else multiset{}
  }

  // Every point received was handed out, waits in the next cloud, or waits in the queue, and has kept its time.
  ghost predicate PointsBalance(w: World) {
    Emitted(w.log) + Absolute(w.s.next, w.base) + AbsoluteOf(w.s.frames) == w.points
  }

  // A lidar-inertial package spans a positive time.
  ghost predicate Spans(w: World, p: Package) {
    p.LioPackage? ==> p.start + 0.00001 <= p.time <= w.base
  }

  ghost predicate LogSpans(w: World) {
    && (forall k :: 0 <= k < |w.log| ==> Spans(w, w.log[k]))
    && (forall k :: 1 <= k < |w.log| && w.log[k].LioPackage? ==> w.log[k].start == w.log[k - 1].time)
  }

  ghost predicate ClocksAgree(w: World) {
    w.s.imuReady && !w.s.mode.Wait? && w.s.lastUpdate == w.base && w.s.lastPropEnd == w.base
  }

  ghost predicate Timely(g: Settings, w: World) {
    Inv(g, w) && ClocksAgree(w) && PointsBalance(w) && LogSpans(w)
  }

  // The books are opened when a visual package has been handed out and the filter is initialised.
  function Opened(w: World): World {
    w.(log := [], points := Absolute(w.s.next, w.base) + AbsoluteOf(w.s.frames))
  }

  lemma OpenedIsTimely(g: Settings, w: World)
    requires Inv(g, w) && w.s.imuReady && w.s.mode.Vio?
    ensures Timely(g, Opened(w))
  {
  }

  // ---------------------------------------------------------------- arrivals and waiting

  lemma LidarArrivalKeepsBalance(w: World, f: LidarFrame)
    requires PointsBalance(w)
    ensures PointsBalance(w.(s := LidarArrived(w.s, f), points := w.points + Absolute(f.points, f.header)))
  {
    assert (w.s.frames + [f])[..|w.s.frames|] == w.s.frames;
  }

  lemma SameBalance(w: World, v: World)
    requires PointsBalance(w) && v.log == w.log && v.base == w.base && v.points == w.points
    requires v.s.next == w.s.next && v.s.frames == w.s.frames
    ensures PointsBalance(v)
  {
  }

  lemma ArrivalKeepsBalance(g: Settings, w: World, e: Event)
    requires PointsBalance(w) && !e.Cycle?
    ensures PointsBalance(Next(g, w, e))
  {
    if e.LidarArrives? {
      LidarArrivalKeepsBalance(w, e.frame);
    } else {
      SameBalance(w, Next(g, w, e));
    }
  }

  lemma ArrivalIsTimely(g: Settings, w: World, e: Event)
    requires Timely(g, w) && Admissible(w, e) && !e.Cycle?
    ensures Timely(g, Next(g, w, e))
  {
    ArrivalKeepsInv(g, w, e);
    ArrivalKeepsBalance(g, w, e);
    SameSpans(w, Next(g, w, e));
  }

  lemma SameSpans(w: World, v: World)
    requires LogSpans(w) && v.log == w.log && v.base == w.base
    ensures LogSpans(v)
  {
    forall k | 0 <= k < |v.log| ensures Spans(v, v.log[k]) {
      assert Spans(w, w.log[k]);
    }
  }

  lemma WaitingIsTimely(g: Settings, w: World)
    requires Timely(g, w) && Cycled(g, w.s).1 == None
    ensures Timely(g, Next(g, w, Cycle))
  {
    WaitingKeepsInv(g, w);
    WaitingState(g, w.s);
    assert w.s.lastUpdate >= 0.0;
    SameSpans(w, Next(g, w, Cycle));
  }

  // ---------------------------------------------------------------- packages

  lemma MoreLog(w: World, v: World, p: Package)
    requires LogSpans(w) && v.log == w.log + [p] && w.base <= v.base && Spans(v, p)
    requires p.LioPackage? && w.log != [] ==> p.start == w.log[|w.log| - 1].time
    ensures LogSpans(v)
  {
    forall k | 0 <= k < |v.log| ensures Spans(v, v.log[k]) {
      if k < |w.log| {
        assert Spans(w, w.log[k]);
      }
    }
  }

  lemma VioIsTimely(g: Settings, w: World)
    requires Timely(g, w) && Cycled(g, w.s).1.Some? && w.s.mode.Lio?
    ensures Timely(g, Next(g, w, Cycle))
  {
    VioKeepsInv(g, w);
    PackageByMode(g, w.s);
    var v, p := Next(g, w, Cycle), Cycled(g, w.s).1.value;
    MoreLog(w, v, p);
    assert v.log[..|v.log| - 1] == w.log;
  }

  // The package a cut makes from a state whose clocks agree.
  lemma LioPackageSpans(g: Settings, w: World)
    requires Inv(g, w) && ClocksAgree(w) && Cycled(g, w.s).1.Some? && !w.s.mode.Lio?
    ensures var p := Cycled(g, w.s).1.value;
            && p.LioPackage? && p.start == w.base && p.start + 0.00001 <= p.time
            && p == CutPackage(w.s, p.time) && Cycled(g, w.s).0 == Processed(g, CutState(w.s, p.time), p)
            && p.imu == Within(w.imus, p.start, p.time)
  {
    PackageByMode(g, w.s);
    assert Anchored(w.s) == w.s;
    BatchIsWithin(w.imus, Popped(w), w.base, Capture(g, w.s));
  }

  // A package whose cloud and remains hold what was pending and queued leaves the balance as it was.
  lemma PackageKeepsBalance(w: World, v: World, p: Package)
    requires PointsBalance(w) && p.LioPackage? && v.log == w.log + [p] && v.points == w.points
    requires Absolute(p.cloud, p.start) + Absolute(v.s.next, v.base) + AbsoluteOf(v.s.frames)
             == Absolute(w.s.next, w.base) + AbsoluteOf(w.s.frames)
    ensures PointsBalance(v)
  {
    EmittedOneMore(w.log, p);
    Regroup(Emitted(w.log), Absolute(p.cloud, p.start), Absolute(v.s.next, v.base), AbsoluteOf(v.s.frames));
    Regroup(Emitted(w.log), Absolute(w.s.next, w.base), AbsoluteOf(w.s.frames), multiset{});
  }

  lemma Regroup(e: multiset<Timed>, a: multiset<Timed>, b: multiset<Timed>, c: multiset<Timed>)
    ensures e + a + b + c == e + (a + b + c)
    ensures e + a + b == e + (a + b)
  {
  }

  lemma CutKeepsBalance(w: World, v: World, p: Package)
    requires PointsBalance(w) && p == CutPackage(w.s, p.time) && p.start == w.base
    requires v.log == w.log + [p] && v.base == p.time && v.points == w.points
    requires v.s.next == CutState(w.s, p.time).next && v.s.frames == CutState(w.s, p.time).frames
    ensures PointsBalance(v)
  {
    CutBalances(w.s.next, w.s.frames, w.base, p.time);
    PackageKeepsBalance(w, v, p);
  }

  lemma EmittedOneMore(log: seq<Package>, p: Package)
    requires p.LioPackage?
    ensures Emitted(log + [p]) == Emitted(log) + Absolute(p.cloud, p.start)
  {
    assert (log + [p])[..|log|] == log;
  }

  lemma LioIsTimely(g: Settings, w: World)
    requires Timely(g, w) && Cycled(g, w.s).1.Some? && !w.s.mode.Lio?
    ensures Timely(g, Next(g, w, Cycle))
  {
    LioKeepsInv(g, w);
    LioPackageSpans(g, w);
    var v, p := Next(g, w, Cycle), Cycled(g, w.s).1.value;
    ProcessedKeeps(g, CutState(w.s, p.time), p);
    assert v == Logged(w.(s := Cycled(g, w.s).0), p);
    MoreLog(w, v, p);
    CutKeepsBalance(w, v, p);
  }

  lemma StepIsTimely(g: Settings, w: World, e: Event)
    requires Timely(g, w) && Admissible(w, e)
    ensures Timely(g, Next(g, w, e))
  {
    if !e.Cycle? {
      ArrivalIsTimely(g, w, e);
    } else if Cycled(g, w.s).1 == None {
      WaitingIsTimely(g, w);
    } else if w.s.mode.Lio? {
      VioIsTimely(g, w);
    } else {
      LioIsTimely(g, w);
    }
  }

  lemma {:induction false} RunIsTimely(g: Settings, w: World, es: seq<Event>)
    requires Timely(g, w) && AdmissibleRun(g, w, es)
    ensures Timely(g, RunFrom(g, w, es))
  {
    if es != [] {
      RunIsTimely(g, w, es[..|es| - 1]);
      StepIsTimely(g, RunFrom(g, w, es[..|es| - 1]), es[|es| - 1]);
    }
  }

  // From power on: once the filter is initialised and a visual package is out, on every continuation of the
  // run the books stay balanced and each package starts where the last one ended.
  lemma EveryRunBalances(g: Settings, w: World, before: seq<Event>, after: seq<Event>)
    requires PoweredOn(w) && AdmissibleRun(g, w, before)
    requires RunFrom(g, w, before).s.imuReady && RunFrom(g, w, before).s.mode.Vio?
    requires AdmissibleRun(g, Opened(RunFrom(g, w, before)), after)
    ensures var v := RunFrom(g, Opened(RunFrom(g, w, before)), after);
            PointsBalance(v) && LogSpans(v) && Alternates(v.log)
  {
    PowerOnHasInv(g, w);
    EveryRunKeepsInv(g, w, before);
    OpenedIsTimely(g, RunFrom(g, w, before));
    RunIsTimely(g, Opened(RunFrom(g, w, before)), after);
  }

  // ---------------------------------------------------------------- what one package promises

  // Before a cut the points carried over keep their times exactly when the filter is initialised already:
  // until then they are read with the first frame's base instead of the last cut's.
  lemma CarriedPointsKeepTimesIff(g: Settings, w: World)
    requires Inv(g, w) && w.s.mode.Vio?
    ensures (forall i :: 0 <= i < |w.s.next| ==> TimeOf(w.s.next[i], w.s.lastUpdate) == TimeOf(w.s.next[i], w.base))
            <==> w.s.imuReady || w.s.next == []
  {
    CarriedTimesIff(w.s.next, w.base, w.s.lastUpdate);
  }

  // The samples a lidar-inertial package is propagated over cover the time since the last update, so its steps
  // fill that time under the condition of StepsFillInterval.
  lemma PropagationIsCovered(g: Settings, w: World)
    requires Inv(g, w) && ClocksAgree(w) && Cycled(g, w.s).1.Some? && !w.s.mode.Lio?
    ensures var p := Cycled(g, w.s).1.value;
            var v := Samples(w.s, p);
            && Covers(v, w.s.lastPropEnd, p.time)
            && (TotalTime(AllStrides(v, w.s.lastPropEnd, p.time)) == p.time - p.start
                <==> |p.imu| >= 2 || (|p.imu| == 1 && (w.s.lastImu.stamp == p.start || p.imu[0].stamp == p.time)))
  {
    LioPackageSpans(g, w);
    var p := Cycled(g, w.s).1.value;
    WithinBounds(w.imus, p.start, p.time);
    BatchCovers(w.s.lastImu, p.imu, p.start, p.time);
    StepsFillInterval(Samples(w.s, p), w.s.lastPropEnd, p.time);
  }

  // A package holds the last usable fix before the first one beyond its time; with fixes in order that is the
  // newest valid one of its interval, if there is any.
  lemma PackageFixIsNewest(g: Settings, w: World)
    requires Inv(g, w) && ClocksAgree(w) && Cycled(g, w.s).1.Some? && !w.s.mode.Lio? && w.s.rtkReady
    ensures var p := Cycled(g, w.s).1.value;
            && p.LioPackage?
            && IsLastPopped(w.s.rtk, p.start, p.time, LeadingRtk(w.s.rtk, p.time), p.rtk)
            && (FixesInOrder(w.s.rtk) ==> IsNewest(w.s.rtk, p.start, p.time, p.rtk))
  {
    LioPackageSpans(g, w);
    KeptFixIsNewest(w.s.rtk, w.base, Cycled(g, w.s).1.value.time);
  }

  lemma BatchCovers(last: Imu, batch: seq<Imu>, start: real, time: real)
    requires last.stamp <= start < time && Ordered(batch)
    requires forall i :: 0 <= i < |batch| ==> start < batch[i].stamp <= time
    ensures Covers([last] + batch, start, time)
  {
  }
}
