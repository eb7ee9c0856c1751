// Which inertial samples the packages of a run hold: all of their interval, unless a sample arrives after the cut
// with the very stamp of the cut.
module SyncBatches {
  import opened DataCut
  import opened SyncRuns
  import opened SyncAccounts

  // The package holds all samples ever accepted that lie in its interval.
  ghost predicate IsComplete(w: World, p: Package) {
    p.LioPackage? ==> p.imu == Within(w.imus, p.start, p.time)
  }

  ghost predicate AllComplete(w: World) {
    forall k :: 0 <= k < |w.log| ==> IsComplete(w, w.log[k])
  }

  // It holds the first of them, in order, whatever happens.
  ghost predicate HoldsFirst(w: World, p: Package) {
    p.LioPackage? ==> p.imu <= Within(w.imus, p.start, p.time)
  }

  ghost predicate AllHoldFirst(w: World) {
    forall k :: 0 <= k < |w.log| ==> HoldsFirst(w, w.log[k])
  }

  // A sample that is accepted with the stamp of the last cut after that cut was made.
  predicate LateTwin(w: World, e: Event) {
    e.ImuArrives? && w.log != [] && e.sample.stamp == w.base && ImuArrived(w.s, e.sample) != w.s
  }

  predicate NoLateTwin(g: Settings, w: World, es: seq<Event>) {
    es == [] || (NoLateTwin(g, w, es[..|es| - 1]) && !LateTwin(RunFrom(g, w, es[..|es| - 1]), es[|es| - 1]))
  }

  // ---------------------------------------------------------------- one sample arrives

  lemma WithinOneMore(imus: seq<Imu>, x: Imu, start: real, cut: real)
    ensures Within(imus + [x], start, cut) == Within(imus, start, cut) + if start < x.stamp <= cut then [x] else []
  {
    assert (imus + [x])[..|imus|] == imus;
  }

  lemma PackageAfterSample(w: World, v: World, x: Imu, p: Package)
    requires v.imus == w.imus + [x] && p.LioPackage? && HoldsFirst(w, p)
    ensures HoldsFirst(v, p)
    ensures IsComplete(v, p) <==> IsComplete(w, p) && !(p.start < x.stamp <= p.time)
  {
    WithinOneMore(w.imus, x, p.start, p.time);
  }

  // The last lidar-inertial package of a log ends at the last cut.
  lemma LastCutIsLogged(g: Settings, w: World) returns (k: nat)
    requires Inv(g, w) && w.log != []
    ensures k < |w.log| && w.log[k].LioPackage? && w.log[k].time == w.base
  {
    k := if w.log[|w.log| - 1].LioPackage? then |w.log| - 1 else |w.log| - 2;
  }

  lemma SampleArrives(g: Settings, w: World, x: Imu)
    requires Timely(g, w) && AllHoldFirst(w) && ImuArrived(w.s, x) != w.s
    ensures var v := Next(g, w, ImuArrives(x));
            AllHoldFirst(v) && (AllComplete(v) <==> AllComplete(w) && !LateTwin(w, ImuArrives(x)))
  {
    var v := Next(g, w, ImuArrives(x));
    assert w.base <= w.s.newestImu <= x.stamp;
    forall k | 0 <= k < |v.log| && v.log[k].LioPackage?
      ensures HoldsFirst(v, v.log[k])
      ensures IsComplete(v, v.log[k])
              <==> IsComplete(w, w.log[k]) && !(x.stamp == w.base && w.log[k].time == w.base)
    {
      assert HoldsFirst(w, w.log[k]) && Spans(w, w.log[k]);
      PackageAfterSample(w, v, x, w.log[k]);
    }
    if w.log != [] {
      var k := LastCutIsLogged(g, w);
      assert LateTwin(w, ImuArrives(x)) ==> !IsComplete(v, v.log[k]);
      assert AllComplete(v) ==> AllComplete(w) by {
        if AllComplete(v) {
          forall k | 0 <= k < |w.log| ensures IsComplete(w, w.log[k]) {
            assert IsComplete(v, v.log[k]);
          }
        }
      }
    }
  }

  // ---------------------------------------------------------------- all other steps

  lemma SameLog(w: World, v: World)
    requires AllHoldFirst(w) && v.log == w.log && v.imus == w.imus
    ensures AllHoldFirst(v) && (AllComplete(v) <==> AllComplete(w))
  {
    forall k | 0 <= k < |v.log|
      ensures HoldsFirst(v, v.log[k]) && (IsComplete(v, v.log[k]) <==> IsComplete(w, w.log[k]))
    {
      assert HoldsFirst(w, w.log[k]);
    }
    assert AllComplete(v) ==> forall k :: 0 <= k < |w.log| ==> IsComplete(v, v.log[k]);
  }

  lemma OneMorePackage(w: World, v: World, p: Package)
    requires AllHoldFirst(w) && v.log == w.log + [p] && v.imus == w.imus && IsComplete(v, p)
    ensures AllHoldFirst(v) && (AllComplete(v) <==> AllComplete(w))
  {
    forall k | 0 <= k < |w.log|
      ensures HoldsFirst(v, v.log[k]) && (IsComplete(v, v.log[k]) <==> IsComplete(w, w.log[k]))
    {
      assert HoldsFirst(w, w.log[k]);
    }
    assert AllComplete(v) ==> forall k :: 0 <= k < |w.log| ==> IsComplete(v, v.log[k]);
  }

  lemma PackageIsOut(g: Settings, w: World)
    requires Timely(g, w) && AllHoldFirst(w) && Cycled(g, w.s).1.Some?
    ensures var v := Next(g, w, Cycle); AllHoldFirst(v) && (AllComplete(v) <==> AllComplete(w))
  {
    var v, p := Next(g, w, Cycle), Cycled(g, w.s).1.value;
    PackageByMode(g, w.s);
    if !w.s.mode.Lio? {
      LioPackageSpans(g, w);
    }
    OneMorePackage(w, v, p);
  }

  lemma StepKeepsBatches(g: Settings, w: World, e: Event)
    requires Timely(g, w) && AllHoldFirst(w) && Admissible(w, e)
    ensures var v := Next(g, w, e);
            AllHoldFirst(v) && (AllComplete(v) <==> AllComplete(w) && !LateTwin(w, e))
  {
    if e.ImuArrives? && ImuArrived(w.s, e.sample) != w.s {
      SampleArrives(g, w, e.sample);
    } else if e.Cycle? && Cycled(g, w.s).1.Some? {
      PackageIsOut(g, w);
    } else {
      SameLog(w, Next(g, w, e));
    }
  }

  lemma {:induction false} RunKeepsBatches(g: Settings, w: World, es: seq<Event>)
    requires Timely(g, w) && AllHoldFirst(w) && AdmissibleRun(g, w, es)
    ensures var v := RunFrom(g, w, es);
            AllHoldFirst(v) && (AllComplete(v) <==> AllComplete(w) && NoLateTwin(g, w, es))
  {
    if es != [] {
      var front := es[..|es| - 1];
      RunKeepsBatches(g, w, front);
      RunIsTimely(g, w, front);
      StepKeepsBatches(g, RunFrom(g, w, front), es[|es| - 1]);
    }
  }

  // From power on: once the books are open, every package holds exactly the samples ever accepted that lie in
  // (last update, this update] if and only if no sample arrived late with the stamp of a cut already made.
  lemma BatchesAreCompleteIff(g: Settings, w: World, before: seq<Event>, after: seq<Event>)
    requires PoweredOn(w) && AdmissibleRun(g, w, before)
    requires RunFrom(g, w, before).s.imuReady && RunFrom(g, w, before).s.mode.Vio?
    requires AdmissibleRun(g, Opened(RunFrom(g, w, before)), after)
    ensures AllComplete(RunFrom(g, Opened(RunFrom(g, w, before)), after))
            <==> NoLateTwin(g, Opened(RunFrom(g, w, before)), after)
  {
    PowerOnHasInv(g, w);
    EveryRunKeepsInv(g, w, before);
    OpenedIsTimely(g, RunFrom(g, w, before));
    RunKeepsBatches(g, Opened(RunFrom(g, w, before)), after);
  }
}
