// The books of a run for images, inertial samples and fixes: which arrivals are accepted, what becomes of every image,
// and when the inertial filter is initialised.
module SyncImages {
  import opened Basics
  import opened DataCut
  import opened SyncRuns

  // ---------------------------------------------------------------- what a cycle does with the image at the head

  // The time an image has to be later than.
  function Limit(s: State): real
    requires s.frames != []
  {
    (if s.lastUpdate < 0.0 then s.frames[0].header else s.lastUpdate) + 0.00001
  }

  // The image at the head is too old to be cut at.
  predicate IsLate(g: Settings, s: State) {
    HasAll(s) && !s.mode.Lio? && s.images[0].stamp + g.exposure < Limit(s)
  }

  // Lidar points and inertial samples reach its time.
  predicate IsCovered(g: Settings, s: State) {
    && HasAll(s) && !s.mode.Lio? && !IsLate(g, s)
    && var time, f := s.images[0].stamp + g.exposure, s.frames[|s.frames| - 1];
       time <= f.header + f.points[|f.points| - 1].curvature / 1000.0 && time <= s.imu[|s.imu| - 1].stamp
  }

  lemma ImageIsShown(g: Settings, s: State)
    requires HasAll(s) && s.mode.Lio?
    ensures var (t, p) := Cycled(g, s);
            && t.images == s.images[1..] && t.mode.Vio?
            && p == Some(VioPackage(s.images[0].stamp + g.exposure, s.images[0].picture))
  {
    ProcessedKeeps(g, s.(mode := Vio, images := s.images[1..]), Cycled(g, s).1.value);
  }

  lemma AnchoredIs(s: State)
    requires HasAll(s)
    ensures var a, f := Anchored(s), s.frames[|s.frames| - 1];
            && a == s.(lastUpdate := a.lastUpdate) && a.lastUpdate + 0.00001 == Limit(s)
            && LidarNewest(a) == f.header + f.points[|f.points| - 1].curvature / 1000.0
  {
  }

  // The three cases of `Covered`.
  lemma CoveredIff(g: Settings, s: State, a: State)
    requires HasAll(s) && !s.mode.Lio? && a == s.(lastUpdate := a.lastUpdate) && a.lastUpdate + 0.00001 == Limit(s)
    requires var f := s.frames[|s.frames| - 1];
             LidarNewest(a) == f.header + f.points[|f.points| - 1].curvature / 1000.0
    ensures var (t, p) := Covered(a, Capture(g, s));
            && (p.Some? <==> IsCovered(g, s))
            && (p.Some? ==> t == CutState(a, Capture(g, s)) && p.value == CutPackage(a, Capture(g, s)))
            && (p.None? ==>
                  t == s.(images := if IsLate(g, s) then s.images[1..] else s.images, lastUpdate := t.lastUpdate))
  {
  }

  lemma ImageDecides(g: Settings, s: State)
    requires HasAll(s) && !s.mode.Lio?
    ensures var (t, p) := Cycled(g, s);
            && (p.Some? <==> IsCovered(g, s))
            && (p.Some? ==>
                  p.value.LioPackage? && p.value.time == s.images[0].stamp + g.exposure && t.images == s.images &&
                  t.mode.Lio?)
            && (p.None? ==>
                  t == s.(images := if IsLate(g, s) then s.images[1..] else s.images, lastUpdate := t.lastUpdate))
  {
    AnchoredIs(s);
    CoveredIff(g, s, Anchored(s));
    var (a, p) := Covered(Anchored(s), Capture(g, s));
    assert Synced(g, s) == (a, p);
    if p.Some? {
      ProcessedKeeps(g, a, p.value);
      CutKeepsImages(s, Capture(g, s));
    }
  }

  lemma CutKeepsImages(s: State, time: real)
    requires HasAll(s)
    ensures CutState(Anchored(s), time).images == s.images && CutState(Anchored(s), time).mode.Lio?
    ensures CutPackage(Anchored(s), time).LioPackage? && CutPackage(Anchored(s), time).time == time
  {
  }

  // A cycle shows the image in a visual package, throws it away, cuts at its time and keeps it, or lets it wait, each
  // exactly in one case.
  lemma CycleDecides(g: Settings, s: State)
    ensures var (t, p) := Cycled(g, s);
            && (p.Some? && p.value.VioPackage? <==> HasAll(s) && s.mode.Lio?)
            && (p.Some? && p.value.LioPackage? <==> IsCovered(g, s))
            && (p.None? && t.images != s.images <==> IsLate(g, s))
            && (HasAll(s) && s.mode.Lio? ==>
                  && t.images == s.images[1..] && t.mode.Vio?
                  && p == Some(VioPackage(s.images[0].stamp + g.exposure, s.images[0].picture)))
            && (IsLate(g, s) ==> t.images == s.images[1..] && t.mode == s.mode)
            && (IsCovered(g, s) ==>
                  t.images == s.images && t.mode.Lio? && p.value.time == s.images[0].stamp + g.exposure)
            && (!IsLate(g, s) && !IsCovered(g, s) && !(HasAll(s) && s.mode.Lio?) ==>
                  t == s.(lastUpdate := t.lastUpdate))
  {
    if HasAll(s) {
      ShorterIsOther(s.images);
      if s.mode.Lio? {
        ImageIsShown(g, s);
      } else {
        ImageDecides(g, s);
      }
    }
  }

  // ---------------------------------------------------------------- the books

  datatype Fate = Shown(image: Image) | Thrown(image: Image, limit: real)

  // Images and samples accepted, images that left the queue, and valid fixes received.
  datatype Book = Book(images: seq<Image>, fates: seq<Fate>, fixes: seq<Rtk>)

  const EMPTY := Book([], [], [])

  // What became of the image at the head in a cycle from s to t, if it left.
  function FateIn(g: Settings, s: State, t: State, p: Option<Package>): seq<Fate> {
    if t.images == s.images || s.images == [] then []
    else if p.Some? && p.value.VioPackage? then [Shown(s.images[0])]
    else [Thrown(s.images[0], if s.frames == [] then 0.0 else Limit(s))]
  }

  function Booked(g: Settings, w: World, b: Book, e: Event): Book {
    match e
    case ImageArrives(x) => if Next(g, w, e).s.images == w.s.images then b else b.(images := b.images + [x])
    case RtkArrives(x) => if x.valid then b.(fixes := b.fixes + [x]) else b
    case Cycle => b.(fates := b.fates + FateIn(g, w.s, Cycled(g, w.s).0, Cycled(g, w.s).1))
    case _ => b
  }

  function BookOf(g: Settings, w: World, es: seq<Event>): Book {
    if es == [] then EMPTY
    else
      var front := es[..|es| - 1];
      Booked(g, RunFrom(g, w, front), BookOf(g, w, front), es[|es| - 1])
  }

  function ImagesOf(fates: seq<Fate>): (r: seq<Image>)
    ensures |r| == |fates| && forall k :: 0 <= k < |r| ==> r[k] == fates[k].image
  {
    seq(|fates|, k requires 0 <= k < |fates| => fates[k].image)
  }

  // The images shown, as the visual packages show them.
  function ShownOf(g: Settings, fates: seq<Fate>): seq<Package> {
    if fates == [] then []
    else
      var last := fates[|fates| - 1];
      ShownOf(g, fates[..|fates| - 1]) +
      if last.Shown? then [VioPackage(last.image.stamp + g.exposure, last.image.picture)] else []
  }

  function VisualOf(log: seq<Package>): seq<Package> {
    if log == [] then []
    else
      VisualOf(log[..|log| - 1]) + if log[|log| - 1].VioPackage? then [log[|log| - 1]] else []
  }

  // All accepted images were shown, thrown away or wait, in order; those thrown were too old; those shown are in the
  // visual packages.
  ghost predicate ImagesBalance(g: Settings, w: World, b: Book) {
    && b.images == ImagesOf(b.fates) + w.s.images
    && (forall k :: 0 <= k < |b.fates| && b.fates[k].Thrown? ==>
          b.fates[k].image.stamp + g.exposure < b.fates[k].limit)
    && ShownOf(g, b.fates) == VisualOf(w.log)
  }

  // An image is accepted once a lidar frame has come, if it is 20 ms later than the last accepted one.
  ghost predicate NewestFits(w: World, b: Book) {
    && w.s.newestImage == (if b.images == [] then -1.0 else b.images[|b.images| - 1].stamp)
    && w.s.newestImu == (if w.imus == [] then -1.0 else w.imus[|w.imus| - 1].stamp)
  }

  // The queue holds the latest valid fixes, no more than its capacity.
  ghost predicate FixesFit(w: World, b: Book) {
    && |w.s.rtk| <= |b.fixes| && w.s.rtk == b.fixes[|b.fixes| - |w.s.rtk|..] && |w.s.rtk| <= RTK_CAPACITY
  }

  function SamplesIn(log: seq<Package>): nat {
    if log == [] then 0
    else
      SamplesIn(log[..|log| - 1]) + if log[|log| - 1].LioPackage? then |log[|log| - 1].imu| else 0
  }

  // The last sample handed out.
  function NewestIn(log: seq<Package>): Option<Imu> {
    if log == [] then None
    else
      var p := log[|log| - 1];
      if p.LioPackage? && p.imu != [] then Some(p.imu[|p.imu| - 1]) else NewestIn(log[..|log| - 1])
  }

  // It is the one that the next propagation starts with.
  ghost predicate LastFits(w: World) {
    NewestIn(w.log).Some? ==> w.s.lastImu == NewestIn(w.log).value
  }

  // The filter counts the samples handed out, from one on, until they are more than it waits for.
  ghost predicate CountFits(g: Settings, w: World) {
    var n := SamplesIn(w.log);
    && (w.s.imuReady <==> n > 0 && 1 + n > g.initCount)
    && (!w.s.imuReady ==> w.s.imuCount == 1 + n)
  }

  ghost predicate BooksFit(g: Settings, w: World, b: Book) {
    ImagesBalance(g, w, b) && NewestFits(w, b) && FixesFit(w, b) && CountFits(g, w) && LastFits(w)
  }

  // ---------------------------------------------------------------- arrivals

  // What an arriving image does.
  lemma ImageAcceptedIff(g: Settings, w: World, b: Book, x: Image)
    requires NewestFits(w, b)
    ensures var v := Next(g, w, ImageArrives(x));
            var accepted := w.s.newestLidar >= 0.0 &&
                            x.stamp >= (if b.images == [] then -1.0 else b.images[|b.images| - 1].stamp) + 0.02;
            && v.s.images == (if accepted then w.s.images + [x] else w.s.images)
            && v.s.newestImage == (if accepted then x.stamp else w.s.newestImage)
            && v == w.(s := w.s.(images := v.s.images, newestImage := v.s.newestImage))
  {
  }

  // And an arriving sample: it is accepted once a lidar frame has come, unless it is before the last accepted one.
  lemma SampleAcceptedIff(g: Settings, w: World, b: Book, x: Imu)
    requires NewestFits(w, b) && Inv(g, w) && x.stamp > 0.0
    ensures var v := Next(g, w, ImuArrives(x));
            var accepted := w.s.newestLidar >= 0.0 && (w.imus == [] || w.imus[|w.imus| - 1].stamp <= x.stamp);
            && v.s.imu == (if accepted then w.s.imu + [x] else w.s.imu)
            && v.imus == (if accepted then w.imus + [x] else w.imus)
            && v.s.newestImu == (if accepted then x.stamp else w.s.newestImu)
            && v == w.(imus := v.imus, s := w.s.(imu := v.s.imu, newestImu := v.s.newestImu))
  {
    assert w.imus != [] ==> w.imus[|w.imus| - 1].stamp > 0.0;
    assert w.s.imu != w.s.imu + [x];
  }

  lemma ImageArrivalFits(g: Settings, w: World, b: Book, x: Image)
    requires BooksFit(g, w, b)
    ensures BooksFit(g, Next(g, w, ImageArrives(x)), Booked(g, w, b, ImageArrives(x)))
  {
    ImageAcceptedIff(g, w, b, x);
    var v, c := Next(g, w, ImageArrives(x)), Booked(g, w, b, ImageArrives(x));
    assert w.s.images + [x] != w.s.images;
    assert c.images == ImagesOf(c.fates) + v.s.images;
  }

  lemma SampleArrivalFits(g: Settings, w: World, b: Book, x: Imu)
    requires BooksFit(g, w, b) && Inv(g, w) && x.stamp > 0.0
    ensures BooksFit(g, Next(g, w, ImuArrives(x)), b)
  {
    SampleAcceptedIff(g, w, b, x);
  }

  // And an arriving fix: a valid one is queued behind the latest, of which the oldest leaves when they are too many.
  lemma FixAcceptedIff(g: Settings, w: World, b: Book, x: Rtk)
    requires FixesFit(w, b)
    ensures var v := Next(g, w, RtkArrives(x));
            var fixes := if x.valid then b.fixes + [x] else b.fixes;
            && |v.s.rtk| == (if !x.valid then |w.s.rtk| else if |w.s.rtk| == 5000 then 5000 else |w.s.rtk| + 1)
            && |v.s.rtk| <= |fixes| && v.s.rtk == fixes[|fixes| - |v.s.rtk|..]
            && v == w.(s := w.s.(rtk := v.s.rtk))
  {
    if x.valid {
      var fixes := b.fixes + [x];
      assert w.s.rtk + [x] == fixes[|fixes| - |w.s.rtk + [x]|..];
    }
  }

  lemma FixArrivalFits(g: Settings, w: World, b: Book, x: Rtk)
    requires BooksFit(g, w, b)
    ensures BooksFit(g, Next(g, w, RtkArrives(x)), Booked(g, w, b, RtkArrives(x)))
  {
    FixAcceptedIff(g, w, b, x);
  }

  // ---------------------------------------------------------------- cycles

  lemma FatesOneMore(g: Settings, fates: seq<Fate>, f: Fate)
    ensures ImagesOf(fates + [f]) == ImagesOf(fates) + [f.image]
    ensures ShownOf(g, fates + [f]) ==
            ShownOf(g, fates) + if f.Shown? then [VioPackage(f.image.stamp + g.exposure, f.image.picture)] else []
  {
    assert (fates + [f])[..|fates|] == fates;
  }

  lemma LogOneMore(log: seq<Package>, p: Package)
    ensures VisualOf(log + [p]) == VisualOf(log) + if p.VioPackage? then [p] else []
    ensures SamplesIn(log + [p]) == SamplesIn(log) + if p.LioPackage? then |p.imu| else 0
  {
    assert (log + [p])[..|log|] == log;
  }

  lemma ShorterIsOther(images: seq<Image>)
    ensures images != [] ==> images[1..] != images
  {
    assert images != [] ==> |images[1..]| < |images|;
  }

  lemma CycleBalances(g: Settings, w: World, b: Book)
    requires ImagesBalance(g, w, b)
    ensures ImagesBalance(g, Next(g, w, Cycle), Booked(g, w, b, Cycle))
  {
    CycleDecides(g, w.s);
    var (t, p) := Cycled(g, w.s);
    var v, c := Next(g, w, Cycle), Booked(g, w, b, Cycle);
    if p.Some? {
      LogOneMore(w.log, p.value);
    }
    if t.images != w.s.images {
      FatesOneMore(g, b.fates, FateIn(g, w.s, t, p)[0]);
      assert w.s.images == [w.s.images[0]] + w.s.images[1..];
    } else {
      assert b.fates + [] == b.fates;
      ShorterIsOther(w.s.images);
    }
    assert c.images == ImagesOf(c.fates) + v.s.images;
  }

  // What a cycle leaves alone, and that it takes fixes from the front: with a lidar-inertial package, once the receiver
  // is initialised, all before the first that is later than the package.
  lemma CycleKeeps(g: Settings, s: State)
    ensures var t := Cycled(g, s).0;
            && t.newestImage == s.newestImage && t.newestImu == s.newestImu
            && |t.rtk| <= |s.rtk| && t.rtk == s.rtk[|s.rtk| - |t.rtk|..]
            && var p := Cycled(g, s).1;
               if p.Some? && p.value.LioPackage? && s.rtkReady
               then (t.rtk != [] ==> t.rtk[0].stamp > p.value.time) &&
                    forall i :: 0 <= i < |s.rtk| - |t.rtk| ==> s.rtk[i].stamp <= p.value.time
               else t.rtk == s.rtk
  {
    if Cycled(g, s).1.Some? {
      PackageByMode(g, s);
      if !s.mode.Lio? {
        ProcessedKeeps(g, CutState(Anchored(s), Capture(g, s)), CutPackage(Anchored(s), Capture(g, s)));
        LeadingRtkBounds(s.rtk, Capture(g, s));
      }
    } else {
      WaitingState(g, s);
    }
  }

  lemma SuffixOfSuffix(all: seq<Rtk>, n: nat, m: nat)
    requires m <= n <= |all|
    ensures all[|all| - n..][n - m..] == all[|all| - m..]
  {
  }

  lemma CycleKeepsNewest(g: Settings, w: World, b: Book)
    requires NewestFits(w, b) && FixesFit(w, b)
    ensures NewestFits(Next(g, w, Cycle), Booked(g, w, b, Cycle)) && FixesFit(Next(g, w, Cycle), Booked(g, w, b, Cycle))
  {
    CycleKeeps(g, w.s);
    CycleBooks(g, w, b);
    StillNewest(w, Next(g, w, Cycle), b, Booked(g, w, b, Cycle));
  }

  lemma StillNewest(w: World, v: World, b: Book, c: Book)
    requires NewestFits(w, b) && FixesFit(w, b) && v.imus == w.imus && c.images == b.images && c.fixes == b.fixes
    requires v.s.newestImage == w.s.newestImage && v.s.newestImu == w.s.newestImu
    requires |v.s.rtk| <= |w.s.rtk| && v.s.rtk == w.s.rtk[|w.s.rtk| - |v.s.rtk|..]
    ensures NewestFits(v, c) && FixesFit(v, c)
  {
    SuffixOfSuffix(b.fixes, |w.s.rtk|, |v.s.rtk|);
  }

  lemma CycleBooks(g: Settings, w: World, b: Book)
    ensures Next(g, w, Cycle).s == Cycled(g, w.s).0 && Next(g, w, Cycle).imus == w.imus
    ensures Booked(g, w, b, Cycle) == b.(fates := Booked(g, w, b, Cycle).fates)
  {
  }

  // How the filter counts.
  lemma CycleCount(g: Settings, s: State)
    ensures var (t, p) := Cycled(g, s);
            var n := if p.Some? && p.value.LioPackage? then |p.value.imu| else 0;
            && (s.imuReady ==> t.imuReady)
            && (!s.imuReady && n == 0 ==> !t.imuReady && t.imuCount == s.imuCount)
            && (!s.imuReady && n > 0 ==> t.imuCount == s.imuCount + n && (t.imuReady <==> t.imuCount > g.initCount))
  {
    if Cycled(g, s).1.Some? {
      PackageByMode(g, s);
    } else {
      WaitingState(g, s);
    }
  }

  lemma ProcessedLast(g: Settings, s: State, p: Package)
    ensures Processed(g, s, p).lastImu ==
            if p.LioPackage? && p.imu != [] then p.imu[|p.imu| - 1] else s.lastImu
  {
  }

  lemma CycleLast(g: Settings, s: State)
    ensures var (t, p) := Cycled(g, s);
            t.lastImu ==
              if p.Some? && p.value.LioPackage? && p.value.imu != [] then p.value.imu[|p.value.imu| - 1] else s.lastImu
  {
    var (t, p) := Cycled(g, s);
    if p.Some? {
      ProcessedLast(g, Synced(g, s).0, p.value);
      SyncKeepsLast(g, s);
    } else {
      WaitingState(g, s);
    }
  }

  lemma SyncKeepsLast(g: Settings, s: State)
    ensures Synced(g, s).0.lastImu == s.lastImu
  {
  }

  lemma CycleKeepsLast(g: Settings, w: World)
    requires LastFits(w)
    ensures LastFits(Next(g, w, Cycle))
  {
    CycleLast(g, w.s);
    var (t, p) := Cycled(g, w.s);
    if p.Some? {
      NewestOneMore(w.log, p.value);
      assert Next(g, w, Cycle).log == w.log + [p.value];
    }
    assert Next(g, w, Cycle).s == t;
  }

  lemma NewestOneMore(log: seq<Package>, p: Package)
    ensures NewestIn(log + [p]) == if p.LioPackage? && p.imu != [] then Some(p.imu[|p.imu| - 1]) else NewestIn(log)
  {
    var all := log + [p];
    assert all[..|all| - 1] == log && all[|all| - 1] == p;
  }

  lemma CycleCounts(g: Settings, w: World)
    requires CountFits(g, w)
    ensures CountFits(g, Next(g, w, Cycle))
  {
    CycleCount(g, w.s);
    var (t, p) := Cycled(g, w.s);
    if p.Some? {
      LogOneMore(w.log, p.value);
      assert Next(g, w, Cycle).log == w.log + [p.value];
    }
    assert Next(g, w, Cycle).s == t;
  }

  // ---------------------------------------------------------------- every run

  lemma StepFits(g: Settings, w: World, b: Book, e: Event)
    requires BooksFit(g, w, b) && Inv(g, w) && Admissible(w, e)
    ensures BooksFit(g, Next(g, w, e), Booked(g, w, b, e))
  {
    match e
    case ImageArrives(x) => ImageArrivalFits(g, w, b, x);
    case ImuArrives(x) => SampleArrivalFits(g, w, b, x);
    case RtkArrives(x) => FixArrivalFits(g, w, b, x);
    case Cycle =>
      CycleBalances(g, w, b);
      CycleKeepsNewest(g, w, b);
      CycleCounts(g, w);
      CycleKeepsLast(g, w);
    case _ =>
  }

  // From power on, after any events: no image is lost or shown twice, each one thrown away was too old when it was, the
  // fixes waiting are the latest, the filter is initialised exactly when enough samples were handed out, and the next
  // propagation starts with the last one of them.
  lemma {:induction false} EveryRunFits(g: Settings, w: World, es: seq<Event>)
    requires PoweredOn(w) && AdmissibleRun(g, w, es)
    ensures BooksFit(g, RunFrom(g, w, es), BookOf(g, w, es))
  {
    if es != [] {
      var front := es[..|es| - 1];
      EveryRunFits(g, w, front);
      PowerOnHasInv(g, w);
      EveryRunKeepsInv(g, w, front);
      StepFits(g, RunFrom(g, w, front), BookOf(g, w, front), es[|es| - 1]);
    }
  }

  // ---------------------------------------------------------------- service

  lemma HeadStep(g: Settings, w: World, e: Event)
    requires w.s.mode.Lio? && w.s.images != [] && e != Cycle
    ensures var v := Next(g, w, e);
            v.s.mode.Lio? && v.s.images != [] && v.s.images[0] == w.s.images[0] && v.log == w.log
  {
  }

  lemma {:induction false} HeadStays(g: Settings, w: World, es: seq<Event>)
    requires w.s.mode.Lio? && w.s.images != [] && Cycle !in es
    ensures var v := RunFrom(g, w, es);
            v.s.mode.Lio? && v.s.images != [] && v.s.images[0] == w.s.images[0] && v.log == w.log
  {
    if es != [] {
      assert es[|es| - 1] in es;
      HeadStays(g, w, es[..|es| - 1]);
      HeadStep(g, RunFrom(g, w, es[..|es| - 1]), es[|es| - 1]);
    }
  }

  lemma ShownIff(g: Settings, v: World)
    requires v.s.mode.Lio? && v.s.images != []
    ensures var shown := Next(g, v, Cycle);
            var x := v.s.images[0];
            && (v.s.frames != [] && v.s.imu != [] ==>
                  shown.log == v.log + [VioPackage(x.stamp + g.exposure, x.picture)])
            && (v.s.frames == [] || v.s.imu == [] ==> shown == v)
  {
    CycleDecides(g, v.s);
  }

  lemma CutIsLogged(g: Settings, w: World)
    requires IsCovered(g, w.s)
    ensures var cut := Next(g, w, Cycle);
            && |cut.log| == |w.log| + 1 && cut.log[|w.log|].LioPackage?
            && cut.log[|w.log|].time == w.s.images[0].stamp + g.exposure
            && cut.s.mode.Lio? && cut.s.images == w.s.images
  {
    CycleDecides(g, w.s);
  }

  // A covered image is served: the next cycle cuts at its time, and, whatever arrives in between, the cycle after that
  // shows it exactly when the cut has left, or the arrivals have brought, a lidar frame and an inertial sample.
  lemma CoveredIsServed(g: Settings, w: World, between: seq<Event>)
    requires IsCovered(g, w.s) && Cycle !in between
    ensures var cut := Next(g, w, Cycle);
            var v := RunFrom(g, cut, between);
            var shown := Next(g, v, Cycle);
            var x := w.s.images[0];
            && |cut.log| == |w.log| + 1 && cut.log[|w.log|].LioPackage? && cut.log[|w.log|].time == x.stamp + g.exposure
            && (shown.log == cut.log + [VioPackage(x.stamp + g.exposure, x.picture)] <==>
                v.s.frames != [] && v.s.imu != [])
            && (v.s.frames == [] || v.s.imu == [] ==> shown == v)
  {
    CutIsLogged(g, w);
    var cut := Next(g, w, Cycle);
    HeadStays(g, cut, between);
    ShownIff(g, RunFrom(g, cut, between));
  }
}
