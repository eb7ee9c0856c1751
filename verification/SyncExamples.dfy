// Two runs from power on that show where the code falls short: a carried point that is shifted in time while the
// filter is not initialised yet, and an inertial sample that no package holds.
module SyncExamples {
  import opened Basics
  import opened DataCut
  import opened SyncRuns
  import opened SyncAccounts
  import opened SyncBatches

  const NOWHERE := Body(0.0, 0.0, 0.0, 0.0)
  const FIRST_FRAME: LidarFrame := Frame(1.0, [Point(NOWHERE, 0.0), Point(NOWHERE, 500.0)])
  const SECOND_FRAME: LidarFrame := Frame(1.6, [Point(NOWHERE, 0.0)])
  const FIRST_SAMPLE := Imu(1.2, [], [])
  const SECOND_SAMPLE := Imu(1.4, [], [])
  const THIRD_SAMPLE := Imu(1.5, [], [])
  const TWIN := Imu(1.5, [1.0], [])

  const ARRIVALS: seq<Event> :=
    [LidarArrives(FIRST_FRAME), ImuArrives(FIRST_SAMPLE), ImuArrives(SECOND_SAMPLE), ImageArrives(Image(1.3, 0))]

  // A frame from 1.0 to 1.5 is cut at 1.3, a second frame arrives, and the visual package goes out.
  function Startup(): seq<Event> {
    ARRIVALS + [Cycle] + [LidarArrives(SECOND_FRAME)] + [Cycle]
  }

  // An image of time 1.5 is served, and then a second sample of that time arrives.
  function LateArrival(): seq<Event> {
    [ImuArrives(THIRD_SAMPLE)] + [ImageArrives(Image(1.5, 1))] + [Cycle] + [ImuArrives(TWIN)]
  }

  lemma RunOneMore(g: Settings, w: World, es: seq<Event>, e: Event)
    ensures RunFrom(g, w, es + [e]) == Next(g, RunFrom(g, w, es), e)
    ensures AdmissibleRun(g, w, es + [e]) <==> AdmissibleRun(g, w, es) && Admissible(RunFrom(g, w, es), e)
    ensures NoLateTwin(g, w, es + [e]) <==> NoLateTwin(g, w, es) && !LateTwin(RunFrom(g, w, es), e)
  {
    assert (es + [e])[..|es|] == es;
  }

  // ---------------------------------------------------------------- the first cut

  lemma FirstArrivals(g: Settings, start: World)
    requires PoweredOn(start)
    ensures AdmissibleRun(g, start, ARRIVALS)
    ensures var d := RunFrom(g, start, ARRIVALS);
            && d.log == []
            && d.s == start.s.(frames := [FIRST_FRAME], imu := [FIRST_SAMPLE, SECOND_SAMPLE], images := [Image(1.3, 0)],
                               newestLidar := 1.0, newestImu := 1.4, newestImage := 1.3)
  {
    RunOneMore(g, start, [], ARRIVALS[0]);
    RunOneMore(g, start, [ARRIVALS[0]], ARRIVALS[1]);
    RunOneMore(g, start, [ARRIVALS[0]] + [ARRIVALS[1]], ARRIVALS[2]);
    RunOneMore(g, start, [ARRIVALS[0]] + [ARRIVALS[1]] + [ARRIVALS[2]], ARRIVALS[3]);
    assert [] + [ARRIVALS[0]] == [ARRIVALS[0]];
    assert [ARRIVALS[0]] + [ARRIVALS[1]] + [ARRIVALS[2]] + [ARRIVALS[3]] == ARRIVALS;
  }

  lemma FirstFrameSplits()
    ensures Leading([FIRST_FRAME], 1.3) == 1
    ensures LateOf([FIRST_FRAME], 1.3) == [Point(NOWHERE, 200.0)]
  {
    var p, q := Point(NOWHERE, 0.0), Point(NOWHERE, 500.0);
    assert [p, q][..1] == [p] && [p][..0] == [];
    assert Late([], 1.0, 1.3) == [] && Late([p], 1.0, 1.3) == [];
    assert Late([p, q], 1.0, 1.3) == [Rebased(q, 1.0, 1.3)];
    assert LateOf([], 1.3) == [] && [FIRST_FRAME][..0] == [];
  }

  lemma FirstBatch()
    ensures LeadingImu([FIRST_SAMPLE, SECOND_SAMPLE], 1.3) == 1
    ensures After([FIRST_SAMPLE], 1.0) == [FIRST_SAMPLE]
  {
    assert [FIRST_SAMPLE, SECOND_SAMPLE][1..] == [SECOND_SAMPLE];
    assert LeadingImu([SECOND_SAMPLE], 1.3) == 0;
    assert [FIRST_SAMPLE][..0] == [];
  }

  // The first cycle; the one sample of its batch initialises the filter if that is enough.
  lemma FirstCut(g: Settings, d: World)
    requires g.exposure == 0.0 && d.s.mode.Wait? && d.s.lastUpdate == -1.0 && !d.s.imuReady && d.s.imuCount == 1
    requires d.s.frames == [FIRST_FRAME] && d.s.imu == [FIRST_SAMPLE, SECOND_SAMPLE] && d.s.images == [Image(1.3, 0)]
    ensures var e := Next(g, d, Cycle);
            && e.s.mode == Lio && e.s.next == [Point(NOWHERE, 200.0)] && e.base == 1.3 && e.s.lastUpdate == 1.0
            && e.s.frames == [] && e.s.imu == [SECOND_SAMPLE] && e.s.images == d.s.images
            && (e.s.imuReady <==> 2 > g.initCount) && e.s.newestLidar == d.s.newestLidar
            && e.s.newestImu == d.s.newestImu && e.s.newestImage == d.s.newestImage && e.imus == d.imus
  {
    var a := Anchored(d.s);
    assert LidarNewest(a) == 1.5;
    FirstFrameSplits();
    FirstBatch();
    PackageByMode(g, d.s);
    ProcessedKeeps(g, CutState(a, 1.3), CutPackage(a, 1.3));
  }

  // A new frame arrives and the visual package goes out.
  lemma LastSteps(g: Settings, e: World)
    requires g.exposure == 0.0 && e.s.mode == Lio && e.s.images == [Image(1.3, 0)] && e.s.frames == [] && e.s.imu != []
    ensures var w := Next(g, Next(g, e, LidarArrives(SECOND_FRAME)), Cycle);
            && w.s.mode == Vio && w.s.next == e.s.next && w.base == 1.3 && w.s.imuReady == e.s.imuReady
            && w.s.lastUpdate == (if e.s.imuReady then 1.3 else e.s.lastUpdate)
            && w.s.frames == [SECOND_FRAME] && w.s.images == [] && w.s.imu == e.s.imu && w.imus == e.imus
            && w.s.newestLidar == 1.6 && w.s.newestImu == e.s.newestImu && w.s.newestImage == e.s.newestImage
  {
  }

  lemma StartupRuns(g: Settings, start: World)
    requires g.exposure == 0.0 && PoweredOn(start)
    ensures AdmissibleRun(g, start, Startup())
    ensures var w := RunFrom(g, start, Startup());
            && w.s.mode == Vio && w.s.next == [Point(NOWHERE, 200.0)] && w.base == 1.3
            && (w.s.imuReady <==> 2 > g.initCount) && w.s.lastUpdate == (if w.s.imuReady then 1.3 else 1.0)
            && w.s.frames == [SECOND_FRAME] && w.s.images == [] && w.s.imu == [SECOND_SAMPLE]
            && w.s.newestLidar == 1.6 && w.s.newestImu == 1.4 && w.s.newestImage == 1.3
  {
    FirstArrivals(g, start);
    var d := RunFrom(g, start, ARRIVALS);
    FirstCut(g, d);
    RunOneMore(g, start, ARRIVALS, Cycle);
    RunOneMore(g, start, ARRIVALS + [Cycle], LidarArrives(SECOND_FRAME));
    RunOneMore(g, start, ARRIVALS + [Cycle] + [LidarArrives(SECOND_FRAME)], Cycle);
    LastSteps(g, Next(g, d, Cycle));
  }

  // While the filter counts samples, the second point of the first frame, of time 1.5, is carried over and will
  // be read as of time 1.2.
  lemma StartupShiftsCarriedPoint(g: Settings, start: World)
    requires g == Settings(0.0, 20) && PoweredOn(start)
    ensures var w := RunFrom(g, start, Startup());
            && AdmissibleRun(g, start, Startup()) && w.s.mode == Vio && |w.s.next| == 1
            && TimeOf(w.s.next[0], w.base).time == 1.5 && TimeOf(w.s.next[0], w.s.lastUpdate).time == 1.2
  {
    StartupRuns(g, start);
  }

  // ---------------------------------------------------------------- a sample is lost

  lemma SecondBatch()
    ensures After([SECOND_SAMPLE, THIRD_SAMPLE], 1.3) == [SECOND_SAMPLE, THIRD_SAMPLE]
    ensures LeadingImu([SECOND_SAMPLE, THIRD_SAMPLE], 1.5) == 2
  {
    assert [SECOND_SAMPLE, THIRD_SAMPLE][..1] == [SECOND_SAMPLE] && [SECOND_SAMPLE][..0] == [];
    assert [SECOND_SAMPLE, THIRD_SAMPLE][1..] == [THIRD_SAMPLE] && LeadingImu([THIRD_SAMPLE], 1.5) == 1;
    assert After([SECOND_SAMPLE], 1.3) == [SECOND_SAMPLE];
  }

  lemma SecondPackage(s: State)
    requires s.lastUpdate == 1.3 && s.imu == [SECOND_SAMPLE, THIRD_SAMPLE]
    ensures var p := CutPackage(s, 1.5);
            p.imu == [SECOND_SAMPLE, THIRD_SAMPLE] && p.LioPackage? && p.start == 1.3 && p.time == 1.5
  {
    SecondBatch();
    assert s.imu[..2] == s.imu;
  }

  lemma SecondCycle(g: Settings, s: State)
    requires g.exposure == 0.0 && s.mode == Vio && s.lastUpdate == 1.3
    requires s.frames == [SECOND_FRAME] && s.images == [Image(1.5, 1)] && s.imu == [SECOND_SAMPLE, THIRD_SAMPLE]
    ensures Cycled(g, s) == (Processed(g, CutState(s, 1.5), CutPackage(s, 1.5)), Some(CutPackage(s, 1.5)))
  {
    assert LidarNewest(s) == 1.6 && Anchored(s) == s;
  }

  lemma SecondCut(g: Settings, w: World)
    requires g.exposure == 0.0 && w.s.mode == Vio && w.s.lastUpdate == 1.3
    requires w.s.frames == [SECOND_FRAME] && w.s.images == [Image(1.5, 1)] && w.s.imu == [SECOND_SAMPLE, THIRD_SAMPLE]
    ensures var v, p := Next(g, w, Cycle), CutPackage(w.s, 1.5);
            && v.log == w.log + [p] && v.base == 1.5 && v.imus == w.imus
            && p.LioPackage? && p.imu == [SECOND_SAMPLE, THIRD_SAMPLE] && p.start == 1.3 && p.time == 1.5
            && v.s.newestImu == w.s.newestImu && v.s.newestLidar == w.s.newestLidar
  {
    SecondPackage(w.s);
    SecondCycle(g, w.s);
    ProcessedKeeps(g, CutState(w.s, 1.5), CutPackage(w.s, 1.5));
  }

  // An accepted sample of time 1.5 that the package from 1.3 to 1.5 does not hold. The package after it starts
  // at 1.5 and cannot hold it either.
  lemma LateTwinIsLost(g: Settings, start: World)
    requires g == Settings(0.0, 1) && PoweredOn(start)
    ensures var w := RunFrom(g, start, Startup());
            && AdmissibleRun(g, start, Startup()) && w.s.imuReady && w.s.mode == Vio
            && AdmissibleRun(g, Opened(w), LateArrival())
            && var v := RunFrom(g, Opened(w), LateArrival());
            && |v.log| == 1 && v.log[0].LioPackage? && v.log[0].start == 1.3 && v.log[0].time == 1.5
            && TWIN in v.imus && TWIN !in v.log[0].imu
            && !NoLateTwin(g, Opened(w), LateArrival()) && !AllComplete(v)
  {
    StartupRuns(g, start);
    var w := Opened(RunFrom(g, start, Startup()));
    var a, b := ImuArrives(THIRD_SAMPLE), ImageArrives(Image(1.5, 1));
    RunOneMore(g, w, [], a);
    assert [] + [a] == [a];
    RunOneMore(g, w, [a], b);
    RunOneMore(g, w, [a] + [b], Cycle);
    RunOneMore(g, w, [a] + [b] + [Cycle], ImuArrives(TWIN));
    SecondCut(g, Next(g, Next(g, w, a), b));
    BatchesAreCompleteIff(g, start, Startup(), LateArrival());
  }
}
