// The queues and the cycle as they are kept in memory: deques are popped front by front and points are moved
// between clouds one at a time.
module LivMapper {
  import opened Basics
  import opened DataCut
  import opened ImuPropagation
  import opened SyncRuns

  class LIVMapper {
    const settings: Settings
    var lidRawDataBuffer: seq<LidarFrame>
    var imgBuffer: seq<Image>
    var imuBuffer: seq<Imu>
    var rtkBuffer: seq<Rtk>
    var lastTimestampLidar: real
    var lastTimestampImu: real
    var lastTimestampImg: real
    var rtkIni: bool
    var lioVioFlg: Mode
    var lastLioUpdateTime: real
    var pclProcCur: seq<Point>
    var pclProcNext: seq<Point>
    var imuNeedInit: bool
    var initIterNum: int
    var lastImu: Imu
    var lastPropEndTime: real

    function View(): State
      reads this
    {
      State(lidRawDataBuffer, imgBuffer, imuBuffer, rtkBuffer, lastTimestampLidar, lastTimestampImu, lastTimestampImg,
            rtkIni, lioVioFlg, lastLioUpdateTime, pclProcCur, pclProcNext, !imuNeedInit, initIterNum, lastImu,
            lastPropEndTime)
    }

    constructor (settings: Settings, lastImu: Imu, lastPropEndTime: real)
      ensures View() == PowerOn(lastImu, lastPropEndTime) && this.settings == settings
    {
      this.settings, this.lastImu, this.lastPropEndTime := settings, lastImu, lastPropEndTime;
      lidRawDataBuffer, imgBuffer, imuBuffer, rtkBuffer := [], [], [], [];
      lastTimestampLidar, lastTimestampImu, lastTimestampImg := -1.0, -1.0, -1.0;
      rtkIni, lioVioFlg, lastLioUpdateTime := false, Wait, -1.0;
      pclProcCur, pclProcNext, imuNeedInit, initIterNum := [], [], true, 1;
    }

    // ---------------------------------------------------------------- arrivals

    method ImuCbk(x: Imu)
      modifies this
      ensures View() == ImuArrived(old(View()), x)
    {
      if lastTimestampLidar < 0.0 {
        return;
      }
      if lastTimestampImu > 0.0 && x.stamp < lastTimestampImu {
        return;
      }
      lastTimestampImu := x.stamp;
      imuBuffer := imuBuffer + [x];
    }

    method ImgCbk(x: Image)
      modifies this
      ensures View() == ImageArrived(old(View()), x)
    {
      if (if x.stamp >= lastTimestampImg then x.stamp - lastTimestampImg else lastTimestampImg - x.stamp) < 0.001 {
        return;
      }
      if lastTimestampLidar < 0.0 || x.stamp < lastTimestampImg {
        return;
      }
      if x.stamp - lastTimestampImg < 0.02 {
        return;
      }
      imgBuffer := imgBuffer + [x];
      lastTimestampImg := x.stamp;
    }

    method RtkCbk(x: Rtk)
      requires |rtkBuffer| <= RTK_CAPACITY
      modifies this
      ensures View() == RtkArrived(old(View()), x) && |rtkBuffer| <= RTK_CAPACITY
    {
      if !x.valid {
        return;
      }
      rtkBuffer := rtkBuffer + [x];
      while |rtkBuffer| > RTK_CAPACITY
        invariant |rtkBuffer| == RTK_CAPACITY + 1 ==> rtkBuffer == old(rtkBuffer) + [x]
        invariant |rtkBuffer| <= RTK_CAPACITY ==> rtkBuffer == RtkArrived(old(View()), x).rtk
        invariant |rtkBuffer| <= RTK_CAPACITY + 1 && View() == old(View()).(rtk := rtkBuffer)
      {
        rtkBuffer := rtkBuffer[1..];
      }
    }

    // ---------------------------------------------------------------- the cycle

    method TakeFix(time: real) returns (kept: Option<Rtk>)
      modifies this`rtkBuffer
      ensures rtkBuffer == if rtkIni then old(rtkBuffer)[LeadingRtk(old(rtkBuffer), time)..] else old(rtkBuffer)
      ensures kept == KeptFix(old(View()), time)
    {
      kept := None;
      if rtkIni {
        kept := TakeRtk(time);
      }
    }

    // Consumes the interval and retains its newest usable fix.
    method TakeRtk(time: real) returns (kept: Option<Rtk>)
      modifies this`rtkBuffer
      ensures rtkBuffer == old(rtkBuffer)[LeadingRtk(old(rtkBuffer), time)..]
      ensures kept == LastUsable(old(rtkBuffer)[..LeadingRtk(old(rtkBuffer), time)], lastLioUpdateTime)
    {
      kept := None;
      ghost var q, n := rtkBuffer, 0;
      while rtkBuffer != []
        invariant n <= |q| && rtkBuffer == q[n..] && kept == LastUsable(q[..n], lastLioUpdateTime)
        invariant LeadingRtk(q, time) == n + LeadingRtk(rtkBuffer, time)
        decreases |rtkBuffer|
      {
        if rtkBuffer[0].stamp > time {
          break;
        }
        if rtkBuffer[0].stamp > lastLioUpdateTime && rtkBuffer[0].valid {
          kept := Some(rtkBuffer[0]);
        }
        assert q[..n + 1][..n] == q[..n];
        rtkBuffer, n := rtkBuffer[1..], n + 1;
      }
    }

    method TakeImu(time: real) returns (batch: seq<Imu>)
      modifies this`imuBuffer
      ensures imuBuffer == old(imuBuffer)[LeadingImu(old(imuBuffer), time)..]
      ensures batch == After(old(imuBuffer)[..LeadingImu(old(imuBuffer), time)], lastLioUpdateTime)
    {
      batch := [];
      ghost var q, n := imuBuffer, 0;
      while imuBuffer != []
        invariant n <= |q| && imuBuffer == q[n..] && batch == After(q[..n], lastLioUpdateTime)
        invariant LeadingImu(q, time) == n + LeadingImu(imuBuffer, time)
        decreases |imuBuffer|
      {
        if imuBuffer[0].stamp > time {
          break;
        }
        if imuBuffer[0].stamp > lastLioUpdateTime {
          batch := batch + [imuBuffer[0]];
        }
        assert q[..n + 1][..n] == q[..n];
        imuBuffer, n := imuBuffer[1..], n + 1;
      }
    }

    // Moves the points of one frame to the current or to the next cloud.
    method SplitFrame(f: LidarFrame, time: real)
      modifies this`pclProcCur, this`pclProcNext
      ensures pclProcCur == old(pclProcCur) + Early(f.points, f.header, lastLioUpdateTime, time)
      ensures pclProcNext == old(pclProcNext) + Late(f.points, f.header, time)
    {
      var i := 0;
      while i < |f.points|
        invariant 0 <= i <= |f.points|
        invariant pclProcCur == old(pclProcCur) + Early(f.points[..i], f.header, lastLioUpdateTime, time)
        invariant pclProcNext == old(pclProcNext) + Late(f.points[..i], f.header, time)
      {
        assert f.points[..i + 1][..i] == f.points[..i];
        var pt := f.points[i];
        if pt.curvature < (time - f.header) * 1000.0 {
          pclProcCur := pclProcCur + [Rebased(pt, f.header, lastLioUpdateTime)];
        } else {
          pclProcNext := pclProcNext + [Rebased(pt, f.header, time)];
        }
        i := i + 1;
      }
      assert f.points[..i] == f.points;
    }

    // Splits the frame at the front of the queue.
    method SplitFront(time: real)
      requires lidRawDataBuffer != []
      modifies this`pclProcCur, this`pclProcNext, this`lidRawDataBuffer
      ensures lidRawDataBuffer == old(lidRawDataBuffer)[1..]
      ensures var f := old(lidRawDataBuffer)[0];
              && pclProcCur == old(pclProcCur) + Early(f.points, f.header, lastLioUpdateTime, time)
              && pclProcNext == old(pclProcNext) + Late(f.points, f.header, time)
    {
      SplitFrame(lidRawDataBuffer[0], time);
      lidRawDataBuffer := lidRawDataBuffer[1..];
    }

    // Splits the first n frames of the queue.
    method SplitFrames(time: real) returns (ghost n: nat)
      modifies this`pclProcCur, this`pclProcNext, this`lidRawDataBuffer
      ensures n == Leading(old(lidRawDataBuffer), time) && lidRawDataBuffer == old(lidRawDataBuffer)[n..]
      ensures pclProcCur == old(pclProcCur) + EarlyOf(old(lidRawDataBuffer)[..n], lastLioUpdateTime, time)
      ensures pclProcNext == old(pclProcNext) + LateOf(old(lidRawDataBuffer)[..n], time)
    {
      ghost var q: seq<Frame> := lidRawDataBuffer;
      ghost var early, late := [], [];
      n := 0;
      while lidRawDataBuffer != []
        invariant n <= |q| && lidRawDataBuffer == q[n..] && Leading(q, time) == n + Leading(lidRawDataBuffer, time)
        invariant early == EarlyOf(q[..n], lastLioUpdateTime, time) && late == LateOf(q[..n], time)
        invariant pclProcCur == old(pclProcCur) + early && pclProcNext == old(pclProcNext) + late
        decreases |lidRawDataBuffer|
      {
        if lidRawDataBuffer[0].header > time {
          break;
        }
        TakenGrows(q, n, lastLioUpdateTime, time);
        early := early + Early(q[n].points, q[n].header, lastLioUpdateTime, time);
        late := late + Late(q[n].points, q[n].header, time);
        SplitFront(time);
        n := n + 1;
      }
    }

    // Moves what was left for this cloud into it, then splits the frames that start before the cut.
    method TakeFrames(time: real)
      modifies this`pclProcCur, this`pclProcNext, this`lidRawDataBuffer
      ensures lidRawDataBuffer == old(lidRawDataBuffer)[Leading(old(lidRawDataBuffer), time)..]
      ensures Clouds(pclProcCur, pclProcNext) ==
              CutClouds(old(pclProcNext), old(lidRawDataBuffer), lastLioUpdateTime, time)
    {
      pclProcCur, pclProcNext := pclProcNext, [];
      ghost var n := SplitFrames(time);
    }

    method TakeSamples(time: real) returns (kept: Option<Rtk>, batch: seq<Imu>)
      modifies this`rtkBuffer, this`imuBuffer
      ensures View() == old(View()).(
                          imu := old(imuBuffer)[LeadingImu(old(imuBuffer), time)..],
                          rtk := if rtkIni then old(rtkBuffer)[LeadingRtk(old(rtkBuffer), time)..] else old(rtkBuffer))
      ensures kept == KeptFix(old(View()), time)
      ensures batch == After(old(imuBuffer)[..LeadingImu(old(imuBuffer), time)], lastLioUpdateTime)
    {
      kept := TakeFix(time);
      batch := TakeImu(time);
    }

    method CutLio(time: real) returns (p: Package)
      modifies this
      ensures View() == CutState(old(View()), time) && p == CutPackage(old(View()), time)
    {
      var kept, batch := TakeSamples(time);
      TakeFrames(time);
      p := LioPackage(lastLioUpdateTime, time, pclProcCur, batch, kept);
      lioVioFlg := Lio;
    }

    method SyncPackages() returns (p: Option<Package>)
      modifies this
      ensures (View(), p) == Synced(settings, old(View()))
    {
      if lidRawDataBuffer == [] || imgBuffer == [] || imuBuffer == [] {
        return None;
      }
      var time := imgBuffer[0].stamp + settings.exposure;
      if lioVioFlg == Lio {
        lioVioFlg := Vio;
        p := Some(VioPackage(time, imgBuffer[0].picture));
        imgBuffer := imgBuffer[1..];
        return;
      }
      if lastLioUpdateTime < 0.0 {
        lastLioUpdateTime := lidRawDataBuffer[0].header;
      }
      p := CutWhenCovered(time);
    }

    // The image is too old, the lidar or the inertial samples do not reach it yet, or the cut is made.
    method CutWhenCovered(time: real) returns (p: Option<Package>)
      requires HasAll(View())
      modifies this
      ensures (View(), p) == Covered(old(View()), time)
    {
      var f := lidRawDataBuffer[|lidRawDataBuffer| - 1];
      var lidNewest := f.header + f.points[|f.points| - 1].curvature / 1000.0;
      var imuNewest := imuBuffer[|imuBuffer| - 1].stamp;
      if time < lastLioUpdateTime + 0.00001 {
        imgBuffer := imgBuffer[1..];
        return None;
      }
      if time > lidNewest || time > imuNewest {
        return None;
      }
      var q := CutLio(time);
      return Some(q);
    }

    // The initialisation counts samples; after it, a package is propagated from the end of the last one.
    method ProcessImu(p: Package) returns (poseOffsets: seq<real>)
      modifies this
      ensures View() == Processed(settings, old(View()), p)
      ensures old(imuNeedInit) ==> poseOffsets == []
      ensures !old(imuNeedInit) ==>
                AreOffsets(poseOffsets, AllStrides(Samples(old(View()), p), old(lastPropEndTime), p.time))
    {
      poseOffsets := [];
      var imu := if p.LioPackage? then p.imu else [];
      if imuNeedInit {
        if imu == [] {
          return;
        }
        initIterNum := initIterNum + |imu|;
        lastImu := imu[|imu| - 1];
        imuNeedInit := !(initIterNum > settings.initCount);
        return;
      }
      var samples := [lastImu] + imu;
      var total;
      total, poseOffsets := Propagate(samples, lastPropEndTime, p.time);
      lastLioUpdateTime := p.time;
      lastImu := samples[|samples| - 1];
      lastPropEndTime := p.time;
    }

    // One turn of the main loop.
    method RunOnce() returns (p: Option<Package>)
      modifies this
      ensures (View(), p) == Cycled(settings, old(View()))
    {
      p := SyncPackages();
      if p.Some? {
        var poseOffsets := ProcessImu(p.value);
      }
    }
  }
}
