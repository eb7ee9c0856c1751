// Cutting the sensor streams at an update time: which points of which frames go into the current cloud and
// which are kept for the next one, which inertial samples belong to the interval, and which RTK fix is its newest.
module DataCut {
  import opened Basics

  datatype Body = Body(x: real, y: real, z: real, intensity: real)

  // A lidar point; `curvature` is its time in milliseconds after the base time of the cloud it is in.
  datatype Point = Point(body: Body, curvature: real)

  datatype Frame = Frame(header: real, points: seq<Point>)

  // A point with its absolute time in seconds.
  datatype Timed = Timed(body: Body, time: real)

  // ---------------------------------------------------------------- point times

  function TimeOf(p: Point, base: real): Timed {
    Timed(p.body, base + p.curvature / 1000.0)
  }

  function Rebased(p: Point, from: real, to: real): (r: Point)
    ensures TimeOf(r, to) == TimeOf(p, from)
  {
    p.(curvature := p.curvature + (from - to) * 1000.0)
  }

  // The points of a cloud with their absolute times.
  function Absolute(points: seq<Point>, base: real): multiset<Timed> {
    if points == [] then multiset{}
    else Absolute(points[..|points| - 1], base) + multiset{TimeOf(points[|points| - 1], base)}
  }

  lemma {:induction false} AbsoluteJoin(a: seq<Point>, b: seq<Point>, base: real)
    ensures Absolute(a + b, base) == Absolute(a, base) + Absolute(b, base)
  {
    if b == [] {
      assert a + b == a;
    } else {
      assert (a + b)[..|a + b| - 1] == a + b[..|b| - 1];
      AbsoluteJoin(a, b[..|b| - 1], base);
    }
  }

  // Points carried over keep their absolute times exactly when the base they are read with is the base they
  // were stored with.
  lemma CarriedTimesIff(points: seq<Point>, stored: real, used: real)
    ensures (forall i :: 0 <= i < |points| ==> TimeOf(points[i], used) == TimeOf(points[i], stored))
            <==> used == stored || points == []
  {
    if used != stored && points != [] {
      assert TimeOf(points[0], used) != TimeOf(points[0], stored);
    }
  }

  // ---------------------------------------------------------------- one frame

  predicate IsEarly(p: Point, header: real, cut: real) {
    p.curvature < (cut - header) * 1000.0
  }

  // The points before the cut, on the base of the last update, in order.
  function Early(points: seq<Point>, header: real, start: real, cut: real): seq<Point> {
    if points == [] then []
    else
      var p := points[|points| - 1];
      Early(points[..|points| - 1], header, start, cut) +
      if IsEarly(p, header, cut) then [Rebased(p, header, start)] else []
  }

  // The points from the cut on, on the base of the cut, in order.
  function Late(points: seq<Point>, header: real, cut: real): seq<Point> {
    if points == [] then []
    else
      var p := points[|points| - 1];
      Late(points[..|points| - 1], header, cut) + if IsEarly(p, header, cut) then [] else [Rebased(p, header, cut)]
  }

  lemma AbsoluteSnoc(points: seq<Point>, p: Point, base: real)
    ensures Absolute(points + [p], base) == Absolute(points, base) + multiset{TimeOf(p, base)}
  {
    assert (points + [p])[..|points|] == points;
  }

  lemma {:induction false} FrameConserves(points: seq<Point>, header: real, start: real, cut: real)
    ensures Absolute(Early(points, header, start, cut), start) + Absolute(Late(points, header, cut), cut)
            == Absolute(points, header)
  {
    if points != [] {
      var front, p := points[..|points| - 1], points[|points| - 1];
      FrameConserves(front, header, start, cut);
      var early, late := Early(front, header, start, cut), Late(front, header, cut);
      if IsEarly(p, header, cut) {
        AbsoluteSnoc(early, Rebased(p, header, start), start);
        assert Late(points, header, cut) == late;
      } else {
        AbsoluteSnoc(late, Rebased(p, header, cut), cut);
        assert Early(points, header, start, cut) == early;
      }
    }
  }

  ghost predicate InTimeOrder(points: seq<Point>) {
    forall i, j :: 0 <= i < j < |points| ==> points[i].curvature <= points[j].curvature
  }

  ghost predicate NoLaterThan(points: seq<Point>, curvature: real) {
    forall i :: 0 <= i < |points| ==> points[i].curvature <= curvature
  }

  lemma {:induction false} SplitIsBounded(points: seq<Point>, header: real, start: real, cut: real, last: real)
    requires NoLaterThan(points, last)
    ensures NoLaterThan(Early(points, header, start, cut), last + (header - start) * 1000.0)
    ensures NoLaterThan(Late(points, header, cut), last + (header - cut) * 1000.0)
  {
    if points != [] {
      SplitIsBounded(points[..|points| - 1], header, start, cut, last);
    }
  }

  // A frame in time order is split into two parts in time order.
  lemma {:induction false} FrameKeepsOrder(points: seq<Point>, header: real, start: real, cut: real)
    requires InTimeOrder(points)
    ensures InTimeOrder(Early(points, header, start, cut)) && InTimeOrder(Late(points, header, cut))
  {
    if points != [] {
      var front, p := points[..|points| - 1], points[|points| - 1];
      FrameKeepsOrder(front, header, start, cut);
      SplitIsBounded(front, header, start, cut, p.curvature);
    }
  }

  lemma EarlyIsBefore(p: Point, header: real, cut: real)
    ensures IsEarly(p, header, cut) <==> TimeOf(p, header).time < cut
  {
  }

  // The cut separates a frame by absolute time.
  lemma {:induction false} FrameIsSeparated(points: seq<Point>, header: real, start: real, cut: real)
    ensures forall i :: 0 <= i < |Early(points, header, start, cut)| ==>
              TimeOf(Early(points, header, start, cut)[i], start).time < cut
    ensures forall i :: 0 <= i < |Late(points, header, cut)| ==> TimeOf(Late(points, header, cut)[i], cut).time >= cut
  {
    if points != [] {
      FrameIsSeparated(points[..|points| - 1], header, start, cut);
      EarlyIsBefore(points[|points| - 1], header, cut);
    }
  }

  // ---------------------------------------------------------------- the queue of frames

  // How many frames at the front of the queue start no later than the cut.
  function Leading(frames: seq<Frame>, cut: real): (n: nat)
    ensures n <= |frames|
  {
    if frames == [] || frames[0].header > cut then 0 else 1 + Leading(frames[1..], cut)
  }

  // With frames in order, those that are cut are exactly those that start no later than the cut.
  lemma {:induction false} LeadingIsExact(frames: seq<Frame>, cut: real)
    requires forall i, j :: 0 <= i < j < |frames| ==> frames[i].header <= frames[j].header
    ensures forall i :: 0 <= i < |frames| ==> (i < Leading(frames, cut) <==> frames[i].header <= cut)
  {
    if frames != [] && frames[0].header <= cut {
      LeadingIsExact(frames[1..], cut);
      forall i | 0 <= i < |frames| ensures i < Leading(frames, cut) <==> frames[i].header <= cut {
        assert i > 0 ==> frames[i] == frames[1..][i - 1];
      }
    }
  }

  function EarlyOf(frames: seq<Frame>, start: real, cut: real): seq<Point> {
    if frames == [] then []
    else
      var f := frames[|frames| - 1];
      EarlyOf(frames[..|frames| - 1], start, cut) + Early(f.points, f.header, start, cut)
  }

  function LateOf(frames: seq<Frame>, cut: real): seq<Point> {
    if frames == [] then []
    else
      var f := frames[|frames| - 1];
      LateOf(frames[..|frames| - 1], cut) + Late(f.points, f.header, cut)
  }

  function AbsoluteOf(frames: seq<Frame>): multiset<Timed> {
    if frames == [] then multiset{}
    else AbsoluteOf(frames[..|frames| - 1]) + Absolute(frames[|frames| - 1].points, frames[|frames| - 1].header)
  }

  lemma {:induction false} AbsoluteOfJoin(a: seq<Frame>, b: seq<Frame>)
    ensures AbsoluteOf(a + b) == AbsoluteOf(a) + AbsoluteOf(b)
  {
    if b == [] {
      assert a + b == a;
    } else {
      assert (a + b)[..|a + b| - 1] == a + b[..|b| - 1];
      AbsoluteOfJoin(a, b[..|b| - 1]);
    }
  }

  lemma {:induction false} FramesConserve(frames: seq<Frame>, start: real, cut: real)
    ensures Absolute(EarlyOf(frames, start, cut), start) + Absolute(LateOf(frames, cut), cut) == AbsoluteOf(frames)
  {
    if frames != [] {
      var front, f := frames[..|frames| - 1], frames[|frames| - 1];
      FramesConserve(front, start, cut);
      FrameConserves(f.points, f.header, start, cut);
      AbsoluteJoin(EarlyOf(front, start, cut), Early(f.points, f.header, start, cut), start);
      AbsoluteJoin(LateOf(front, cut), Late(f.points, f.header, cut), cut);
    }
  }

  lemma {:induction false} FramesAreSeparated(frames: seq<Frame>, start: real, cut: real)
    ensures forall i :: 0 <= i < |EarlyOf(frames, start, cut)| ==>
            TimeOf(EarlyOf(frames, start, cut)[i], start).time < cut
    ensures forall i :: 0 <= i < |LateOf(frames, cut)| ==> TimeOf(LateOf(frames, cut)[i], cut).time >= cut
  {
    if frames != [] {
      var f := frames[|frames| - 1];
      FramesAreSeparated(frames[..|frames| - 1], start, cut);
      FrameIsSeparated(f.points, f.header, start, cut);
    }
  }

  // What one cut makes of the pending cloud and the frames at the front of the queue.
  datatype Clouds = Clouds(current: seq<Point>, next: seq<Point>)

  function CutClouds(pending: seq<Point>, frames: seq<Frame>, start: real, cut: real): Clouds {
    var taken := frames[..Leading(frames, cut)];
    Clouds(pending + EarlyOf(taken, start, cut), LateOf(taken, cut))
  }

  // A cut loses no point, doubles none and moves none in time.
  lemma CutConserves(pending: seq<Point>, frames: seq<Frame>, start: real, cut: real)
    ensures var c := CutClouds(pending, frames, start, cut);
            Absolute(c.current, start) + Absolute(c.next, cut)
            == Absolute(pending, start) + AbsoluteOf(frames[..Leading(frames, cut)])
  {
    var taken := frames[..Leading(frames, cut)];
    FramesConserve(taken, start, cut);
    AbsoluteJoin(pending, EarlyOf(taken, start, cut), start);
  }

  // The same, with the frames that stay in the queue on both sides.
  lemma CutBalances(pending: seq<Point>, frames: seq<Frame>, start: real, cut: real)
    ensures var c := CutClouds(pending, frames, start, cut);
            Absolute(c.current, start) + Absolute(c.next, cut) + AbsoluteOf(frames[Leading(frames, cut)..])
            == Absolute(pending, start) + AbsoluteOf(frames)
  {
    CutConserves(pending, frames, start, cut);
    AbsoluteOfSplit(frames, Leading(frames, cut));
  }

  lemma AbsoluteOfSplit(frames: seq<Frame>, n: nat)
    requires n <= |frames|
    ensures AbsoluteOf(frames) == AbsoluteOf(frames[..n]) + AbsoluteOf(frames[n..])
  {
    var a, b := frames[..n], frames[n..];
    assert frames == a + b;
    AbsoluteOfParts(frames, a, b);
  }

  lemma AbsoluteOfParts(frames: seq<Frame>, a: seq<Frame>, b: seq<Frame>)
    requires frames == a + b
    ensures AbsoluteOf(frames) == AbsoluteOf(a) + AbsoluteOf(b)
  {
    AbsoluteOfJoin(a, b);
  }

  // One more frame at the end of those taken.
  lemma TakenGrows(frames: seq<Frame>, n: nat, start: real, cut: real)
    requires n < |frames|
    ensures EarlyOf(frames[..n + 1], start, cut)
            == EarlyOf(frames[..n], start, cut) + Early(frames[n].points, frames[n].header, start, cut)
    ensures LateOf(frames[..n + 1], cut) == LateOf(frames[..n], cut) + Late(frames[n].points, frames[n].header, cut)
  {
    assert frames[..n + 1][..n] == frames[..n];
  }

  // What is new in the current cloud lies before the cut, what is kept for the next one does not.
  lemma CutSeparates(pending: seq<Point>, frames: seq<Frame>, start: real, cut: real)
    ensures var c := CutClouds(pending, frames, start, cut);
            && c.current[..|pending|] == pending
            && (forall i :: 0 <= i < |c.next| ==> TimeOf(c.next[i], cut).time >= cut)
            && (forall i :: |pending| <= i < |c.current| ==> TimeOf(c.current[i], start).time < cut)
  {
    var taken := frames[..Leading(frames, cut)];
    FramesAreSeparated(taken, start, cut);
    var c := CutClouds(pending, frames, start, cut);
    forall i | |pending| <= i < |c.current| ensures TimeOf(c.current[i], start).time < cut {
      assert c.current[i] == EarlyOf(taken, start, cut)[i - |pending|];
    }
  }

  // ---------------------------------------------------------------- inertial samples

  datatype Imu = Imu(stamp: real, gyro: seq<real>, acceleration: seq<real>)

  function LeadingImu(queue: seq<Imu>, cut: real): (n: nat)
    ensures n <= |queue|
  {
    if queue == [] || queue[0].stamp > cut then 0 else 1 + LeadingImu(queue[1..], cut)
  }

  lemma {:induction false} LeadingImuStops(queue: seq<Imu>, cut: real)
    ensures var n := LeadingImu(queue, cut);
            && (forall i :: 0 <= i < n ==> queue[i].stamp <= cut)
            && (n < |queue| ==> queue[n].stamp > cut)
  {
    if queue != [] && queue[0].stamp <= cut {
      LeadingImuStops(queue[1..], cut);
      forall i | 0 <= i < LeadingImu(queue, cut) ensures queue[i].stamp <= cut {
        assert i > 0 ==> queue[i] == queue[1..][i - 1];
      }
    }
  }

  function After(queue: seq<Imu>, start: real): seq<Imu> {
    if queue == [] then []
    else
      var x := queue[|queue| - 1];
      After(queue[..|queue| - 1], start) + if x.stamp > start then [x] else []
  }

  // The samples in (start, cut], in order: the reference the batches are measured against.
  function Within(queue: seq<Imu>, start: real, cut: real): seq<Imu> {
    if queue == [] then []
    else
      var x := queue[|queue| - 1];
      Within(queue[..|queue| - 1], start, cut) + if start < x.stamp <= cut then [x] else []
  }

  lemma {:induction false} WithinJoin(a: seq<Imu>, b: seq<Imu>, start: real, cut: real)
    ensures Within(a + b, start, cut) == Within(a, start, cut) + Within(b, start, cut)
  {
    if b == [] {
      assert a + b == a;
    } else {
      assert (a + b)[..|a + b| - 1] == a + b[..|b| - 1];
      WithinJoin(a, b[..|b| - 1], start, cut);
    }
  }

  lemma {:induction false} WithinOutside(a: seq<Imu>, start: real, cut: real)
    requires forall i :: 0 <= i < |a| ==> a[i].stamp <= start || a[i].stamp > cut
    ensures Within(a, start, cut) == []
  {
    if a != [] {
      WithinOutside(a[..|a| - 1], start, cut);
    }
  }

  lemma {:induction false} AfterIsWithin(a: seq<Imu>, start: real, cut: real)
    requires forall i :: 0 <= i < |a| ==> a[i].stamp <= cut
    ensures After(a, start) == Within(a, start, cut)
  {
    if a != [] {
      AfterIsWithin(a[..|a| - 1], start, cut);
    }
  }

  // Samples in order; two may have the same stamp.
  ghost predicate Ordered(queue: seq<Imu>) {
    forall i, j :: 0 <= i < j < |queue| ==> queue[i].stamp <= queue[j].stamp
  }

  lemma OrderedTail(a: seq<Imu>, n: nat)
    requires Ordered(a) && n <= |a|
    ensures Ordered(a[n..])
  {
  }

  // From an ordered history of which everything up to `start` may already have been popped, the batch of a cut
  // is the whole history in (start, cut].
  lemma BatchIsWithin(history: seq<Imu>, popped: nat, start: real, cut: real)
    requires Ordered(history) && popped <= |history|
    requires forall i :: 0 <= i < popped ==> history[i].stamp <= start
    ensures var queue := history[popped..];
            After(queue[..LeadingImu(queue, cut)], start) == Within(history, start, cut)
  {
    OrderedTail(history, popped);
    QueueBatchIsWithin(history[popped..], start, cut);
    PastIsOutside(history, popped, start, cut);
  }

  lemma PastIsOutside(history: seq<Imu>, popped: nat, start: real, cut: real)
    requires popped <= |history| && forall i :: 0 <= i < popped ==> history[i].stamp <= start
    ensures Within(history[popped..], start, cut) == Within(history, start, cut)
  {
    WithinOutside(history[..popped], start, cut);
    WithinSplit(history, popped, start, cut);
  }

  lemma RestIsBeyond(queue: seq<Imu>, start: real, cut: real)
    requires Ordered(queue)
    ensures Within(queue[LeadingImu(queue, cut)..], start, cut) == []
  {
    var n := LeadingImu(queue, cut);
    LeadingImuStops(queue, cut);
    var rest := queue[n..];
    forall i | 0 <= i < |rest| ensures rest[i].stamp > cut {
      assert rest[i] == queue[n + i];
      assert i > 0 ==> queue[n].stamp <= queue[n + i].stamp;
    }
    WithinOutside(rest, start, cut);
  }

  lemma TakenAreWithin(queue: seq<Imu>, start: real, cut: real)
    ensures After(queue[..LeadingImu(queue, cut)], start) == Within(queue[..LeadingImu(queue, cut)], start, cut)
  {
    LeadingImuStops(queue, cut);
    AfterIsWithin(queue[..LeadingImu(queue, cut)], start, cut);
  }

  lemma QueueBatchIsWithin(queue: seq<Imu>, start: real, cut: real)
    requires Ordered(queue)
    ensures After(queue[..LeadingImu(queue, cut)], start) == Within(queue, start, cut)
  {
    var n := LeadingImu(queue, cut);
    TakenAreWithin(queue, start, cut);
    RestIsBeyond(queue, start, cut);
    WithinSplit(queue, n, start, cut);
  }

  lemma WithinSplit(queue: seq<Imu>, n: nat, start: real, cut: real)
    requires n <= |queue|
    ensures Within(queue, start, cut) == Within(queue[..n], start, cut) + Within(queue[n..], start, cut)
  {
    var a, b := queue[..n], queue[n..];
    assert queue == a + b;
    WithinOfParts(queue, a, b, start, cut);
  }

  lemma WithinOfParts(queue: seq<Imu>, a: seq<Imu>, b: seq<Imu>, start: real, cut: real)
    requires queue == a + b
    ensures Within(queue, start, cut) == Within(a, start, cut) + Within(b, start, cut)
  {
    WithinJoin(a, b, start, cut);
  }

  lemma {:induction false} WithinBounds(a: seq<Imu>, start: real, cut: real)
    requires Ordered(a)
    ensures Ordered(Within(a, start, cut))
    ensures forall i :: 0 <= i < |Within(a, start, cut)| ==>
              start < Within(a, start, cut)[i].stamp <= cut && Within(a, start, cut)[i] in a
  {
    if a != [] {
      var front := a[..|a| - 1];
      WithinBounds(front, start, cut);
      forall i | 0 <= i < |Within(front, start, cut)|
        ensures Within(front, start, cut)[i].stamp <= a[|a| - 1].stamp
      {
        var j :| 0 <= j < |front| && front[j] == Within(front, start, cut)[i];
      }
    }
  }

  // ---------------------------------------------------------------- RTK fixes

  datatype Rtk = Rtk(stamp: real, valid: bool, position: seq<real>)

  function LeadingRtk(queue: seq<Rtk>, cut: real): (n: nat)
    ensures n <= |queue|
  {
    if queue == [] || queue[0].stamp > cut then 0 else 1 + LeadingRtk(queue[1..], cut)
  }

  lemma {:induction false} LeadingRtkStops(queue: seq<Rtk>, cut: real)
    requires FixesInOrder(queue)
    ensures forall i :: 0 <= i < |queue| ==> (i < LeadingRtk(queue, cut) <==> queue[i].stamp <= cut)
  {
    if queue != [] && queue[0].stamp <= cut {
      LeadingRtkStops(queue[1..], cut);
      forall i | 0 <= i < |queue| ensures i < LeadingRtk(queue, cut) <==> queue[i].stamp <= cut {
        assert i > 0 ==> queue[i] == queue[1..][i - 1];
      }
    }
  }

  predicate Usable(x: Rtk, start: real) {
    x.stamp > start && x.valid
  }

  // The last usable fix of a list.
  function LastUsable(queue: seq<Rtk>, start: real): Option<Rtk> {
    if queue == [] then None
    else if Usable(queue[|queue| - 1], start) then Some(queue[|queue| - 1])
    else LastUsable(queue[..|queue| - 1], start)
  }

  ghost predicate IsNewest(queue: seq<Rtk>, start: real, cut: real, r: Option<Rtk>) {
    && (r.Some? ==> r.value in queue && Usable(r.value, start) && r.value.stamp <= cut)
    && (forall x :: x in queue && Usable(x, start) && x.stamp <= cut ==> r.Some? && x.stamp <= r.value.stamp)
  }

  lemma {:induction false} LastUsableIsNewest(queue: seq<Rtk>, start: real, cut: real)
    requires forall i, j :: 0 <= i < j < |queue| ==> queue[i].stamp <= queue[j].stamp
    requires forall i :: 0 <= i < |queue| ==> queue[i].stamp <= cut
    ensures IsNewest(queue, start, cut, LastUsable(queue, start))
  {
    if queue != [] {
      LastUsableIsNewest(queue[..|queue| - 1], start, cut);
    }
  }

  // The fix kept for an interval.
  function KeptOf(queue: seq<Rtk>, start: real, cut: real): Option<Rtk> {
    LastUsable(queue[..LeadingRtk(queue, cut)], start)
  }

  ghost predicate FixesInOrder(queue: seq<Rtk>) {
    forall i, j :: 0 <= i < j < |queue| ==> queue[i].stamp <= queue[j].stamp
  }

  // r is the last usable fix among the first n, if there is any.
  ghost predicate IsLastUsable(queue: seq<Rtk>, n: nat, start: real, r: Option<Rtk>)
    requires n <= |queue|
  {
    if r.None? then forall i :: 0 <= i < n ==> !Usable(queue[i], start)
    else exists k :: 0 <= k < n && IsLastUsableAt(queue, n, start, k) && queue[k] == r.value
  }

  ghost predicate IsLastUsableAt(queue: seq<Rtk>, n: nat, start: real, k: nat)
    requires k < n <= |queue|
  {
    Usable(queue[k], start) && forall i :: k < i < n ==> !Usable(queue[i], start)
  }

  // The first n fixes are those before the first one beyond the cut, and r is the last usable of them.
  ghost predicate IsLastPopped(queue: seq<Rtk>, start: real, cut: real, n: nat, r: Option<Rtk>) {
    && n <= |queue| && (n < |queue| ==> queue[n].stamp > cut) && (forall i :: 0 <= i < n ==> queue[i].stamp <= cut)
    && IsLastUsable(queue, n, start, r)
  }

  lemma {:induction false} LeadingRtkBounds(queue: seq<Rtk>, cut: real)
    ensures var n := LeadingRtk(queue, cut);
            (n < |queue| ==> queue[n].stamp > cut) && (forall i :: 0 <= i < n ==> queue[i].stamp <= cut)
  {
    if queue != [] && queue[0].stamp <= cut {
      LeadingRtkBounds(queue[1..], cut);
      forall i | 0 <= i < LeadingRtk(queue, cut) ensures queue[i].stamp <= cut {
        assert i > 0 ==> queue[i] == queue[1..][i - 1];
      }
    }
  }

  lemma {:induction false} LastUsableIsLast(queue: seq<Rtk>, n: nat, start: real)
    requires n <= |queue|
    ensures IsLastUsable(queue, n, start, LastUsable(queue[..n], start))
  {
    if n > 0 {
      assert queue[..n][..n - 1] == queue[..n - 1];
      LastUsableIsLast(queue, n - 1, start);
      if Usable(queue[n - 1], start) {
        assert IsLastUsableAt(queue, n, start, n - 1);
      } else if k :| 0 <= k < n - 1 && IsLastUsableAt(queue, n - 1, start, k)
                     && LastUsable(queue[..n - 1], start) == Some(queue[k]) {
        assert IsLastUsableAt(queue, n, start, k);
      }
    }
  }

  lemma KeptFixIsLast(queue: seq<Rtk>, start: real, cut: real)
    ensures IsLastPopped(queue, start, cut, LeadingRtk(queue, cut), KeptOf(queue, start, cut))
  {
    LeadingRtkBounds(queue, cut);
    LastUsableIsLast(queue, LeadingRtk(queue, cut), start);
  }

  lemma OrderedFixIsNewest(queue: seq<Rtk>, start: real, cut: real)
    requires FixesInOrder(queue)
    ensures IsNewest(queue, start, cut, KeptOf(queue, start, cut))
  {
    var n := LeadingRtk(queue, cut);
    LeadingRtkStops(queue, cut);
    LastUsableIsNewest(queue[..n], start, cut);
    forall x | x in queue && Usable(x, start) && x.stamp <= cut ensures x in queue[..n] {
      var i :| 0 <= i < |queue| && queue[i] == x;
      assert queue[..n][i] == x;
    }
  }

  // In whatever order fixes arrive, the one kept is the last usable one before the first that is beyond the
  // cut. With fixes in order it is the newest valid one of the interval, if there is any.
  lemma KeptFixIsNewest(queue: seq<Rtk>, start: real, cut: real)
    ensures IsLastPopped(queue, start, cut, LeadingRtk(queue, cut), KeptOf(queue, start, cut))
    ensures FixesInOrder(queue) ==> IsNewest(queue, start, cut, KeptOf(queue, start, cut))
  {
    KeptFixIsLast(queue, start, cut);
    if FixesInOrder(queue) {
      OrderedFixIsNewest(queue, start, cut);
    }
  }

  // The fixes popped at the time of fix j end with one of that time.
  predicate EndsOnTime(queue: seq<Rtk>, j: nat)
    requires j < |queue|
  {
    var n := LeadingRtk(queue, queue[j].stamp);
    n > 0 && queue[n - 1].stamp == queue[j].stamp
  }

  ghost predicate AllEndOnTime(queue: seq<Rtk>) {
    forall j {:trigger EndsOnTime(queue, j)} :: 0 <= j < |queue| ==> EndsOnTime(queue, j)
  }

  ghost predicate AlwaysNewest(queue: seq<Rtk>) {
    forall start, cut {:trigger KeptOf(queue, start, cut)} :: IsNewest(queue, start, cut, KeptOf(queue, start, cut))
  }

  // Valid fixes are appended in whatever order they come. The fix kept is the newest of every interval exactly when,
  // for every fix, those popped at its time end with one of its time.
  lemma NewestForAllIff(queue: seq<Rtk>)
    requires forall i :: 0 <= i < |queue| ==> queue[i].valid
    ensures AlwaysNewest(queue) <==> AllEndOnTime(queue)
  {
    if AlwaysNewest(queue) {
      forall j | 0 <= j < |queue| ensures EndsOnTime(queue, j) {
        NewestEndsOnTime(queue, j);
      }
    }
    if AllEndOnTime(queue) {
      forall start, cut ensures IsNewest(queue, start, cut, KeptOf(queue, start, cut)) {
        EndingOnTimeIsNewest(queue, start, cut);
      }
    }
  }

  // A time before all fixes.
  function Earlier(queue: seq<Rtk>): (t: real)
    ensures forall i :: 0 <= i < |queue| ==> t < queue[i].stamp
  {
    if queue == [] then 0.0
    else
      var t, last := Earlier(queue[..|queue| - 1]), queue[|queue| - 1].stamp;
      if t < last then t else last - 1.0
  }

  lemma NewestEndsOnTime(queue: seq<Rtk>, j: nat)
    requires AlwaysNewest(queue) && j < |queue| && forall i :: 0 <= i < |queue| ==> queue[i].valid
    ensures EndsOnTime(queue, j)
  {
    var start, cut := Earlier(queue), queue[j].stamp;
    var n, kept := LeadingRtk(queue, cut), KeptOf(queue, start, cut);
    assert IsNewest(queue, start, cut, kept) && queue[j] in queue;
    LeadingRtkBounds(queue, cut);
    assert n > 0 ==> kept == Some(queue[n - 1]);
  }

  // A fix of the greatest time that is not beyond the cut.
  lemma {:induction false} SomeNewest(queue: seq<Rtk>, cut: real, i: nat) returns (j: nat)
    requires i < |queue| && queue[i].stamp <= cut
    ensures j < |queue| && queue[j].stamp <= cut
    ensures forall k :: 0 <= k < |queue| && queue[k].stamp <= cut ==> queue[k].stamp <= queue[j].stamp
  {
    var n := |queue| - 1;
    if k :| 0 <= k < n && queue[k].stamp <= cut {
      j := SomeNewest(queue[..n], cut, k);
      if queue[j].stamp < queue[n].stamp <= cut {
        j := n;
      }
    } else {
      j := n;
    }
  }

  // Then the last fix popped has the greatest time up to the cut.
  lemma EndsOnGreatest(queue: seq<Rtk>, cut: real, j: nat)
    requires j < |queue| && queue[j].stamp <= cut && EndsOnTime(queue, j)
    requires forall k :: 0 <= k < |queue| && queue[k].stamp <= cut ==> queue[k].stamp <= queue[j].stamp
    ensures var n := LeadingRtk(queue, cut); n > 0 && queue[n - 1].stamp == queue[j].stamp
  {
    SameLeading(queue, queue[j].stamp, cut);
  }

  lemma EndingOnTimeIsNewest(queue: seq<Rtk>, start: real, cut: real)
    requires AllEndOnTime(queue) && forall i :: 0 <= i < |queue| ==> queue[i].valid
    ensures IsNewest(queue, start, cut, KeptOf(queue, start, cut))
  {
    KeptFixIsLast(queue, start, cut);
    if i :| 0 <= i < |queue| && Usable(queue[i], start) && queue[i].stamp <= cut {
      var j := SomeNewest(queue, cut, i);
      var n := LeadingRtk(queue, cut);
      assert EndsOnTime(queue, j);
      EndsOnGreatest(queue, cut, j);
      assert queue[..n][n - 1] == queue[n - 1] && Usable(queue[n - 1], start);
      assert KeptOf(queue, start, cut) == Some(queue[n - 1]);
    } else {
      NothingToKeep(queue, start, cut);
    }
  }

  lemma NothingToKeep(queue: seq<Rtk>, start: real, cut: real)
    requires forall i :: 0 <= i < |queue| && queue[i].stamp <= cut ==> !Usable(queue[i], start)
    ensures KeptOf(queue, start, cut).None?
  {
    KeptFixIsLast(queue, start, cut);
  }

  // Between two times with no fix in between the same fixes are popped.
  lemma {:induction false} SameLeading(queue: seq<Rtk>, a: real, b: real)
    requires a <= b && forall k :: 0 <= k < |queue| && queue[k].stamp <= b ==> queue[k].stamp <= a
    ensures LeadingRtk(queue, a) == LeadingRtk(queue, b)
  {
    if queue != [] && queue[0].stamp <= a {
      SameLeading(queue[1..], a, b);
    }
  }

  // For valid fixes with different stamps this is just their order.
  lemma NewestForAllIffInOrder(queue: seq<Rtk>)
    requires forall i :: 0 <= i < |queue| ==> queue[i].valid
    requires forall i, j :: 0 <= i < j < |queue| ==> queue[i].stamp != queue[j].stamp
    ensures FixesInOrder(queue) <==> AlwaysNewest(queue)
  {
    if FixesInOrder(queue) {
      forall start, cut ensures IsNewest(queue, start, cut, KeptOf(queue, start, cut)) {
        KeptFixIsNewest(queue, start, cut);
      }
    } else {
      var i, j :| 0 <= i < j < |queue| && queue[i].stamp > queue[j].stamp;
      OvertakenIsMissed(queue, i, j);
    }
  }

  // A fix that arrived after a later one is not the one kept for the interval it ends.
  lemma OvertakenIsMissed(queue: seq<Rtk>, i: nat, j: nat)
    requires i < j < |queue| && queue[i].stamp > queue[j].stamp && queue[j].valid
    requires forall k :: 0 <= k < |queue| && k != j ==> queue[k].stamp != queue[j].stamp
    ensures var start, cut := queue[j].stamp - 1.0, queue[j].stamp;
            !IsNewest(queue, start, cut, KeptOf(queue, start, cut))
  {
    var start, cut := queue[j].stamp - 1.0, queue[j].stamp;
    KeptFixIsNewest(queue, start, cut);
    assert LeadingRtk(queue, cut) <= i;
    assert queue[j] in queue && Usable(queue[j], start);
  }
}
