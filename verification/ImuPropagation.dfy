// The time steps of the forward propagation over one batch of inertial samples.
module ImuPropagation {
  import opened DataCut

  // One propagation step: its length, and the time of the pose it ends with after the start.
  datatype Stride = Stride(dt: real, offset: real)

  // The step between samples i and i + 1 of a batch, which begins with the last sample of the batch before.
  function StrideAt(v: seq<Imu>, i: nat, begin: real, end: real): Stride
    requires i + 1 < |v|
  {
    if v[i].stamp < begin then Stride(v[i + 1].stamp - begin, v[i + 1].stamp - begin)
    else if i != |v| - 2 then Stride(v[i + 1].stamp - v[i].stamp, v[i + 1].stamp - begin)
    else Stride(end - v[i].stamp, end - begin)
  }

  // The steps between the first n + 1 samples; pairs that end before the start are skipped.
  function Strides(v: seq<Imu>, n: nat, begin: real, end: real): seq<Stride>
    requires n < |v| || n == 0
  {
    if n == 0 then []
    else Strides(v, n - 1, begin, end) + if v[n].stamp < begin then [] else [StrideAt(v, n - 1, begin, end)]
  }

  function AllStrides(v: seq<Imu>, begin: real, end: real): seq<Stride>
    requires v != []
  {
    Strides(v, |v| - 1, begin, end)
  }

  function TotalTime(s: seq<Stride>): real {
    if s == [] then 0.0 else TotalTime(s[..|s| - 1]) + s[|s| - 1].dt
  }

  // The last sample is at or before the start, all others are inside the interval and in order.
  ghost predicate Covers(v: seq<Imu>, begin: real, end: real) {
    && v != [] && v[0].stamp <= begin < end && Ordered(v)
    && forall i :: 1 <= i < |v| ==> begin < v[i].stamp <= end
  }

  // No pair is skipped, so there is one step for each.
  lemma {:induction false} StridesAre(v: seq<Imu>, n: nat, begin: real, end: real, k: nat)
    requires Covers(v, begin, end) && k < n < |v|
    ensures |Strides(v, n, begin, end)| == n && Strides(v, n, begin, end)[k] == StrideAt(v, k, begin, end)
  {
    assert v[n].stamp > begin;
    if n > 1 {
      StridesAre(v, n - 1, begin, end, if k < n - 1 then k else 0);
    }
  }

  // Where the first n steps end.
  function Reach(v: seq<Imu>, n: nat, begin: real, end: real): real
    requires 0 < n < |v|
  {
    if n < |v| - 1 || v[n - 1].stamp < begin then v[n].stamp else end
  }

  lemma {:induction false} StridesReach(v: seq<Imu>, n: nat, begin: real, end: real)
    requires Covers(v, begin, end) && 0 < n < |v|
    ensures TotalTime(Strides(v, n, begin, end)) == Reach(v, n, begin, end) - begin
  {
    assert v[n].stamp > begin;
    var s := Strides(v, n, begin, end);
    assert s[..|s| - 1] == Strides(v, n - 1, begin, end);
    if n > 1 {
      StridesReach(v, n - 1, begin, end);
      assert v[n - 1].stamp > begin;
    }
  }

  // The steps account for the whole interval exactly when two samples lie in it, or one that makes up for it.
  lemma StepsFillInterval(v: seq<Imu>, begin: real, end: real)
    requires Covers(v, begin, end)
    ensures TotalTime(AllStrides(v, begin, end)) == end - begin
            <==> |v| >= 3 || (|v| == 2 && (v[0].stamp == begin || v[1].stamp == end))
  {
    if |v| > 1 {
      StridesReach(v, |v| - 1, begin, end);
    }
  }

  // One sample in the interval, with the start after the last batch and the end after the sample: the time
  // from the sample to the end is left out.
  lemma OneSampleIsNotEnough()
    ensures var v := [Imu(1.0, [], []), Imu(3.0, [], [])];
            Covers(v, 2.0, 4.0) && TotalTime(AllStrides(v, 2.0, 4.0)) == 1.0
  {
    var v := [Imu(1.0, [], []), Imu(3.0, [], [])];
    StridesReach(v, 1, 2.0, 4.0);
  }

  // The time at which step j ends.
  function EndOf(v: seq<Imu>, j: nat, begin: real, end: real): real
    requires j + 1 < |v|
  {
    if j == |v| - 2 && v[j].stamp >= begin then end else v[j + 1].stamp
  }

  lemma StrideEnds(v: seq<Imu>, j: nat, begin: real, end: real)
    requires Covers(v, begin, end) && j + 1 < |v|
    ensures StrideAt(v, j, begin, end).offset == EndOf(v, j, begin, end) - begin
    ensures begin < EndOf(v, j, begin, end) <= end
    ensures StrideAt(v, j, begin, end).dt > 0.0 <==> v[j].stamp < EndOf(v, j, begin, end)
    ensures StrideAt(v, j, begin, end).dt >= 0.0
  {
    assert v[j].stamp <= v[j + 1].stamp && begin < v[j + 1].stamp <= end;
  }

  // Poses are saved at offsets that never go back, after the one at offset 0, and no step goes back. A step
  // moves forward, and a later pose has a later offset, exactly when the samples behind them have later stamps.
  lemma OffsetsIncrease(v: seq<Imu>, begin: real, end: real, i: nat, j: nat)
    requires Covers(v, begin, end) && i < j < |v| - 1
    ensures var s := AllStrides(v, begin, end);
            && |s| == |v| - 1
            && 0.0 < s[i].offset <= s[j].offset <= end - begin && s[i].dt >= 0.0
            && (s[j].dt > 0.0 <==> v[j].stamp < EndOf(v, j, begin, end))
            && (s[i].offset < s[j].offset <==> v[i + 1].stamp < EndOf(v, j, begin, end))
  {
    StridesAre(v, |v| - 1, begin, end, i);
    StridesAre(v, |v| - 1, begin, end, j);
    StrideEnds(v, i, begin, end);
    StrideEnds(v, j, begin, end);
    assert v[i + 1].stamp <= v[j + 1].stamp <= end;
  }

  // One turn of the loop.
  lemma OneMoreStride(v: seq<Imu>, i: nat, begin: real, end: real)
    requires i + 1 < |v|
    ensures var done, next := Strides(v, i, begin, end), Strides(v, i + 1, begin, end);
            if v[i + 1].stamp < begin then next == done
            else next == done + [StrideAt(v, i, begin, end)]
                 && TotalTime(next) == TotalTime(done) + StrideAt(v, i, begin, end).dt
  {
    var next := Strides(v, i + 1, begin, end);
    if v[i + 1].stamp >= begin {
      assert next[..|next| - 1] == Strides(v, i, begin, end);
    }
  }

  ghost predicate AreOffsets(offsets: seq<real>, s: seq<Stride>) {
    |offsets| == |s| && forall k :: 0 <= k < |s| ==> offsets[k] == s[k].offset
  }

  // The loop of the propagation over time alone: the sum of the steps and the offsets of the saved poses.
  method Propagate(v: seq<Imu>, begin: real, end: real) returns (total: real, offsets: seq<real>)
    requires v != []
    ensures total == TotalTime(AllStrides(v, begin, end)) && AreOffsets(offsets, AllStrides(v, begin, end))
  {
    total, offsets := 0.0, [];
    var i := 0;
    while i < |v| - 1
      invariant 0 <= i <= |v| - 1 && total == TotalTime(Strides(v, i, begin, end))
      invariant AreOffsets(offsets, Strides(v, i, begin, end))
    {
      OneMoreStride(v, i, begin, end);
      if !(v[i + 1].stamp < begin) {
        var dt, offset := StepLength(v, i, begin, end);
        total, offsets := total + dt, offsets + [offset];
      }
      i := i + 1;
    }
  }

  // The three cases of one step.
  method StepLength(v: seq<Imu>, i: nat, begin: real, end: real) returns (dt: real, offset: real)
    requires i + 1 < |v|
    ensures Stride(dt, offset) == StrideAt(v, i, begin, end)
  {
    if v[i].stamp < begin {
      dt, offset := v[i + 1].stamp - begin, v[i + 1].stamp - begin;
    } else if i != |v| - 2 {
      dt, offset := v[i + 1].stamp - v[i].stamp, v[i + 1].stamp - begin;
    } else {
      dt, offset := end - v[i].stamp, end - begin;
    }
  }
}
