// What a graph holds of the keyframes and the observations it was given: its nodes in order, the observations behind
// its position factors, and which of a list of keyframes pass the gates a second time.
module BackendFrames {
  import opened Basics
  import opened PoseGraph
  import K = KeyframeQueue
  import R = RtkQueue

  function UsedBy(found: Option<R.Observation>): seq<R.Observation> {
    if found.Some? then [found.value] else []
  }

  // The observations behind the position factors, in the order of the factors.
  function AntennaFixes(factors: seq<Factor>): seq<R.Observation> {
    if factors == [] then []
    else
      var last := factors[|factors| - 1];
      AntennaFixes(factors[..|factors| - 1]) + if last.Antenna? then [last.fix] else []
  }

  // The keyframes that became nodes, in order.
  function NodeFrames(g: Graph): (r: seq<K.Keyframe>)
    requires SameLength(g)
  {
    seq(|g.poses|, i requires 0 <= i < |g.poses| => NodeFrame(g, i))
  }

  function TakenFrames(fates: seq<K.Fate>): seq<K.Keyframe> {
    if fates == [] then []
    else
      var last := fates[|fates| - 1];
      TakenFrames(fates[..|fates| - 1]) + if last.Taken? then [last.frame] else []
  }

  // Those of the given frames that are apart from the last one kept before.
  function Kept(gates: K.Gates, frames: seq<K.Keyframe>): seq<K.Keyframe> {
    if frames == [] then []
    else
      var before, k := Kept(gates, frames[..|frames| - 1]), frames[|frames| - 1];
      if before == [] || Follows(gates, before[|before| - 1], k) then before + [k] else before
  }

  predicate Follows(gates: K.Gates, j: K.Keyframe, k: K.Keyframe) {
    gates.Apart(j.pose, j.stamp, k.pose, k.stamp)
  }

  lemma {:induction false} FixesConcat(a: seq<Factor>, b: seq<Factor>)
    ensures AntennaFixes(a + b) == AntennaFixes(a) + AntennaFixes(b)
  {
    if b == [] {
      assert a + b == a;
    } else {
      FixesConcat(a, b[..|b| - 1]);
      assert (a + b)[..|a + b| - 1] == a + b[..|b| - 1];
    }
  }

  lemma {:induction false} NoFixes(factors: seq<Factor>)
    requires forall f :: f in factors ==> !f.Antenna?
    ensures AntennaFixes(factors) == []
  {
    if factors != [] {
      NoFixes(factors[..|factors| - 1]);
    }
  }

  lemma RtkFixes(g: Graph, k: K.Keyframe, o: R.Observation)
    requires SameLength(g)
    ensures AntennaFixes(RtkFactors(g, k, o)) == [o]
  {
    var rtk := RtkFactors(g, k, o);
    assert rtk == [rtk[0]] + rtk[1..];
    NoFixes(rtk[1..]);
    assert AntennaFixes([rtk[0]]) == [o];
    FixesConcat([rtk[0]], rtk[1..]);
  }

  lemma FixesAround(first: seq<Factor>, rtk: seq<Factor>, loops: seq<Factor>)
    requires forall f :: f in first + loops ==> !f.Antenna?
    ensures AntennaFixes(first + rtk + loops) == AntennaFixes(rtk)
  {
    NoFixes(first);
    NoFixes(loops);
    FixesConcat(first, rtk);
    FixesConcat(first + rtk, loops);
  }

  // A new node has one position factor if it has an observation, and none otherwise.
  lemma NewFixes(g: Graph, k: K.Keyframe, found: Option<R.Observation>, loop: Option<nat>)
    requires SameLength(g)
    ensures AntennaFixes(NewFactors(g, k, found, loop)) == UsedBy(found)
  {
    var n := |g.poses|;
    var first := [if n == 0 then Prior(0) else Odometry(n - 1, n)];
    var rtk := if found.Some? then RtkFactors(g, k, found.value) else [];
    var loops := if loop.Some? then [Loop(loop.value, n)] else [];
    FixesAround(first, rtk, loops);
    if found.Some? {
      RtkFixes(g, k, found.value);
    }
  }

  lemma TakenOneMore(fates: seq<K.Fate>, f: K.Fate)
    ensures TakenFrames(fates + [f]) == TakenFrames(fates) + if f.Taken? then [f.frame] else []
  {
    var all := fates + [f];
    assert all[..|all| - 1] == fates && all[|all| - 1] == f;
  }

  lemma KeptOneMore(gates: K.Gates, frames: seq<K.Keyframe>, k: K.Keyframe)
    ensures var before := Kept(gates, frames);
            Kept(gates, frames + [k]) ==
              if before == [] || Follows(gates, before[|before| - 1], k) then before + [k] else before
  {
    var all := frames + [k];
    assert all[..|all| - 1] == frames && all[|all| - 1] == k;
  }

  // A keyframe becomes a node iff it is apart from the last one that did.
  lemma CreatedIffFollows(s: Settings, g: Graph, k: K.Keyframe)
    requires SameLength(g)
    ensures var nodes := NodeFrames(g);
            ShouldCreate(s, g, k) <==> nodes == [] || Follows(s.gates, nodes[|nodes| - 1], k)
  {
  }

  lemma GrownFrames(s: Settings, g: Graph, k: K.Keyframe, found: Option<R.Observation>, loop: Option<nat>)
    requires s.search.grid.Valid() && SameLength(g)
    ensures SameLength(Grown(s, g, k, found, loop)) && NodeFrames(Grown(s, g, k, found, loop)) == NodeFrames(g) + [k]
  {
    var h := Grown(s, g, k, found, loop);
    assert |NodeFrames(h)| == |NodeFrames(g) + [k]|;
    forall i | 0 <= i < |h.poses| ensures NodeFrames(h)[i] == (NodeFrames(g) + [k])[i] {
    }
  }

  // ---------------------------------------------------------------- keyframes taken from the queue

  lemma TurnTakes(b: K.Backlog)
    ensures TakenFrames(K.Worked(b).fates) ==
            TakenFrames(b.fates) + if b.running && b.queue != [] then [b.queue[0]] else []
  {
    if b.running && b.queue != [] {
      TakenOneMore(b.fates, K.Taken(b.queue[0]));
    }
  }

  lemma TurnKeepsBacklog(gates: K.Gates, b: K.Backlog, c: K.Backlog)
    requires gates.Valid() && K.Inv(gates, b) && c == K.Next(gates, b, K.Turn)
    ensures K.Inv(gates, c)
    ensures TakenFrames(c.fates) == TakenFrames(b.fates) + if b.running && b.queue != [] then [b.queue[0]] else []
  {
    K.TurnKeepsInv(gates, b);
    TurnTakes(b);
  }

  lemma OfferTakesNothing(gates: K.Gates, b: K.Backlog, k: K.Keyframe)
    requires gates.Valid()
    ensures TakenFrames(K.Offered(gates, b, k).fates) == TakenFrames(b.fates)
  {
    var c := K.Offered(gates, b, k);
    if c.fates != b.fates && b.queue != [] {
      TakenOneMore(b.fates, K.Dropped(b.queue[0]));
    } else {
      assert b.fates + [] == b.fates;
    }
  }

  // ---------------------------------------------------------------- subsequences

  // `at` says where in `whole` the elements of `part` are, in order.
  ghost predicate Picks(at: seq<nat>, whole: seq<K.Keyframe>, part: seq<K.Keyframe>) {
    && |at| == |part|
    && (forall i :: 0 <= i < |at| ==> at[i] < |whole| && part[i] == whole[at[i]])
    && (forall i, j :: 0 <= i < j < |at| ==> at[i] < at[j])
  }

  ghost predicate Subsequence(part: seq<K.Keyframe>, whole: seq<K.Keyframe>) {
    exists at :: Picks(at, whole, part)
  }

  lemma SubsequenceGrows(part: seq<K.Keyframe>, whole: seq<K.Keyframe>, k: K.Keyframe)
    requires Subsequence(part, whole)
    ensures Subsequence(part, whole + [k]) && Subsequence(part + [k], whole + [k])
  {
    var at: seq<nat> :| Picks(at, whole, part);
    assert Picks(at, whole + [k], part);
    assert Picks(at + [|whole|], whole + [k], part + [k]);
  }

  lemma {:induction false} KeptIsSubsequence(gates: K.Gates, frames: seq<K.Keyframe>)
    ensures Subsequence(Kept(gates, frames), frames)
  {
    if frames == [] {
      assert Picks([], frames, Kept(gates, frames));
    } else {
      var front, k := frames[..|frames| - 1], frames[|frames| - 1];
      KeptIsSubsequence(gates, front);
      SubsequenceGrows(Kept(gates, front), front, k);
      assert front + [k] == frames;
    }
  }

  lemma {:induction false} TakenIsSubsequence(fates: seq<K.Fate>)
    ensures Subsequence(TakenFrames(fates), K.Frames(fates))
  {
    if fates == [] {
      assert Picks([], K.Frames(fates), TakenFrames(fates));
    } else {
      var front, last := fates[..|fates| - 1], fates[|fates| - 1];
      TakenIsSubsequence(front);
      SubsequenceGrows(TakenFrames(front), K.Frames(front), last.frame);
      assert K.Frames(front) + [last.frame] == K.Frames(fates);
      assert TakenFrames(front) + [] == TakenFrames(front);
    }
  }

  lemma SubsequenceOfSubsequence(part: seq<K.Keyframe>, middle: seq<K.Keyframe>, whole: seq<K.Keyframe>,
                                 rest: seq<K.Keyframe>)
    requires Subsequence(part, middle) && Subsequence(middle, whole)
    ensures Subsequence(part, whole + rest)
  {
    var a :| Picks(a, middle, part);
    var b :| Picks(b, whole, middle);
    var at: seq<nat> := seq(|a|, i requires 0 <= i < |a| => b[a[i]]);
    assert Picks(at, whole + rest, part);
  }

  lemma PartIsSubsequence(part: seq<K.Keyframe>, more: seq<K.Keyframe>, whole: seq<K.Keyframe>)
    requires Subsequence(part + more, whole)
    ensures Subsequence(part, whole)
  {
    var at: seq<nat> :| Picks(at, whole, part + more);
    forall i | 0 <= i < |part| ensures part[i] == whole[at[i]] {
      assert (part + more)[i] == part[i];
    }
    assert Picks(at[..|part|], whole, part);
  }

  ghost predicate NeighboursApart(gates: K.Gates, frames: seq<K.Keyframe>) {
    forall i :: 0 <= i < |frames| - 1 ==> Follows(gates, frames[i], frames[i + 1])
  }

  lemma NeighboursOneMore(gates: K.Gates, front: seq<K.Keyframe>, k: K.Keyframe)
    ensures NeighboursApart(gates, front + [k]) <==>
            NeighboursApart(gates, front) && (front == [] || Follows(gates, front[|front| - 1], k))
  {
    var all := front + [k];
    if NeighboursApart(gates, all) {
      forall i | 0 <= i < |front| - 1 ensures Follows(gates, front[i], front[i + 1]) {
        assert Follows(gates, all[i], all[i + 1]);
      }
      if front != [] {
        assert Follows(gates, all[|front| - 1], all[|front| - 1 + 1]);
      }
    } else {
      var i :| 0 <= i < |all| - 1 && !Follows(gates, all[i], all[i + 1]);
      if i < |front| - 1 {
        assert !Follows(gates, front[i], front[i + 1]);
      }
    }
  }

  lemma {:induction false} KeptIsShorter(gates: K.Gates, frames: seq<K.Keyframe>)
    ensures |Kept(gates, frames)| <= |frames|
  {
    if frames != [] {
      KeptIsShorter(gates, frames[..|frames| - 1]);
    }
  }

  // The second check of the gates turns no keyframe away iff each is apart from the one before.
  lemma {:induction false} AllKeptIff(gates: K.Gates, frames: seq<K.Keyframe>)
    ensures Kept(gates, frames) == frames <==> NeighboursApart(gates, frames)
  {
    if frames != [] {
      var front, k := frames[..|frames| - 1], frames[|frames| - 1];
      assert front + [k] == frames;
      AllKeptIff(gates, front);
      KeptIsShorter(gates, front);
      NeighboursOneMore(gates, front, k);
      if Kept(gates, frames) == frames {
        assert Kept(gates, front) + [k] == front + [k];
        assert Kept(gates, front) == (Kept(gates, front) + [k])[..|front|] == front;
      }
    }
  }

  lemma {:induction false} NothingDropped(fates: seq<K.Fate>)
    requires K.DroppedCount(fates) == 0
    ensures TakenFrames(fates) == K.Frames(fates)
  {
    if fates != [] {
      NothingDropped(fates[..|fates| - 1]);
      assert K.Frames(fates[..|fates| - 1]) + [fates[|fates| - 1].frame] == K.Frames(fates);
    }
  }
}
