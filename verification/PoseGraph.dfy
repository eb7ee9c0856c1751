// The bookkeeping of the global pose graph: five arrays with one entry per keyframe, the factors between them,
// and the loop edges.
module PoseGraph {
  import opened Basics
  import opened ScanCloud
  import opened LoopCandidates
  import K = KeyframeQueue
  import R = RtkQueue

  datatype Factor =
    | Prior(node: nat)
    | Odometry(node: nat, next: nat)
    | Antenna(node: nat, fix: R.Observation)
    | Velocity(node: nat, next: nat, dt: real)
    | Heading(node: nat)
    | Loop(node: nat, next: nat)

  // The registration that confirms a loop is a parameter: the old cloud and pose, and the new keyframe.
  datatype Settings = Settings(
    gates: K.Gates, search: Search, tolerance: real, gpsEnabled: bool, loopEnabled: bool,
    verify: (seq<Polar>, K.Pose, K.Keyframe) -> bool)

  datatype Graph = Graph(
    poses: seq<K.Pose>, clouds: seq<seq<Polar>>, stamps: seq<real>, rtk: seq<Option<R.Observation>>,
    contexts: seq<Entry>, factors: seq<Factor>, loopEdges: seq<(nat, nat)>)

  const EMPTY := Graph([], [], [], [], [], [], [])

  const MIN_INTERVAL: real := 0.02

  ghost predicate SameLength(g: Graph) {
    |g.poses| == |g.clouds| == |g.stamps| == |g.rtk| == |g.contexts|
  }

  predicate ShouldCreate(s: Settings, g: Graph, k: K.Keyframe)
    requires |g.poses| == |g.stamps|
  {
    g.poses == [] || s.gates.Apart(g.poses[|g.poses| - 1], g.stamps[|g.poses| - 1], k.pose, k.stamp)
  }

  // ---------------------------------------------------------------- one new node

  function RtkFactors(g: Graph, k: K.Keyframe, o: R.Observation): seq<Factor>
    requires SameLength(g)
  {
    var n := |g.poses|;
    [Antenna(n, o)]
    + (if n > 0 && o.velocityValid && g.rtk[n - 1].Some? && g.rtk[n - 1].value.velocityValid
          && k.stamp - g.stamps[n - 1] > MIN_INTERVAL
       then [Velocity(n - 1, n, k.stamp - g.stamps[n - 1])] else [])
    + (if o.headingValid then [Heading(n)] else [])
  }

  function NewFactors(g: Graph, k: K.Keyframe, found: Option<R.Observation>, loop: Option<nat>): seq<Factor>
    requires SameLength(g)
  {
    var n := |g.poses|;
    [if n == 0 then Prior(0) else Odometry(n - 1, n)]
    + (if found.Some? then RtkFactors(g, k, found.value) else [])
    + (if loop.Some? then [Loop(loop.value, n)] else [])
  }

  function Grown(s: Settings, g: Graph, k: K.Keyframe, found: Option<R.Observation>, loop: Option<nat>): Graph
    requires s.search.grid.Valid() && SameLength(g)
  {
    Graph(g.poses + [k.pose], g.clouds + [k.points], g.stamps + [k.stamp], g.rtk + [found],
          g.contexts + [EntryOf(s.search.grid, k.points)], g.factors + NewFactors(g, k, found, loop),
          g.loopEdges + if loop.Some? then [(loop.value, |g.poses|)] else [])
  }

  // When a loop is closed, and with which frame; and when it is not.
  ghost predicate LoopDecision(s: Settings, g: Graph, k: K.Keyframe, loop: Option<nat>)
    requires s.search.grid.Valid() && SameLength(g)
  {
    var query := EntryOf(s.search.grid, k.points);
    match loop
    case Some(c) =>
      s.loopEnabled && Proposed(s.search, |g.contexts|, g.contexts, query, c) &&
        NearEnough(s.search, query, g.contexts[c])
      && s.verify(g.clouds[c], g.poses[c], k)
    case None =>
      !s.loopEnabled || !EnoughFrames(s.search, |g.contexts|, g.contexts)
      || exists c: nat :: Proposed(s.search, |g.contexts|, g.contexts, query, c)
           && !(NearEnough(s.search, query, g.contexts[c]) && s.verify(g.clouds[c], g.poses[c], k))
  }

  ghost predicate RtkDecision(s: Settings, queue: R.Queue, k: K.Keyframe, found: Option<R.Observation>, rest: R.Queue) {
    if s.gpsEnabled then R.BackendMatch(queue, k.stamp, s.tolerance, R.Match(rest, found))
    else found == None && rest == queue
  }

  // What the search reports, confirmed or not by the registration, is the decision.
  lemma SearchDecides(s: Settings, g: Graph, k: K.Keyframe, found: bool, c: nat, loop: Option<nat>)
    requires s.search.grid.Valid() && SameLength(g) && s.loopEnabled
    requires !EnoughFrames(s.search, |g.contexts|, g.contexts) ==> !found
    requires EnoughFrames(s.search, |g.contexts|, g.contexts) ==>
               && Proposed(s.search, |g.contexts|, g.contexts, EntryOf(s.search.grid, k.points), c)
               && (found <==> NearEnough(s.search, EntryOf(s.search.grid, k.points), g.contexts[c]))
    requires loop == if found && s.verify(g.clouds[c], g.poses[c], k) then Some(c) else None
    ensures LoopDecision(s, g, k, loop)
  {
  }

  // ---------------------------------------------------------------- what every graph keeps

  // The keyframe a node was made of.
  function NodeFrame(g: Graph, i: nat): K.Keyframe
    requires SameLength(g) && i < |g.poses|
  {
    K.Keyframe(g.stamps[i], g.poses[i], g.clouds[i])
  }

  ghost predicate FactorFits(s: Settings, g: Graph, f: Factor)
    requires SameLength(g)
  {
    match f
    case Prior(i) => i == 0 < |g.poses|
    case Odometry(i, j) => j == i + 1 < |g.poses|
    case Antenna(i, o) => i < |g.poses| && g.rtk[i] == Some(o)
    case Velocity(i, j, dt) =>
      && j == i + 1 < |g.poses| && dt == g.stamps[j] - g.stamps[i] > MIN_INTERVAL
      && g.rtk[i].Some? && g.rtk[j].Some? && g.rtk[i].value.velocityValid && g.rtk[j].value.velocityValid
    case Heading(i) => i < |g.poses| && g.rtk[i].Some? && g.rtk[i].value.headingValid
    case Loop(c, i) =>
      && s.loopEnabled && c + s.search.excludeRecent < i < |g.poses|
      && Proposed(s.search, i, g.contexts[..i], g.contexts[i], c) && NearEnough(s.search, g.contexts[i], g.contexts[c])
      && s.verify(g.clouds[c], g.poses[c], NodeFrame(g, i))
  }

  // But for the loops, the factors are just those that nodes and fixes call for: the first node is tied to the ground,
  // every other one to its predecessor, every fix has its position factor, and velocities and headings have theirs
  // where valid.
  ghost predicate AllDue(s: Settings, g: Graph)
    requires SameLength(g)
  {
    forall f: Factor {:trigger FactorFits(s, g, f)} {:trigger f in g.factors} ::
      !f.Loop? ==> (f in g.factors <==> FactorFits(s, g, f))
  }

  ghost predicate AllOnce(factors: seq<Factor>) {
    forall i, j :: 0 <= i < j < |factors| ==> factors[i] != factors[j]
  }

  // Nothing was to be closed at node i: there was no frame old enough, or the search could propose one that was too far
  // or that the registration refused.
  ghost predicate NothingToClose(s: Settings, g: Graph, i: nat)
    requires SameLength(g) && i < |g.poses|
  {
    || !s.loopEnabled || !EnoughFrames(s.search, i, g.contexts[..i])
    || exists c: nat ::
         && Proposed(s.search, i, g.contexts[..i], g.contexts[i], c)
         && !(NearEnough(s.search, g.contexts[i], g.contexts[c]) && s.verify(g.clouds[c], g.poses[c], NodeFrame(g, i)))
  }

  // No loop was missed.
  ghost predicate AllClosed(s: Settings, g: Graph)
    requires SameLength(g)
  {
    forall i: nat :: i < |g.poses| ==> NothingToClose(s, g, i) || exists c: nat :: Loop(c, i) in g.factors
  }

  ghost predicate Inv(s: Settings, g: Graph) {
    && SameLength(g) && s.search.Valid() && s.search.FitsAll(g.contexts)
    && (forall f :: f in g.factors ==> FactorFits(s, g, f))
    && AllDue(s, g) && AllOnce(g.factors) && AllClosed(s, g)
    && (forall c: nat, i: nat :: (c, i) in g.loopEdges <==> Loop(c, i) in g.factors)
    && (forall i :: 0 <= i < |g.poses| ==> g.contexts[i] == EntryOf(s.search.grid, g.clouds[i]))
    && (forall i, j :: 0 <= i && j == i + 1 < |g.poses| ==>
          s.gates.Apart(g.poses[i], g.stamps[i], g.poses[j], g.stamps[j]))
  }

  // The nodes of g are the first nodes of h.
  ghost predicate Extends(h: Graph, g: Graph)
    requires SameLength(g) && SameLength(h)
  {
    && |g.poses| <= |h.poses| && h.poses[..|g.poses|] == g.poses && h.clouds[..|g.poses|] == g.clouds
    && h.stamps[..|g.poses|] == g.stamps && h.rtk[..|g.poses|] == g.rtk && h.contexts[..|g.poses|] == g.contexts
  }

  lemma SameNodes(h: Graph, g: Graph, i: nat)
    requires SameLength(g) && SameLength(h) && Extends(h, g) && i < |g.poses|
    ensures NodeFrame(h, i) == NodeFrame(g, i) && h.clouds[i] == g.clouds[i] && h.poses[i] == g.poses[i]
  {
    assert h.poses[i] == h.poses[..|g.poses|][i] && h.clouds[i] == h.clouds[..|g.poses|][i];
    assert h.stamps[i] == h.stamps[..|g.poses|][i];
  }

  lemma FactorStillFits(s: Settings, g: Graph, h: Graph, f: Factor)
    requires SameLength(g) && SameLength(h) && |g.poses| <= |h.poses| && FactorFits(s, g, f)
    requires Extends(h, g)
    ensures FactorFits(s, h, f)
  {
    if f.Loop? {
      SameNodes(h, g, f.node);
      SameNodes(h, g, f.next);
      assert h.contexts[..f.next] == g.contexts[..f.next] && h.contexts[f.next] == g.contexts[f.next];
    }
    if f.Velocity? {
      assert h.rtk[f.node] == g.rtk[f.node] && h.rtk[f.next] == g.rtk[f.next];
      assert h.stamps[f.node] == g.stamps[f.node] && h.stamps[f.next] == g.stamps[f.next];
    }
    if f.Antenna? || f.Heading? {
      assert h.rtk[f.node] == g.rtk[f.node];
    }
  }

  lemma LoopFactorFits(s: Settings, g: Graph, k: K.Keyframe, found: Option<R.Observation>, c: nat)
    requires s.search.Valid() && SameLength(g) && LoopDecision(s, g, k, Some(c))
    ensures FactorFits(s, Grown(s, g, k, found, Some(c)), Loop(c, |g.poses|))
  {
    var h, n := Grown(s, g, k, found, Some(c)), |g.poses|;
    assert h.contexts[..n] == g.contexts && h.contexts[n] == EntryOf(s.search.grid, k.points);
    assert NodeFrame(h, n) == k && h.clouds[c] == g.clouds[c] && h.poses[c] == g.poses[c];
  }

  lemma RtkFactorsFit(s: Settings, g: Graph, k: K.Keyframe, o: R.Observation, loop: Option<nat>, f: Factor)
    requires s.search.Valid() && SameLength(g) && f in RtkFactors(g, k, o)
    ensures FactorFits(s, Grown(s, g, k, Some(o), loop), f)
  {
  }

  lemma NewFactorsFit(s: Settings, g: Graph, k: K.Keyframe, found: Option<R.Observation>, loop: Option<nat>, f: Factor)
    requires s.search.Valid() && SameLength(g) && LoopDecision(s, g, k, loop) && f in NewFactors(g, k, found, loop)
    ensures FactorFits(s, Grown(s, g, k, found, loop), f)
  {
    if loop.Some? && f == Loop(loop.value, |g.poses|) {
      LoopFactorFits(s, g, k, found, loop.value);
    } else if found.Some? && f in RtkFactors(g, k, found.value) {
      RtkFactorsFit(s, g, k, found.value, loop, f);
    }
  }

  lemma EntryFits(s: Search, points: seq<Polar>)
    requires s.Valid()
    ensures s.Fits(EntryOf(s.grid, points))
  {
  }

  lemma GrownExtends(s: Settings, g: Graph, k: K.Keyframe, found: Option<R.Observation>, loop: Option<nat>)
    requires s.search.grid.Valid() && SameLength(g)
    ensures Extends(Grown(s, g, k, found, loop), g)
  {
  }

  lemma GrownFactorsFit(s: Settings, g: Graph, k: K.Keyframe, found: Option<R.Observation>, loop: Option<nat>)
    requires Inv(s, g) && LoopDecision(s, g, k, loop)
    ensures var h := Grown(s, g, k, found, loop); forall f :: f in h.factors ==> FactorFits(s, h, f)
  {
    var h, n := Grown(s, g, k, found, loop), |g.poses|;
    forall f | f in h.factors ensures FactorFits(s, h, f) {
      if f in g.factors {
        GrownExtends(s, g, k, found, loop);
        FactorStillFits(s, g, h, f);
      } else {
        NewFactorsFit(s, g, k, found, loop, f);
      }
    }
  }

  // What a factor of the grown graph says of the one before.
  lemma OldFactorFitted(s: Settings, g: Graph, h: Graph, f: Factor)
    requires SameLength(g) && SameLength(h) && |g.poses| <= |h.poses| && FactorFits(s, h, f) && !f.Loop?
    requires h.stamps[..|g.poses|] == g.stamps && h.rtk[..|g.poses|] == g.rtk && Latest(f) < |g.poses|
    ensures FactorFits(s, g, f)
  {
    if f.Velocity? {
      assert h.rtk[f.node] == g.rtk[f.node] && h.rtk[f.next] == g.rtk[f.next];
      assert h.stamps[f.node] == g.stamps[f.node] && h.stamps[f.next] == g.stamps[f.next];
    }
    if f.Antenna? || f.Heading? {
      assert h.rtk[f.node] == g.rtk[f.node];
    }
  }

  // The latest node a factor speaks of.
  function Latest(f: Factor): nat {
    if f.Odometry? || f.Velocity? || f.Loop? then f.next else f.node
  }

  lemma FitsBelow(s: Settings, g: Graph, f: Factor)
    requires SameLength(g) && FactorFits(s, g, f)
    ensures Latest(f) < |g.poses|
  {
  }

  // The factors that speak of the new node are just the new ones.
  lemma NewFactorsAreDue(s: Settings, g: Graph, k: K.Keyframe, found: Option<R.Observation>, loop: Option<nat>,
                         f: Factor)
    requires s.search.Valid() && SameLength(g) && !f.Loop? && Latest(f) == |g.poses|
    requires FactorFits(s, Grown(s, g, k, found, loop), f)
    ensures f in NewFactors(g, k, found, loop)
  {
    var all := NewFactors(g, k, found, loop);
    match f
    case Prior(i) => assert all[0] == f;
    case Odometry(i, j) => assert all[0] == f;
    case Antenna(i, o) => RtkFactorsAre(g, k, o, f, all, loop);
    case Velocity(i, j, dt) => RtkFactorsAre(g, k, found.value, f, all, loop);
    case Heading(i) => RtkFactorsAre(g, k, found.value, f, all, loop);
  }

  lemma RtkFactorsAre(g: Graph, k: K.Keyframe, o: R.Observation, f: Factor, all: seq<Factor>, loop: Option<nat>)
    requires SameLength(g) && all == NewFactors(g, k, Some(o), loop)
    ensures f in RtkFactors(g, k, o) ==> f in all
    ensures var n := |g.poses|;
            && Antenna(n, o) in RtkFactors(g, k, o)
            && (o.headingValid <==> Heading(n) in RtkFactors(g, k, o))
            && (n > 0 ==>
                  (Velocity(n - 1, n, k.stamp - g.stamps[n - 1]) in RtkFactors(g, k, o) <==>
                   o.velocityValid && g.rtk[n - 1].Some? && g.rtk[n - 1].value.velocityValid &&
                   k.stamp - g.stamps[n - 1] > MIN_INTERVAL))
  {
    var rtk, n := RtkFactors(g, k, o), |g.poses|;
    assert rtk[0] == Antenna(n, o);
    if o.headingValid {
      assert rtk[|rtk| - 1] == Heading(n);
    }
    if n > 0 && o.velocityValid && g.rtk[n - 1].Some? && g.rtk[n - 1].value.velocityValid &&
       k.stamp - g.stamps[n - 1] > MIN_INTERVAL
    {
      assert rtk[1] == Velocity(n - 1, n, k.stamp - g.stamps[n - 1]);
    }
    if f in rtk {
      var i :| 0 <= i < |rtk| && rtk[i] == f;
      assert all[1 + i] == f;
    }
  }

  lemma GrownAllDue(s: Settings, g: Graph, k: K.Keyframe, found: Option<R.Observation>, loop: Option<nat>)
    requires Inv(s, g) && LoopDecision(s, g, k, loop)
    ensures AllDue(s, Grown(s, g, k, found, loop))
  {
    var h, n := Grown(s, g, k, found, loop), |g.poses|;
    GrownFactorsFit(s, g, k, found, loop);
    forall f: Factor {:trigger FactorFits(s, h, f)} | !f.Loop? && FactorFits(s, h, f) ensures f in h.factors {
      FitsBelow(s, h, f);
      if Latest(f) < n {
        assert h.stamps[..n] == g.stamps && h.rtk[..n] == g.rtk;
        OldFactorFitted(s, g, h, f);
      } else {
        NewFactorsAreDue(s, g, k, found, loop, f);
      }
    }
  }

  lemma OnceTogether(a: seq<Factor>, b: seq<Factor>)
    requires AllOnce(a) && AllOnce(b) && forall f :: f in a ==> f !in b
    ensures AllOnce(a + b)
  {
    var all := a + b;
    forall i, j | 0 <= i < j < |all| ensures all[i] != all[j] {
      if i < |a| <= j {
        assert all[i] in a && all[j] in b;
      }
    }
  }

  lemma RtkFactorsOnce(g: Graph, k: K.Keyframe, o: R.Observation)
    requires SameLength(g)
    ensures AllOnce(RtkFactors(g, k, o))
    ensures forall f :: f in RtkFactors(g, k, o) ==>
              Latest(f) == |g.poses| && (f.Antenna? || f.Velocity? || f.Heading?)
  {
  }

  lemma NewFactorsOnce(g: Graph, k: K.Keyframe, found: Option<R.Observation>, loop: Option<nat>)
    requires SameLength(g)
    ensures AllOnce(NewFactors(g, k, found, loop))
    ensures forall f :: f in NewFactors(g, k, found, loop) ==> Latest(f) == |g.poses|
  {
    var n := |g.poses|;
    var first := [if n == 0 then Prior(0) else Odometry(n - 1, n)];
    var rtk := if found.Some? then RtkFactors(g, k, found.value) else [];
    var last := if loop.Some? then [Loop(loop.value, n)] else [];
    if found.Some? {
      RtkFactorsOnce(g, k, found.value);
    }
    OnceTogether(first, rtk);
    OnceTogether(first + rtk, last);
  }

  lemma GrownAllOnce(s: Settings, g: Graph, k: K.Keyframe, found: Option<R.Observation>, loop: Option<nat>)
    requires Inv(s, g)
    ensures AllOnce(Grown(s, g, k, found, loop).factors)
  {
    NewFactorsOnce(g, k, found, loop);
    forall f | f in g.factors ensures f !in NewFactors(g, k, found, loop) {
      FitsBelow(s, g, f);
    }
    OnceTogether(g.factors, NewFactors(g, k, found, loop));
  }

  lemma StillNothingToClose(s: Settings, g: Graph, h: Graph, i: nat)
    requires SameLength(g) && SameLength(h) && Extends(h, g) && i < |g.poses| && NothingToClose(s, g, i)
    ensures NothingToClose(s, h, i)
  {
    assert h.contexts[..i] == g.contexts[..i] && h.contexts[i] == g.contexts[i];
    SameNodes(h, g, i);
    if s.loopEnabled && EnoughFrames(s.search, i, g.contexts[..i]) {
      var c: nat :|
        && Proposed(s.search, i, g.contexts[..i], g.contexts[i], c)
        && !(NearEnough(s.search, g.contexts[i], g.contexts[c]) && s.verify(g.clouds[c], g.poses[c], NodeFrame(g, i)));
      SameNodes(h, g, c);
      assert h.contexts[c] == h.contexts[..|g.poses|][c];
    }
  }

  lemma NothingToCloseHere(s: Settings, g: Graph, k: K.Keyframe, found: Option<R.Observation>)
    requires s.search.Valid() && SameLength(g) && LoopDecision(s, g, k, None)
    ensures NothingToClose(s, Grown(s, g, k, found, None), |g.poses|)
  {
    var h, n := Grown(s, g, k, found, None), |g.poses|;
    assert h.contexts[..n] == g.contexts && NodeFrame(h, n) == k;
    if s.loopEnabled && EnoughFrames(s.search, n, g.contexts) {
      var c: nat :|
        && Proposed(s.search, n, g.contexts, h.contexts[n], c)
        && !(NearEnough(s.search, h.contexts[n], g.contexts[c]) && s.verify(g.clouds[c], g.poses[c], k));
      assert h.contexts[c] == g.contexts[c] && h.clouds[c] == g.clouds[c] && h.poses[c] == g.poses[c];
    }
  }

  lemma GrownAllClosed(s: Settings, g: Graph, k: K.Keyframe, found: Option<R.Observation>, loop: Option<nat>)
    requires Inv(s, g) && LoopDecision(s, g, k, loop)
    ensures AllClosed(s, Grown(s, g, k, found, loop))
  {
    var h := Grown(s, g, k, found, loop);
    forall i: nat | i < |h.poses| ensures NothingToClose(s, h, i) || exists c: nat :: Loop(c, i) in h.factors {
      if i < |g.poses| {
        if NothingToClose(s, g, i) {
          GrownExtends(s, g, k, found, loop);
          StillNothingToClose(s, g, h, i);
        } else {
          var c: nat :| Loop(c, i) in g.factors;
          assert Loop(c, i) in h.factors;
        }
      } else if loop.Some? {
        LastLoop(s, g, k, found, loop.value);
      } else {
        NothingToCloseHere(s, g, k, found);
      }
    }
  }

  lemma LastLoop(s: Settings, g: Graph, k: K.Keyframe, found: Option<R.Observation>, c: nat)
    requires s.search.grid.Valid() && SameLength(g)
    ensures Loop(c, |g.poses|) in Grown(s, g, k, found, Some(c)).factors
  {
    var all := NewFactors(g, k, found, Some(c));
    assert all[|all| - 1] == Loop(c, |g.poses|);
  }

  lemma GrownLoopsAgree(s: Settings, g: Graph, k: K.Keyframe, found: Option<R.Observation>, loop: Option<nat>)
    requires Inv(s, g)
    ensures var h := Grown(s, g, k, found, loop);
            forall c: nat, i: nat :: (c, i) in h.loopEdges <==> Loop(c, i) in h.factors
  {
    var fresh' := NewFactors(g, k, found, loop);
    forall c: nat, i: nat
      ensures Loop(c, i) in fresh' <==> loop == Some(c) && i == |g.poses|
    {
      if loop.Some? {
        assert fresh'[|fresh'| - 1] == Loop(loop.value, |g.poses|);
      }
    }
  }

  // Whatever RTK fix and whatever admissible loop a new keyframe brings, the graph stays as it should be.
  lemma GrownKeepsInv(s: Settings, g: Graph, k: K.Keyframe, found: Option<R.Observation>, loop: Option<nat>)
    requires Inv(s, g) && ShouldCreate(s, g, k) && LoopDecision(s, g, k, loop)
    ensures Inv(s, Grown(s, g, k, found, loop))
  {
    GrownFactorsFit(s, g, k, found, loop);
    GrownAllDue(s, g, k, found, loop);
    GrownAllOnce(s, g, k, found, loop);
    GrownAllClosed(s, g, k, found, loop);
    GrownLoopsAgree(s, g, k, found, loop);
    GrownArraysAgree(s, g, k, found, loop);
  }

  lemma GrownArraysAgree(s: Settings, g: Graph, k: K.Keyframe, found: Option<R.Observation>, loop: Option<nat>)
    requires Inv(s, g) && ShouldCreate(s, g, k)
    ensures var h := Grown(s, g, k, found, loop);
            && s.search.FitsAll(h.contexts)
            && (forall i :: 0 <= i < |h.poses| ==> h.contexts[i] == EntryOf(s.search.grid, h.clouds[i]))
            && (forall i, j :: 0 <= i && j == i + 1 < |h.poses| ==>
                  s.gates.Apart(h.poses[i], h.stamps[i], h.poses[j], h.stamps[j]))
  {
    EntryFits(s.search, k.points);
  }

  // ---------------------------------------------------------------- every run

  ghost predicate Step(s: Settings, g: Graph, k: K.Keyframe, h: Graph)
    requires s.search.grid.Valid() && SameLength(g)
  {
    if !ShouldCreate(s, g, k) then h == g
    else exists found, loop :: LoopDecision(s, g, k, loop) && h == Grown(s, g, k, found, loop)
  }

  ghost predicate Reaches(s: Settings, frames: seq<K.Keyframe>, h: Graph)
    requires s.search.grid.Valid()
    decreases |frames|
  {
    if frames == [] then h == EMPTY
    else exists g :: SameLength(g) && Reaches(s, frames[..|frames| - 1], g) && Step(s, g, frames[|frames| - 1], h)
  }

  lemma StepKeepsInv(s: Settings, g: Graph, k: K.Keyframe, h: Graph)
    requires Inv(s, g) && Step(s, g, k, h)
    ensures Inv(s, h)
  {
    if ShouldCreate(s, g, k) {
      var found, loop :| LoopDecision(s, g, k, loop) && h == Grown(s, g, k, found, loop);
      GrownKeepsInv(s, g, k, found, loop);
    }
  }

  // After any keyframes: equal arrays, a chain from the first node to the last, and every loop edge joins a
  // frame to one more than `excludeRecent` before it, the best of the nearest ring keys at that time.
  lemma {:induction false} EveryGraphIsSound(s: Settings, frames: seq<K.Keyframe>, h: Graph)
    requires s.search.Valid() && Reaches(s, frames, h)
    ensures Inv(s, h)
    decreases |frames|
  {
    if frames != [] {
      var g :| SameLength(g) && Reaches(s, frames[..|frames| - 1], g) && Step(s, g, frames[|frames| - 1], h);
      EveryGraphIsSound(s, frames[..|frames| - 1], g);
      StepKeepsInv(s, g, frames[|frames| - 1], h);
    }
  }

  lemma FactorsAreDue(s: Settings, frames: seq<K.Keyframe>, g: Graph)
    requires s.search.Valid() && Reaches(s, frames, g)
    ensures SameLength(g) && AllDue(s, g) && AllOnce(g.factors)
  {
    EveryGraphIsSound(s, frames, g);
  }

  lemma DueIff(s: Settings, g: Graph, f: Factor)
    requires SameLength(g) && AllDue(s, g) && !f.Loop?
    ensures f in g.factors <==> FactorFits(s, g, f)
  {
  }

  lemma FixFactorsIff(s: Settings, g: Graph, i: nat, o: R.Observation)
    requires SameLength(g) && AllDue(s, g)
    ensures Antenna(i, o) in g.factors <==> i < |g.poses| && g.rtk[i] == Some(o)
    ensures Heading(i) in g.factors <==> i < |g.poses| && g.rtk[i].Some? && g.rtk[i].value.headingValid
  {
    DueIff(s, g, Heading(i));
    DueIff(s, g, Antenna(i, o));
  }

  lemma VelocityIff(s: Settings, g: Graph, i: nat, dt: real)
    requires SameLength(g) && AllDue(s, g)
    ensures Velocity(i, i + 1, dt) in g.factors <==>
            && i + 1 < |g.poses| && g.rtk[i].Some? && g.rtk[i + 1].Some?
            && g.rtk[i].value.velocityValid && g.rtk[i + 1].value.velocityValid
            && dt == g.stamps[i + 1] - g.stamps[i] > 0.02
  {
    DueIff(s, g, Velocity(i, i + 1, dt));
  }

  // So the factors of a node can be told from the fixes: its heading factor is there exactly when its fix has a valid
  // heading, its velocity factor exactly when it and the node before have fixes with valid velocities more than 20 ms
  // apart, its position factor exactly when it has a fix, and each of them once.
  lemma {:induction false} FactorsMatchFixes(s: Settings, frames: seq<K.Keyframe>, g: Graph, i: nat, dt: real,
                                             o: R.Observation)
    requires s.search.Valid() && Reaches(s, frames, g)
    ensures SameLength(g) && AllOnce(g.factors)
    ensures Prior(i) in g.factors <==> i == 0 < |g.poses|
    ensures Odometry(i, i + 1) in g.factors <==> i + 1 < |g.poses|
    ensures Antenna(i, o) in g.factors <==> i < |g.poses| && g.rtk[i] == Some(o)
    ensures Heading(i) in g.factors <==> i < |g.poses| && g.rtk[i].Some? && g.rtk[i].value.headingValid
    ensures Velocity(i, i + 1, dt) in g.factors <==>
            && i + 1 < |g.poses| && g.rtk[i].Some? && g.rtk[i + 1].Some?
            && g.rtk[i].value.velocityValid && g.rtk[i + 1].value.velocityValid
            && dt == g.stamps[i + 1] - g.stamps[i] > 0.02
  {
    FactorsAreDue(s, frames, g);
    DueIff(s, g, Prior(i));
    DueIff(s, g, Odometry(i, i + 1));
    FixFactorsIff(s, g, i, o);
    VelocityIff(s, g, i, dt);
  }

  // ---------------------------------------------------------------- in memory

  class Optimization {
    const settings: Settings
    var localKeyposes: seq<K.Pose>
    var keyframeClouds: seq<seq<Polar>>
    var keyframeStamps: seq<real>
    var keyframeRtk: seq<Option<R.Observation>>
    var scanContextDatabase: seq<Entry>
    var factors: seq<Factor>
    var loopEdges: seq<(nat, nat)>
    var rtkQueue: R.Queue

    function View(): Graph
      reads this
    {
      Graph(localKeyposes, keyframeClouds, keyframeStamps, keyframeRtk, scanContextDatabase, factors, loopEdges)
    }

    ghost predicate Valid()
      reads this
    {
      Inv(settings, View()) && R.Sorted(rtkQueue)
    }

    constructor (settings: Settings)
      requires settings.search.Valid()
      ensures Valid() && View() == EMPTY && this.settings == settings && rtkQueue == []
    {
      this.settings := settings;
      localKeyposes, keyframeClouds, keyframeStamps, keyframeRtk := [], [], [], [];
      scanContextDatabase, factors, loopEdges, rtkQueue := [], [], [], [];
    }

    method MatchRtk(k: K.Keyframe) returns (found: Option<R.Observation>)
      requires Valid()
      modifies this`rtkQueue
      ensures Valid() && RtkDecision(settings, old(rtkQueue), k, found, rtkQueue)
    {
      found := None;
      if settings.gpsEnabled {
        var m := R.FindNearestRtk(rtkQueue, k.stamp, settings.tolerance);
        R.BackendMatchCuts(rtkQueue, k.stamp, settings.tolerance, m);
        rtkQueue := m.rest;
        found := m.best;
      }
    }

    method FindLoop(k: K.Keyframe, entry: Entry) returns (loop: Option<nat>)
      requires Valid() && entry == EntryOf(settings.search.grid, k.points)
      ensures LoopDecision(settings, View(), k, loop)
    {
      loop := None;
      if settings.loopEnabled {
        EntryFits(settings.search, k.points);
        var found, c, distance := DetectLoopCandidate(settings.search, entry, |localKeyposes|, scanContextDatabase);
        if found && settings.verify(keyframeClouds[c], localKeyposes[c], k) {
          loop := Some(c);
        }
        SearchDecides(settings, View(), k, found, c, loop);
      }
    }

    method ProcessKeyframe(k: K.Keyframe) returns (ghost found: Option<R.Observation>, ghost loop: Option<nat>)
      requires Valid() && forall i :: 0 <= i < |k.points| ==> Angular(k.points[i])
      modifies this
      ensures Valid()
      ensures !ShouldCreate(settings, old(View()), k) ==> View() == old(View()) && rtkQueue == old(rtkQueue)
      ensures ShouldCreate(settings, old(View()), k) ==>
                && RtkDecision(settings, old(rtkQueue), k, found, rtkQueue)
                && LoopDecision(settings, old(View()), k, loop)
                && View() == Grown(settings, old(View()), k, found, loop)
    {
      found, loop := None, None;
      if !ShouldCreate(settings, View(), k) {
        return;
      }
      var descriptor := MakeScanContext(settings.search.grid, k.points);
      var entry := Entry(descriptor, RingKey(descriptor, settings.search.grid.rings));
      var fix := MatchRtk(k);
      var edge := FindLoop(k, entry);
      GrownKeepsInv(settings, View(), k, fix, edge);
      found, loop := fix, edge;
      Record(k, entry, fix, edge);
    }

    method Record(k: K.Keyframe, entry: Entry, fix: Option<R.Observation>, edge: Option<nat>)
      requires settings.search.Valid() && SameLength(View()) && entry == EntryOf(settings.search.grid, k.points)
      modifies this
      ensures View() == Grown(settings, old(View()), k, fix, edge) && rtkQueue == old(rtkQueue)
    {
      factors := factors + NewFactors(View(), k, fix, edge);
      if edge.Some? {
        loopEdges := loopEdges + [(edge.value, |localKeyposes|)];
      }
      localKeyposes := localKeyposes + [k.pose];
      keyframeClouds := keyframeClouds + [k.points];
      keyframeStamps := keyframeStamps + [k.stamp];
      keyframeRtk := keyframeRtk + [fix];
      scanContextDatabase := scanContextDatabase + [entry];
    }
  }
}
