// The backend as a whole: keyframes are queued by one thread and taken by the worker, RTK observations arrive in
// between, and every taken keyframe may become a node of the graph. The worker holds a lock only while it takes a
// keyframe and while it looks for an observation, so everything else may happen between these and the growth of the
// graph.
module BackendRuns {
  import opened Basics
  import opened ScanCloud
  import opened LoopCandidates
  import opened PoseGraph
  import opened BackendFrames
  import K = KeyframeQueue
  import R = RtkQueue

  const RTK_LIMIT: nat := 10000

  // What the worker is at.
  datatype Work =
    | Idle
    | Popped(frame: K.Keyframe)
    | Matched(frame: K.Keyframe, found: Option<R.Observation>)

  datatype Backend = Backend(backlog: K.Backlog, graph: Graph, history: R.History, work: Work)

  const START := Backend(K.START, EMPTY, R.History([], [], []), Idle)

  datatype Event =
    | Offer(frame: K.Keyframe) | RequestStop | RtkArrives(o: R.Observation)
    | Take | Match | Grow

  function Arrived(h: R.History, o: R.Observation): R.History {
    R.History(R.Newest(R.Inserted(h.queue, o), RTK_LIMIT), h.arrived + [o], h.used)
  }

  // A keyframe is taken off the queue, and worked on if it is apart from the last node.
  function TakenUp(s: Settings, b: Backend): Work
    requires SameLength(b.graph)
  {
    if b.backlog.running && b.backlog.queue != [] && ShouldCreate(s, b.graph, b.backlog.queue[0])
    then Popped(b.backlog.queue[0]) else Idle
  }

  ghost predicate Next(s: Settings, b: Backend, e: Event, c: Backend)
    requires s.gates.Valid() && s.search.grid.Valid() && SameLength(b.graph)
  {
    match e
    case Offer(k) => c == b.(backlog := K.Next(s.gates, b.backlog, K.Offer(k)))
    case RequestStop => c == b.(backlog := K.Next(s.gates, b.backlog, K.RequestStop))
    case RtkArrives(o) => c == b.(history := Arrived(b.history, o))
    case Take =>
      && b.work.Idle?
      && c == b.(backlog := K.Next(s.gates, b.backlog, K.Turn), work := TakenUp(s, b))
    case Match =>
      && b.work.Popped? && c.work.Matched? && c.work.frame == b.work.frame
      && RtkDecision(s, b.history.queue, b.work.frame, c.work.found, c.history.queue)
      && c.history == R.History(c.history.queue, b.history.arrived, b.history.used + UsedBy(c.work.found))
      && c.backlog == b.backlog && c.graph == b.graph
    case Grow =>
      && b.work.Matched? && c.backlog == b.backlog && c.history == b.history && c.work == Idle
      && exists loop ::
           && LoopDecision(s, b.graph, b.work.frame, loop)
           && c.graph == Grown(s, b.graph, b.work.frame, b.work.found, loop)
  }

  ghost predicate IsRun(s: Settings, run: seq<Backend>, events: seq<Event>)
    requires s.gates.Valid() && s.search.grid.Valid()
  {
    && |run| == |events| + 1
    && run[0] == START
    && (forall k :: 0 <= k < |events| ==> SameLength(run[k].graph) && Next(s, run[k], events[k], run[k + 1]))
  }

  // ---------------------------------------------------------------- every run

  // The observation in work, and the keyframe in work.
  function FixInWork(w: Work): seq<R.Observation> {
    if w.Matched? then UsedBy(w.found) else []
  }

  function FrameInWork(w: Work): seq<K.Keyframe> {
    if w.Idle? then [] else [w.frame]
  }

  ghost predicate Sound(s: Settings, b: Backend) {
    && Inv(s, b.graph) && K.Inv(s.gates, b.backlog)
    && FixesAre(b.graph, b.history, b.work)
    && NodesAre(s, b.graph, b.work, TakenFrames(b.backlog.fates))
  }

  // Position factors and work hold the used observations, and these are accounted for.
  ghost predicate FixesAre(g: Graph, h: R.History, w: Work) {
    R.Accounted(h, RTK_LIMIT) && AntennaFixes(g.factors) + FixInWork(w) == h.used
  }

  // Nodes and work hold the taken keyframes that pass the gates a second time.
  ghost predicate NodesAre(s: Settings, g: Graph, w: Work, taken: seq<K.Keyframe>) {
    && SameLength(g) && NodeFrames(g) + FrameInWork(w) == Kept(s.gates, taken)
    && (!w.Idle? ==> ShouldCreate(s, g, w.frame))
  }

  lemma DecisionCuts(s: Settings, queue: R.Queue, k: K.Keyframe, found: Option<R.Observation>, rest: R.Queue)
    requires RtkDecision(s, queue, k, found, rest)
    ensures R.Cuts(queue, R.Match(rest, found))
  {
    if s.gpsEnabled {
      R.BackendMatchCuts(queue, k.stamp, s.tolerance, R.Match(rest, found));
    } else {
      assert rest == queue[0..];
    }
  }

  lemma TakenUpAreNodes(s: Settings, b: Backend, taken: seq<K.Keyframe>, taken': seq<K.Keyframe>)
    requires NodesAre(s, b.graph, Idle, taken)
    requires taken' == taken + if b.backlog.running && b.backlog.queue != [] then [b.backlog.queue[0]] else []
    ensures NodesAre(s, b.graph, TakenUp(s, b), taken')
  {
    assert NodeFrames(b.graph) + [] == NodeFrames(b.graph);
    if b.backlog.running && b.backlog.queue != [] {
      KeptOneMore(s.gates, taken, b.backlog.queue[0]);
      CreatedIffFollows(s, b.graph, b.backlog.queue[0]);
    } else {
      assert taken' == taken;
    }
  }

  lemma TakeIsSound(s: Settings, b: Backend, c: Backend)
    requires s.gates.Valid() && Sound(s, b) && Next(s, b, Take, c)
    ensures Sound(s, c)
  {
    TurnKeepsBacklog(s.gates, b.backlog, c.backlog);
    TakenUpAreNodes(s, b, TakenFrames(b.backlog.fates), TakenFrames(c.backlog.fates));
  }

  lemma MatchIsAccounted(s: Settings, g: Graph, h: R.History, k: K.Keyframe, found: Option<R.Observation>,
                         h': R.History)
    requires FixesAre(g, h, Popped(k)) && RtkDecision(s, h.queue, k, found, h'.queue)
    requires h' == R.History(h'.queue, h.arrived, h.used + UsedBy(found))
    ensures FixesAre(g, h', Matched(k, found))
  {
    DecisionCuts(s, h.queue, k, found, h'.queue);
    R.CutIsAccounted(h, R.Match(h'.queue, found), RTK_LIMIT);
    assert AntennaFixes(g.factors) + [] == h.used;
  }

  lemma MatchIsSound(s: Settings, b: Backend, c: Backend)
    requires s.gates.Valid() && Sound(s, b) && Next(s, b, Match, c)
    ensures Sound(s, c)
  {
    MatchIsAccounted(s, b.graph, b.history, b.work.frame, c.work.found, c.history);
  }

  lemma GrownIsAccounted(s: Settings, g: Graph, h: R.History, k: K.Keyframe, found: Option<R.Observation>,
                         loop: Option<nat>)
    requires s.search.grid.Valid() && SameLength(g) && FixesAre(g, h, Matched(k, found))
    ensures FixesAre(Grown(s, g, k, found, loop), h, Idle)
  {
    FixesConcat(g.factors, NewFactors(g, k, found, loop));
    NewFixes(g, k, found, loop);
    assert AntennaFixes(Grown(s, g, k, found, loop).factors) + [] == h.used;
  }

  lemma GrownAreNodes(s: Settings, g: Graph, k: K.Keyframe, found: Option<R.Observation>, loop: Option<nat>,
                      taken: seq<K.Keyframe>)
    requires s.search.grid.Valid() && NodesAre(s, g, Matched(k, found), taken)
    ensures NodesAre(s, Grown(s, g, k, found, loop), Idle, taken)
  {
    GrownFrames(s, g, k, found, loop);
    assert NodeFrames(Grown(s, g, k, found, loop)) + [] == NodeFrames(g) + [k];
  }

  lemma GrowIsSound(s: Settings, b: Backend, c: Backend)
    requires s.gates.Valid() && Sound(s, b) && Next(s, b, Grow, c)
    ensures Sound(s, c)
  {
    var k, found := b.work.frame, b.work.found;
    var loop :| LoopDecision(s, b.graph, k, loop) && c.graph == Grown(s, b.graph, k, found, loop);
    GrownKeepsInv(s, b.graph, k, found, loop);
    GrownIsAccounted(s, b.graph, b.history, k, found, loop);
    GrownAreNodes(s, b.graph, k, found, loop, TakenFrames(b.backlog.fates));
  }

  lemma OfferIsSound(s: Settings, b: Backend, k: K.Keyframe)
    requires s.gates.Valid() && Sound(s, b)
    ensures Sound(s, b.(backlog := K.Offered(s.gates, b.backlog, k)))
  {
    K.OfferKeepsInv(s.gates, b.backlog, k);
    OfferTakesNothing(s.gates, b.backlog, k);
  }

  lemma ArrivalIsSound(s: Settings, b: Backend, o: R.Observation)
    requires Sound(s, b)
    ensures Sound(s, b.(history := Arrived(b.history, o)))
  {
    R.ArrivalIsAccounted(b.history, o, RTK_LIMIT);
  }

  lemma StepIsSound(s: Settings, b: Backend, e: Event, c: Backend)
    requires s.gates.Valid() && Sound(s, b) && Next(s, b, e, c)
    ensures Sound(s, c)
  {
    match e
    case Offer(k) => OfferIsSound(s, b, k);
    case RequestStop =>
    case RtkArrives(o) => ArrivalIsSound(s, b, o);
    case Take => TakeIsSound(s, b, c);
    case Match => MatchIsSound(s, b, c);
    case Grow => GrowIsSound(s, b, c);
  }

  lemma {:induction false} EveryRunIsSound(s: Settings, run: seq<Backend>, events: seq<Event>, k: nat)
    requires s.gates.Valid() && s.search.Valid() && IsRun(s, run, events) && k < |run|
    ensures Sound(s, run[k])
  {
    if k > 0 {
      EveryRunIsSound(s, run, events, k - 1);
      assert Next(s, run[k - 1], events[k - 1], run[k - 1 + 1]);
      StepIsSound(s, run[k - 1], events[k - 1], run[k]);
    } else {
      StartIsSound(s);
    }
  }

  lemma StartIsSound(s: Settings)
    requires s.gates.Valid() && s.search.Valid()
    ensures Sound(s, START)
  {
  }

  // ---------------------------------------------------------------- observations

  // However keyframes and observations interleave, an observation stands behind no more position factors than it
  // arrived times, and behind none while it is in work or still queued for another match.
  lemma NoFixIsUsedTwice(s: Settings, run: seq<Backend>, events: seq<Event>, k: nat, o: R.Observation)
    requires s.gates.Valid() && s.search.Valid() && IsRun(s, run, events) && k < |run|
    ensures multiset(AntennaFixes(run[k].graph.factors))[o] + multiset(FixInWork(run[k].work))[o]
            + multiset(run[k].history.queue)[o] <= multiset(run[k].history.arrived)[o]
  {
    EveryRunIsSound(s, run, events, k);
    CountedOnce(run[k].graph, run[k].history, run[k].work, o);
  }

  lemma CountedOnce(g: Graph, h: R.History, w: Work, o: R.Observation)
    requires FixesAre(g, h, w)
    ensures multiset(AntennaFixes(g.factors))[o] + multiset(FixInWork(w))[o] + multiset(h.queue)[o] <=
            multiset(h.arrived)[o]
  {
    assert multiset(h.used) == multiset(AntennaFixes(g.factors)) + multiset(FixInWork(w));
    assert (multiset(h.queue) + multiset(h.used))[o] <= multiset(h.arrived)[o];
  }

  lemma {:induction false} HistoryGoesForward(s: Settings, run: seq<Backend>, events: seq<Event>, k: nat)
    requires s.gates.Valid() && s.search.Valid() && IsRun(s, run, events) && k < |run|
    requires R.InOrder(run[k].history.arrived)
    ensures R.Forward(run[k].history)
  {
    if k > 0 {
      EveryRunIsSound(s, run, events, k - 1);
      assert Next(s, run[k - 1], events[k - 1], run[k - 1 + 1]);
      ArrivedBefore(s, run[k - 1], events[k - 1], run[k]);
      HistoryGoesForward(s, run, events, k - 1);
      StepGoesForward(s, run[k - 1], events[k - 1], run[k]);
    }
  }

  lemma ArrivedBefore(s: Settings, b: Backend, e: Event, c: Backend)
    requires s.gates.Valid() && Sound(s, b) && Next(s, b, e, c) && R.InOrder(c.history.arrived)
    ensures R.InOrder(b.history.arrived)
  {
    assert b.history.arrived == c.history.arrived[..|b.history.arrived|];
  }

  lemma StepGoesForward(s: Settings, b: Backend, e: Event, c: Backend)
    requires s.gates.Valid() && Sound(s, b) && Next(s, b, e, c) && R.Forward(b.history) && R.InOrder(c.history.arrived)
    ensures R.Forward(c.history)
  {
    if e.RtkArrives? {
      R.ArrivalMovesForward(b.history, e.o, RTK_LIMIT);
    } else if e.Match? {
      MatchGoesForward(s, b.history, b.work.frame, c.work.found, c.history);
    }
  }

  lemma MatchGoesForward(s: Settings, h: R.History, k: K.Keyframe, found: Option<R.Observation>, h': R.History)
    requires R.Sorted(h.queue) && R.Forward(h) && RtkDecision(s, h.queue, k, found, h'.queue)
    requires h' == R.History(h'.queue, h.arrived, h.used + UsedBy(found))
    ensures R.Forward(h')
  {
    DecisionCuts(s, h.queue, k, found, h'.queue);
    R.CutMovesForward(h, R.Match(h'.queue, found));
  }

  // If observations arrive in time order, the position factors use them in time order.
  lemma FixesGoForward(s: Settings, run: seq<Backend>, events: seq<Event>, k: nat)
    requires s.gates.Valid() && s.search.Valid() && IsRun(s, run, events) && k < |run|
    requires R.InOrder(run[k].history.arrived)
    ensures var fixes := AntennaFixes(run[k].graph.factors);
            forall i, j :: 0 <= i < j < |fixes| ==> fixes[i].stamp <= fixes[j].stamp
  {
    EveryRunIsSound(s, run, events, k);
    HistoryGoesForward(s, run, events, k);
    var fixes, used := AntennaFixes(run[k].graph.factors), run[k].history.used;
    assert fixes == used[..|fixes|];
  }

  // An observation is only ever matched to a keyframe within the tolerance of its time, and none is without a receiver.
  ghost predicate MatchFits(s: Settings, stamp: real, found: Option<R.Observation>) {
    found.Some? ==> s.gpsEnabled && R.Difference(found.value, stamp) <= s.tolerance
  }

  ghost predicate MatchesFit(s: Settings, g: Graph, w: Work)
    requires SameLength(g)
  {
    && (forall i :: 0 <= i < |g.rtk| ==> MatchFits(s, g.stamps[i], g.rtk[i]))
    && (w.Matched? ==> MatchFits(s, w.frame.stamp, w.found))
  }

  lemma DecisionFits(s: Settings, queue: R.Queue, k: K.Keyframe, found: Option<R.Observation>, rest: R.Queue)
    requires RtkDecision(s, queue, k, found, rest)
    ensures MatchFits(s, k.stamp, found)
  {
  }

  lemma StepMatchesFit(s: Settings, b: Backend, e: Event, c: Backend)
    requires s.gates.Valid() && s.search.grid.Valid() && SameLength(b.graph) && Next(s, b, e, c)
    requires MatchesFit(s, b.graph, b.work)
    ensures SameLength(c.graph) && MatchesFit(s, c.graph, c.work)
  {
    if e.Match? {
      DecisionFits(s, b.history.queue, b.work.frame, c.work.found, c.history.queue);
    }
  }

  lemma {:induction false} EveryMatchFits(s: Settings, run: seq<Backend>, events: seq<Event>, k: nat)
    requires s.gates.Valid() && s.search.grid.Valid() && IsRun(s, run, events) && k < |run|
    ensures SameLength(run[k].graph) && MatchesFit(s, run[k].graph, run[k].work)
  {
    if k > 0 {
      EveryMatchFits(s, run, events, k - 1);
      assert Next(s, run[k - 1], events[k - 1], run[k - 1 + 1]);
      StepMatchesFit(s, run[k - 1], events[k - 1], run[k]);
    }
  }

  // ---------------------------------------------------------------- which keyframes become nodes

  // The nodes, and the keyframe that is about to be one.
  function AllNodes(b: Backend): seq<K.Keyframe>
    requires SameLength(b.graph)
  {
    NodeFrames(b.graph) + FrameInWork(b.work)
  }

  // The nodes are taken keyframes in the order they were taken, and so accepted ones in the order they came.
  lemma NodesFollowTheQueue(s: Settings, run: seq<Backend>, events: seq<Event>, k: nat)
    requires s.gates.Valid() && s.search.Valid() && IsRun(s, run, events) && k < |run|
    ensures SameLength(run[k].graph)
    ensures Subsequence(NodeFrames(run[k].graph), TakenFrames(run[k].backlog.fates))
    ensures Subsequence(NodeFrames(run[k].graph), run[k].backlog.accepted)
  {
    EveryRunIsSound(s, run, events, k);
    var b := run[k].backlog;
    KeptIsSubsequence(s.gates, TakenFrames(b.fates));
    PartIsSubsequence(NodeFrames(run[k].graph), FrameInWork(run[k].work), TakenFrames(b.fates));
    TakenIsSubsequence(b.fates);
    SubsequenceOfSubsequence(NodeFrames(run[k].graph), TakenFrames(b.fates), K.Frames(b.fates), b.queue);
  }

  // On every run all keyframes that were taken are nodes, the one in work included, exactly when each is apart from
  // the one taken before it.
  lemma EveryTakenIsNodeIff(s: Settings, run: seq<Backend>, events: seq<Event>, k: nat)
    requires s.gates.Valid() && s.search.Valid() && IsRun(s, run, events) && k < |run|
    ensures SameLength(run[k].graph)
    ensures AllNodes(run[k]) == TakenFrames(run[k].backlog.fates)
            <==> NeighboursApart(s.gates, TakenFrames(run[k].backlog.fates))
  {
    EveryRunIsSound(s, run, events, k);
    AllKeptIff(s.gates, TakenFrames(run[k].backlog.fates));
  }

  lemma AcceptedAreApart(gates: K.Gates, b: K.Backlog)
    requires K.Inv(gates, b)
    ensures NeighboursApart(gates, K.Frames(b.fates))
  {
    var taken := K.Frames(b.fates);
    forall i | 0 <= i < |taken| - 1 ensures Follows(gates, taken[i], taken[i + 1]) {
      assert taken[i] == b.accepted[i] && taken[i + 1] == b.accepted[i + 1];
    }
  }

  // As long as the queue has dropped nothing, they are.
  lemma WithoutDropsEveryTakenIsNode(s: Settings, run: seq<Backend>, events: seq<Event>, k: nat)
    requires s.gates.Valid() && s.search.Valid() && IsRun(s, run, events) && k < |run|
    requires K.DroppedCount(run[k].backlog.fates) == 0
    ensures SameLength(run[k].graph)
    ensures AllNodes(run[k]) == TakenFrames(run[k].backlog.fates)
    ensures AllNodes(run[k]) + run[k].backlog.queue == run[k].backlog.accepted
  {
    EveryRunIsSound(s, run, events, k);
    NothingDropped(run[k].backlog.fates);
    AcceptedAreApart(s.gates, run[k].backlog);
    EveryTakenIsNodeIff(s, run, events, k);
  }

  // ---------------------------------------------------------------- a keyframe that a drop hides

  // a becomes a node; b is accepted, and dropped to make room for c; c is taken.
  function DroppingEvents(a: K.Keyframe, b: K.Keyframe, c: K.Keyframe): seq<Event> {
    [Offer(a), Take, Match, Grow, Offer(b), Offer(c), Take]
  }

  // c is near a, but b between them is apart from both.
  ghost predicate IsDetour(s: Settings, a: K.Keyframe, b: K.Keyframe, c: K.Keyframe) {
    && s.gates.maxPending == 1 && s.search.Valid()
    && |a.points| >= K.MIN_POINTS && |b.points| >= K.MIN_POINTS && |c.points| >= K.MIN_POINTS
    && Follows(s.gates, a, b) && Follows(s.gates, b, c) && !Follows(s.gates, a, c)
  }

  lemma DroppingBacklog(s: Settings, run: seq<Backend>, a: K.Keyframe, b: K.Keyframe, c: K.Keyframe)
    requires IsDetour(s, a, b, c) && IsRun(s, run, DroppingEvents(a, b, c))
    ensures run[4].backlog == K.Backlog([], Some(a), false, true, [a], [K.Taken(a)])
    ensures run[7].backlog == K.Backlog([], Some(c), false, true, [a, b, c], [K.Taken(a), K.Dropped(b), K.Taken(c)])
    ensures run[7].graph == run[4].graph && run[4].work.Idle?
  {
    var es := DroppingEvents(a, b, c);
    assert Next(s, run[0], es[0], run[0 + 1]) && Next(s, run[1], es[1], run[1 + 1]);
    assert run[2].backlog == K.Backlog([], Some(a), false, true, [a], [K.Taken(a)]);
    assert Next(s, run[2], es[2], run[2 + 1]) && Next(s, run[3], es[3], run[3 + 1]);
    assert Next(s, run[4], es[4], run[4 + 1]);
    assert run[5].backlog == K.Backlog([b], Some(b), false, true, [a, b], [K.Taken(a)]);
    assert Next(s, run[5], es[5], run[5 + 1]);
    assert run[6].backlog == K.Backlog([c], Some(c), false, true, [a, b, c], [K.Taken(a), K.Dropped(b)]);
    assert Next(s, run[6], es[6], run[6 + 1]);
  }

  lemma {:induction false} TakenAfterDrop(a: K.Keyframe, b: K.Keyframe, c: K.Keyframe)
    ensures TakenFrames([K.Taken(a)]) == [a]
    ensures TakenFrames([K.Taken(a), K.Dropped(b), K.Taken(c)]) == [a, c]
  {
    var fates := [K.Taken(a), K.Dropped(b), K.Taken(c)];
    assert fates[..2][..1] == [K.Taken(a)] && [K.Taken(a)][..0] == [];
    assert TakenFrames([K.Taken(a)]) == [a];
    assert TakenFrames(fates[..2]) == [a];
  }

  lemma {:induction false} KeptOfTwo(gates: K.Gates, a: K.Keyframe, c: K.Keyframe)
    ensures Kept(gates, [a]) == [a]
    ensures Kept(gates, [a, c]) == if Follows(gates, a, c) then [a, c] else [a]
  {
    assert [a, c][..1] == [a] && [a][..0] == [];
    assert Kept(gates, [a]) == [a];
  }

  // On every run with these events c was accepted and taken, and is no node.
  lemma DropHidesKeyframe(s: Settings, run: seq<Backend>, a: K.Keyframe, b: K.Keyframe, c: K.Keyframe)
    requires IsDetour(s, a, b, c) && IsRun(s, run, DroppingEvents(a, b, c))
    ensures run[7].backlog.accepted == [a, b, c] && TakenFrames(run[7].backlog.fates) == [a, c]
    ensures SameLength(run[7].graph) && NodeFrames(run[7].graph) == [a] && run[7].work.Idle?
  {
    DroppingBacklog(s, run, a, b, c);
    EveryRunIsSound(s, run, DroppingEvents(a, b, c), 4);
    EveryRunIsSound(s, run, DroppingEvents(a, b, c), 7);
    TakenAfterDrop(a, b, c);
    KeptOfTwo(s.gates, a, c);
    assert NodeFrames(run[4].graph) + [] == NodeFrames(run[4].graph);
  }

  // What a step does without satellite positioning and loop closing.
  function Quietly(s: Settings, b: Backend, e: Event): Backend
    requires s.gates.Valid() && s.search.grid.Valid() && SameLength(b.graph)
  {
    match e
    case Offer(k) => b.(backlog := K.Next(s.gates, b.backlog, K.Offer(k)))
    case RequestStop => b.(backlog := K.Next(s.gates, b.backlog, K.RequestStop))
    case RtkArrives(o) => b.(history := Arrived(b.history, o))
    case Take => b.(backlog := K.Next(s.gates, b.backlog, K.Turn), work := TakenUp(s, b))
    case Match => if b.work.Popped? then b.(work := Matched(b.work.frame, None)) else b
    case Grow =>
      if b.work.Matched? then b.(graph := Grown(s, b.graph, b.work.frame, None, None), work := Idle) else b
  }

  // The event can happen.
  predicate Enabled(b: Backend, e: Event) {
    match e
    case Take => b.work.Idle?
    case Match => b.work.Popped?
    case Grow => b.work.Matched? && b.work.found == None
    case _ => true
  }

  lemma QuietStep(s: Settings, b: Backend, e: Event)
    requires s.gates.Valid() && s.search.grid.Valid() && SameLength(b.graph) && Enabled(b, e)
    requires !s.gpsEnabled && !s.loopEnabled
    ensures SameLength(Quietly(s, b, e).graph) && Next(s, b, e, Quietly(s, b, e))
  {
    if e.Match? {
      assert b.history.used + [] == b.history.used;
    } else if e.Grow? {
      assert LoopDecision(s, b.graph, b.work.frame, None);
    }
  }

  // There is such a run.
  lemma DroppingRunExists(s: Settings, a: K.Keyframe, b: K.Keyframe, c: K.Keyframe) returns (run: seq<Backend>)
    requires IsDetour(s, a, b, c) && !s.gpsEnabled && !s.loopEnabled
    ensures IsRun(s, run, DroppingEvents(a, b, c))
  {
    var b0 := START;
    QuietStep(s, b0, Offer(a));
    var b1 := Quietly(s, b0, Offer(a));
    assert b1.backlog.queue == [a];
    QuietStep(s, b1, Take);
    var b2 := Quietly(s, b1, Take);
    QuietStep(s, b2, Match);
    var b3 := Quietly(s, b2, Match);
    QuietStep(s, b3, Grow);
    var b4 := Quietly(s, b3, Grow);
    QuietStep(s, b4, Offer(b));
    var b5 := Quietly(s, b4, Offer(b));
    QuietStep(s, b5, Offer(c));
    var b6 := Quietly(s, b5, Offer(c));
    QuietStep(s, b6, Take);
    run := [b0, b1, b2, b3, b4, b5, b6, Quietly(s, b6, Take)];
  }

  // ---------------------------------------------------------------- in memory

  // The first of the worker's critical sections: take the oldest keyframe, if there is one.
  method TakeUp(buffer: K.KeyframeBuffer, backend: Optimization, ghost h: R.History) returns (work: Work)
    requires buffer.Valid() && backend.Valid() && buffer.running && buffer.gates == backend.settings.gates
    modifies buffer
    ensures buffer.Valid() && backend.Valid()
    ensures Next(backend.settings, Backend(old(buffer.View()), backend.View(), h, Idle), Take,
                 Backend(buffer.View(), backend.View(), h, work))
  {
    work := Idle;
    var input := buffer.BackendTurn();
    if input.Some? && ShouldCreate(backend.settings, backend.View(), input.value) {
      work := Popped(input.value);
    }
  }

  // The second: look for the observation of the keyframe's time.
  method MatchUp(backend: Optimization, work: Work, ghost log: K.Backlog, ghost h: R.History)
    returns (next: Work, ghost h': R.History)
    requires backend.Valid() && work.Popped? && h.queue == backend.rtkQueue && backend.settings.gates.Valid()
    modifies backend`rtkQueue
    ensures backend.Valid() && h'.queue == backend.rtkQueue
    ensures Next(backend.settings, Backend(log, old(backend.View()), h, work), Match,
                 Backend(log, backend.View(), h', next))
  {
    var found := backend.MatchRtk(work.frame);
    next := Matched(work.frame, found);
    h' := R.History(backend.rtkQueue, h.arrived, h.used + UsedBy(found));
  }

  // The rest, on state that is the worker's own: describe the place, look for a loop, and grow the graph.
  method GrowGraph(backend: Optimization, work: Work, ghost log: K.Backlog, ghost h: R.History)
    requires backend.Valid() && work.Matched? && ShouldCreate(backend.settings, backend.View(), work.frame)
    requires backend.settings.gates.Valid() && forall i :: 0 <= i < |work.frame.points| ==>
             Angular(work.frame.points[i])
    modifies backend
    ensures backend.Valid() && backend.rtkQueue == old(backend.rtkQueue)
    ensures Next(backend.settings, Backend(log, old(backend.View()), h, work), Grow,
                 Backend(log, backend.View(), h, Idle))
  {
    var s := backend.settings;
    var descriptor := MakeScanContext(s.search.grid, work.frame.points);
    var entry := Entry(descriptor, RingKey(descriptor, s.search.grid.rings));
    var edge := backend.FindLoop(work.frame, entry);
    GrownKeepsInv(s, backend.View(), work.frame, work.found, edge);
    backend.Record(work.frame, entry, work.found, edge);
  }
}
