// The time-ordered RTK queues of the realtime filter and of the global backend: ordered insertion,
// bounded length, nearest-in-time matching with early exit, and use of each observation at most once.
module RtkQueue {
  import opened Basics
  import opened Matrices

  datatype Observation = Observation(
    stamp: real, position: Vector, positionVariance: Vector, velocity: Vector, velocityVariance: Vector,
    heading: real, headingVariance: real, velocityValid: bool, headingValid: bool)

  type Queue = seq<Observation>

  ghost predicate Sorted(q: Queue) {
    forall i, j :: 0 <= i < j < |q| ==> q[i].stamp <= q[j].stamp
  }

  function Abs(x: real): real {
    if x < 0.0 then -x else x
  }

  function Difference(o: Observation, stamp: real): real {
    Abs(o.stamp - stamp)
  }

  // ---------------------------------------------------------------- insertion

  // The first position from k on whose stamp is greater.
  function UpperBound(q: Queue, stamp: real, k: nat): (r: nat)
    requires k <= |q|
    ensures k <= r <= |q|
    ensures forall i :: k <= i < r ==> q[i].stamp <= stamp
    ensures r < |q| ==> stamp < q[r].stamp
    decreases |q| - k
  {
    if k == |q| || stamp < q[k].stamp then k else UpperBound(q, stamp, k + 1)
  }

  function Inserted(q: Queue, o: Observation): Queue {
    q[..UpperBound(q, o.stamp, 0)] + [o] + q[UpperBound(q, o.stamp, 0)..]
  }

  // Only the newest `limit` observations are kept.
  function Newest(q: Queue, limit: nat): Queue {
    if |q| > limit then q[|q| - limit..] else q
  }

  method Push(q: Queue, o: Observation, limit: nat) returns (r: Queue)
    ensures r == Newest(Inserted(q, o), limit)
  {
    var insertion := UpperBound(q, o.stamp, 0);
    var all := q[..insertion] + [o] + q[insertion..];
    r := DropOldest(all, limit);
  }

  method DropOldest(q: Queue, limit: nat) returns (r: Queue)
    ensures r == Newest(q, limit)
  {
    r := q;
    ghost var dropped := 0;
    while |r| > limit
      invariant 0 <= dropped <= |q| && r == q[dropped..]
      invariant dropped > 0 ==> |r| >= limit
    {
      assert q[dropped..][1..] == q[dropped + 1..];
      r := r[1..];
      dropped := dropped + 1;
    }
  }

  // Order and bound hold however late an observation arrives, and no other observation is lost.
  lemma PushKeepsOrder(q: Queue, o: Observation, limit: nat)
    requires Sorted(q) && |q| <= limit
    ensures Sorted(Newest(Inserted(q, o), limit)) && |Newest(Inserted(q, o), limit)| <= limit
    ensures multiset(Inserted(q, o)) == multiset(q) + multiset{o}
    ensures |q| < limit ==> Newest(Inserted(q, o), limit) == Inserted(q, o)
    ensures |q| == limit ==> Newest(Inserted(q, o), limit) == Inserted(q, o)[1..]
  {
    InsertedIsSorted(q, o);
    assert q == q[..UpperBound(q, o.stamp, 0)] + q[UpperBound(q, o.stamp, 0)..];
  }

  lemma InsertedIsSorted(q: Queue, o: Observation)
    requires Sorted(q)
    ensures Sorted(Inserted(q, o)) && |Inserted(q, o)| == |q| + 1
  {
    var k, r := UpperBound(q, o.stamp, 0), Inserted(q, o);
    forall i, j | 0 <= i < j < |r| ensures r[i].stamp <= r[j].stamp {
      var x, y := if i < k then i else i - 1, if j < k then j else j - 1;
      assert i != k ==> r[i] == q[x];
      assert j != k ==> r[j] == q[y];
      assert i == k ==> q[k].stamp <= q[y].stamp;
    }
  }

  // ---------------------------------------------------------------- nearest observation

  ghost predicate IsNearest(q: Queue, stamp: real, k: nat) {
    k < |q| && forall i :: 0 <= i < |q| ==> Difference(q[k], stamp) <= Difference(q[i], stamp)
  }

  ghost predicate LastNearest(q: Queue, stamp: real, k: nat) {
    IsNearest(q, stamp, k) && forall i :: k < i < |q| ==> Difference(q[k], stamp) < Difference(q[i], stamp)
  }

  ghost predicate FirstNearest(q: Queue, stamp: real, k: nat) {
    IsNearest(q, stamp, k) && forall i :: 0 <= i < k ==> Difference(q[k], stamp) < Difference(q[i], stamp)
  }

  // What a match leaves in the queue, and the observation it uses.
  datatype Match = Match(rest: Queue, best: Option<Observation>)

  // How many observations from the k-th on are older than `bound`, counting those before k too.
  function StaleCount(q: Queue, bound: real, k: nat): (n: nat)
    requires k <= |q|
    ensures k <= n <= |q|
    ensures forall i :: k <= i < n ==> q[i].stamp < bound
    ensures n < |q| ==> q[n].stamp >= bound
    decreases |q| - k
  {
    if k < |q| && q[k].stamp < bound then StaleCount(q, bound, k + 1) else k
  }

  // The observations from the first one on that is not older than `bound`.
  function Fresh(q: Queue, bound: real): Queue {
    q[StaleCount(q, bound, 0)..]
  }

  // ---------------------------------------------------------------- the realtime filter

  // The match the realtime filter is to find: among observations within the tolerance the nearest, the
  // later one on a tie; it and everything before it leave the queue. Without one, only stale
  // observations leave.
  ghost predicate RealtimeMatch(q: Queue, stamp: real, tolerance: real, m: Match) {
    match m.best
    case Some(o) =>
      exists k: nat :: LastNearest(q, stamp, k) && o == q[k] && Difference(o, stamp) <= tolerance &&
        m.rest == q[k + 1..]
    case None =>
      && (forall i :: 0 <= i < |q| ==> Difference(q[i], stamp) > tolerance)
      && m.rest == Fresh(q, stamp - tolerance)
  }

  // There is only one such match.
  lemma RealtimeMatchIsUnique(q: Queue, stamp: real, tolerance: real, m: Match, n: Match)
    requires RealtimeMatch(q, stamp, tolerance, m) && RealtimeMatch(q, stamp, tolerance, n)
    ensures m == n
  {
    if m.best.Some? && n.best.Some? {
      var k: nat :| LastNearest(q, stamp, k) && m.best.value == q[k] && m.rest == q[k + 1..];
      var l: nat :| LastNearest(q, stamp, l) && n.best.value == q[l] && n.rest == q[l + 1..];
      assert k == l;
    }
  }

  method DropStale(q: Queue, bound: real) returns (r: Queue)
    ensures r == Fresh(q, bound)
  {
    r := q;
    ghost var k := 0;
    while r != [] && r[0].stamp < bound
      invariant 0 <= k <= |q| && r == q[k..] && StaleCount(q, bound, k) == StaleCount(q, bound, 0)
    {
      assert q[k..][1..] == q[k + 1..];
      r := r[1..];
      k := k + 1;
    }
  }

  ghost predicate NoneNear(q: Queue, stamp: real, tolerance: real) {
    forall i :: 0 <= i < |q| ==> Difference(q[i], stamp) > tolerance
  }

  lemma FreshIsSorted(q: Queue, bound: real)
    requires Sorted(q)
    ensures Sorted(Fresh(q, bound))
  {
  }

  // The scan over the queue: nothing after the first observation beyond the tolerance is looked at.
  method ScanRealtime(queue: Queue, stamp: real, tolerance: real) returns (best: int)
    requires Sorted(queue)
    ensures -1 <= best < |queue|
    ensures best == -1 ==> NoneNear(queue, stamp, tolerance)
    ensures best >= 0 ==> LastNearest(queue, stamp, best) && Difference(queue[best], stamp) <= tolerance
  {
    best := -1;
    var bestDifference := tolerance;
    var at := 0;
    while at < |queue|
      invariant 0 <= at <= |queue| && -1 <= best < at
      invariant best == -1 ==> bestDifference == tolerance
      invariant best >= 0 ==> bestDifference == Difference(queue[best], stamp) <= tolerance
      invariant forall i :: 0 <= i < at ==> bestDifference <= Difference(queue[i], stamp)
      invariant forall i :: best < i < at ==> bestDifference < Difference(queue[i], stamp)
    {
      var difference := Difference(queue[at], stamp);
      if difference <= bestDifference {
        best := at;
        bestDifference := difference;
      }
      if queue[at].stamp > stamp + tolerance {
        assert forall i :: at <= i < |queue| ==> queue[at].stamp <= queue[i].stamp;
        break;
      }
      at := at + 1;
    }
  }

  // Stale observations are outside the tolerance, so the nearest of the fresh ones is the nearest.
  lemma NearestAmongFresh(q: Queue, stamp: real, tolerance: real, k: nat)
    requires Sorted(q)
    requires LastNearest(Fresh(q, stamp - tolerance), stamp, k)
    requires Difference(Fresh(q, stamp - tolerance)[k], stamp) <= tolerance
    ensures LastNearest(q, stamp, StaleCount(q, stamp - tolerance, 0) + k)
  {
    var f, n := Fresh(q, stamp - tolerance), StaleCount(q, stamp - tolerance, 0);
    forall i | 0 <= i < |q|
      ensures Difference(f[k], stamp) <= Difference(q[i], stamp)
      ensures i > n + k ==> Difference(f[k], stamp) < Difference(q[i], stamp)
    {
      assert i >= n ==> q[i] == f[i - n];
    }
  }

  method MatchRealtime(q: Queue, stamp: real, tolerance: real) returns (m: Match)
    requires Sorted(q)
    ensures RealtimeMatch(q, stamp, tolerance, m)
  {
    var queue := DropStale(q, stamp - tolerance);
    FreshIsSorted(q, stamp - tolerance);
    var best := ScanRealtime(queue, stamp, tolerance);
    if best >= 0 {
      m := Match(queue[best + 1..], Some(queue[best]));
      FoundIsMatch(q, stamp, tolerance, best);
    } else {
      m := Match(queue, None);
      NothingIsMatch(q, stamp, tolerance);
    }
  }

  lemma FoundIsMatch(q: Queue, stamp: real, tolerance: real, k: nat)
    requires Sorted(q) && LastNearest(Fresh(q, stamp - tolerance), stamp, k)
    requires Difference(Fresh(q, stamp - tolerance)[k], stamp) <= tolerance
    ensures var f := Fresh(q, stamp - tolerance); RealtimeMatch(q, stamp, tolerance, Match(f[k + 1..], Some(f[k])))
  {
    NearestAmongFresh(q, stamp, tolerance, k);
    var f, n := Fresh(q, stamp - tolerance), StaleCount(q, stamp - tolerance, 0);
    assert q[n + k] == f[k] && q[n + k + 1..] == f[k + 1..];
  }

  lemma NothingIsMatch(q: Queue, stamp: real, tolerance: real)
    requires NoneNear(Fresh(q, stamp - tolerance), stamp, tolerance)
    ensures RealtimeMatch(q, stamp, tolerance, Match(Fresh(q, stamp - tolerance), None))
  {
    var f, n := Fresh(q, stamp - tolerance), StaleCount(q, stamp - tolerance, 0);
    forall i | 0 <= i < |q| ensures Difference(q[i], stamp) > tolerance {
      assert i >= n ==> q[i] == f[i - n];
    }
  }

  // The scan finds an observation within the tolerance iff the queue holds one.
  lemma RealtimeMatchIsComplete(q: Queue, stamp: real, tolerance: real, m: Match)
    requires Sorted(q) && RealtimeMatch(q, stamp, tolerance, m)
    ensures m.best.Some? <==> exists i :: 0 <= i < |q| && Difference(q[i], stamp) <= tolerance
    ensures m.best.Some? ==> forall i :: 0 <= i < |q| ==> Difference(m.best.value, stamp) <= Difference(q[i], stamp)
  {
    if m.best.Some? {
      var k: nat :| LastNearest(q, stamp, k) && m.best.value == q[k] && Difference(q[k], stamp) <= tolerance;
    }
  }

  // ---------------------------------------------------------------- the backend

  const BACKEND_HORIZON: real := 5.0

  // The match of the backend: observations more than five seconds old leave the queue, and among the
  // others the nearest is used, the earlier one on a tie, if it is within the tolerance.
  ghost predicate BackendMatch(q: Queue, stamp: real, tolerance: real, m: Match) {
    var f := Fresh(q, stamp - BACKEND_HORIZON);
    match m.best
    case Some(o) =>
      exists k: nat :: FirstNearest(f, stamp, k) && o == f[k] && Difference(o, stamp) <= tolerance &&
        m.rest == f[k + 1..]
    case None =>
      m.rest == f && forall i :: 0 <= i < |f| ==> Difference(f[i], stamp) > tolerance
  }

  // The scan: it stops at the first later observation that is no nearer than the best so far.
  method ScanBackend(queue: Queue, stamp: real) returns (best: nat)
    requires Sorted(queue) && queue != []
    ensures FirstNearest(queue, stamp, best)
  {
    best := 0;
    var bestDifference := Difference(queue[0], stamp);
    var at := 1;
    while at < |queue|
      invariant 1 <= at <= |queue| && 0 <= best < at
      invariant bestDifference == Difference(queue[best], stamp)
      invariant forall i :: 0 <= i < at ==> bestDifference <= Difference(queue[i], stamp)
      invariant forall i :: 0 <= i < best ==> bestDifference < Difference(queue[i], stamp)
    {
      var difference := Difference(queue[at], stamp);
      if difference >= bestDifference && queue[at].stamp > stamp {
        assert forall i :: at <= i < |queue| ==> queue[at].stamp <= queue[i].stamp;
        break;
      }
      if difference < bestDifference {
        best := at;
        bestDifference := difference;
      }
      at := at + 1;
    }
  }

  method FindNearestRtk(q: Queue, stamp: real, tolerance: real) returns (m: Match)
    requires Sorted(q)
    ensures BackendMatch(q, stamp, tolerance, m)
  {
    var queue := DropStale(q, stamp - BACKEND_HORIZON);
    if queue == [] {
      return Match(queue, None);
    }
    var best := ScanBackend(queue, stamp);
    if Difference(queue[best], stamp) > tolerance {
      return Match(queue, None);
    }
    m := Match(queue[best + 1..], Some(queue[best]));
  }

  // In a sorted queue exactly the first StaleCount observations are older than the bound.
  lemma FreshByStamp(q: Queue, bound: real, i: nat)
    requires Sorted(q) && i < |q|
    ensures i < StaleCount(q, bound, 0) <==> q[i].stamp < bound
    ensures i >= StaleCount(q, bound, 0) ==> q[i] == Fresh(q, bound)[i - StaleCount(q, bound, 0)]
  {
    var n := StaleCount(q, bound, 0);
    if n <= i {
      assert q[n].stamp <= q[i].stamp;
    }
  }

  lemma NothingUsable(q: Queue, stamp: real, tolerance: real, i: nat)
    requires Sorted(q) && i < |q| && q[i].stamp >= stamp - BACKEND_HORIZON
    requires var f := Fresh(q, stamp - BACKEND_HORIZON);
             forall j :: 0 <= j < |f| ==> Difference(f[j], stamp) > tolerance
    ensures Difference(q[i], stamp) > tolerance
  {
    FreshByStamp(q, stamp - BACKEND_HORIZON, i);
  }

  lemma UsedIsUsable(q: Queue, stamp: real, tolerance: real, m: Match) returns (i: nat)
    requires Sorted(q) && BackendMatch(q, stamp, tolerance, m) && m.best.Some?
    ensures i < |q| && Difference(q[i], stamp) <= tolerance && q[i].stamp >= stamp - BACKEND_HORIZON
  {
    var bound := stamp - BACKEND_HORIZON;
    var f, n := Fresh(q, bound), StaleCount(q, bound, 0);
    var k: nat :| FirstNearest(f, stamp, k) && m.best.value == f[k] && Difference(f[k], stamp) <= tolerance;
    i := n + k;
    FreshByStamp(q, bound, i);
  }

  // Whatever the tolerance: an observation is used iff one is within the tolerance and at most five
  // seconds old.
  lemma BackendMatchIsComplete(q: Queue, stamp: real, tolerance: real, m: Match)
    requires Sorted(q) && BackendMatch(q, stamp, tolerance, m)
    ensures m.best.Some? <==>
            exists i :: 0 <= i < |q| && Difference(q[i], stamp) <= tolerance && q[i].stamp >= stamp - BACKEND_HORIZON
  {
    if m.best.Some? {
      var i := UsedIsUsable(q, stamp, tolerance, m);
    } else {
      forall i | 0 <= i < |q| && q[i].stamp >= stamp - BACKEND_HORIZON ensures Difference(q[i], stamp) > tolerance {
        NothingUsable(q, stamp, tolerance, i);
      }
    }
  }

  // The global answer: an observation is used iff one lies within the tolerance, and it is a nearest of all.
  ghost predicate IsGlobal(q: Queue, stamp: real, tolerance: real, m: Match) {
    && (m.best.Some? <==> exists i :: 0 <= i < |q| && Difference(q[i], stamp) <= tolerance)
    && (m.best.Some? ==> forall i :: 0 <= i < |q| ==> Difference(m.best.value, stamp) <= Difference(q[i], stamp))
  }

  // Some nearest observation is not dropped as too old.
  ghost predicate NearestIsKept(q: Queue, stamp: real) {
    exists k: nat :: IsNearest(q, stamp, k) && q[k].stamp >= stamp - BACKEND_HORIZON
  }

  lemma KeptNearestIsUsed(q: Queue, stamp: real, tolerance: real, m: Match, k: nat, i: nat)
    requires Sorted(q) && BackendMatch(q, stamp, tolerance, m)
    requires IsNearest(q, stamp, k) && q[k].stamp >= stamp - BACKEND_HORIZON
    requires i < |q| && Difference(q[i], stamp) <= tolerance
    ensures m.best.Some? && Difference(m.best.value, stamp) == Difference(q[k], stamp)
  {
    var bound := stamp - BACKEND_HORIZON;
    var f, n := Fresh(q, bound), StaleCount(q, bound, 0);
    FreshByStamp(q, bound, k);
    BackendMatchIsComplete(q, stamp, tolerance, m);
    var l: nat :| FirstNearest(f, stamp, l) && m.best.value == f[l];
    assert f[l] == q[n + l];
    assert Difference(f[l], stamp) <= Difference(f[k - n], stamp);
  }

  lemma UsedNearestIsKept(q: Queue, stamp: real, tolerance: real, m: Match)
    requires Sorted(q) && BackendMatch(q, stamp, tolerance, m) && m.best.Some?
    requires forall i :: 0 <= i < |q| ==> Difference(m.best.value, stamp) <= Difference(q[i], stamp)
    ensures NearestIsKept(q, stamp)
  {
    var bound := stamp - BACKEND_HORIZON;
    var f, n := Fresh(q, bound), StaleCount(q, bound, 0);
    var l: nat :| FirstNearest(f, stamp, l) && m.best.value == f[l];
    FreshByStamp(q, bound, n + l);
    assert IsNearest(q, stamp, n + l);
  }

  lemma KeptIsGlobal(q: Queue, stamp: real, tolerance: real, m: Match, i: nat)
    requires Sorted(q) && BackendMatch(q, stamp, tolerance, m)
    requires NearestIsKept(q, stamp) && i < |q| && Difference(q[i], stamp) <= tolerance
    ensures IsGlobal(q, stamp, tolerance, m)
  {
    var k: nat :| IsNearest(q, stamp, k) && q[k].stamp >= stamp - BACKEND_HORIZON;
    KeptNearestIsUsed(q, stamp, tolerance, m, k, i);
  }

  // Whatever the tolerance, the match is the global answer exactly when nothing lies within the tolerance or
  // some nearest observation is at most five seconds old.
  lemma BackendMatchIsGlobalIff(q: Queue, stamp: real, tolerance: real, m: Match)
    requires Sorted(q) && BackendMatch(q, stamp, tolerance, m)
    ensures IsGlobal(q, stamp, tolerance, m)
            <==> (forall i :: 0 <= i < |q| ==> Difference(q[i], stamp) > tolerance) || NearestIsKept(q, stamp)
  {
    if i :| 0 <= i < |q| && Difference(q[i], stamp) <= tolerance {
      if NearestIsKept(q, stamp) {
        KeptIsGlobal(q, stamp, tolerance, m, i);
      }
      if IsGlobal(q, stamp, tolerance, m) {
        UsedNearestIsKept(q, stamp, tolerance, m);
      }
    } else {
      BackendMatchIsComplete(q, stamp, tolerance, m);
    }
  }

  // In particular it is with a tolerance of at most five seconds.
  lemma BackendMatchIsGlobal(q: Queue, stamp: real, tolerance: real, m: Match)
    requires Sorted(q) && BackendMatch(q, stamp, tolerance, m) && tolerance <= BACKEND_HORIZON
    ensures IsGlobal(q, stamp, tolerance, m)
  {
    BackendMatchIsGlobalIff(q, stamp, tolerance, m);
    if i :| 0 <= i < |q| && Difference(q[i], stamp) <= tolerance {
      var k := SomeNearest(q, stamp);
      assert Difference(q[k], stamp) <= Difference(q[i], stamp);
      assert NearestIsKept(q, stamp);
    }
  }

  lemma {:induction false} SomeNearest(q: Queue, stamp: real) returns (k: nat)
    requires q != []
    ensures IsNearest(q, stamp, k)
  {
    k := 0;
    if |q| > 1 {
      var front := q[..|q| - 1];
      var l := SomeNearest(front, stamp);
      k := if Difference(q[|q| - 1], stamp) < Difference(q[l], stamp) then |q| - 1 else l;
      forall i | 0 <= i < |q| ensures Difference(q[k], stamp) <= Difference(q[i], stamp) {
        assert i < |front| ==> q[i] == front[i] && Difference(front[l], stamp) <= Difference(front[i], stamp);
      }
    }
  }

  // With a larger tolerance it need not be: a six seconds old observation is never used.
  lemma LargerToleranceIsNotHonoured(o: Observation)
    ensures BackendMatch([o], o.stamp + 6.0, 10.0, Match([], None))
    ensures Difference(o, o.stamp + 6.0) <= 10.0
  {
    assert StaleCount([o], o.stamp + 6.0 - BACKEND_HORIZON, 0) == 1;
  }

  // And when one is used it need not be the nearest: of one 5.5 seconds old and one 6 seconds ahead, the
  // second is used.
  lemma NearerOldOneIsPassedOver(a: Observation, b: Observation, stamp: real)
    requires a.stamp == stamp - 5.5 && b.stamp == stamp + 6.0
    ensures BackendMatch([a, b], stamp, 10.0, Match([], Some(b)))
    ensures Difference(a, stamp) < Difference(b, stamp) && !NearestIsKept([a, b], stamp)
  {
    var q, bound := [a, b], stamp - BACKEND_HORIZON;
    assert StaleCount(q, bound, 1) == 1 && StaleCount(q, bound, 0) == 1;
    assert Fresh(q, bound) == [b] && [b][1..] == [];
    assert FirstNearest([b], stamp, 0);
    forall k: nat | IsNearest(q, stamp, k) ensures q[k].stamp < bound {
      assert Difference(q[k], stamp) <= Difference(q[0], stamp);
    }
  }

  // ---------------------------------------------------------------- runs

  // Either matcher cuts a prefix off the queue and may use the last observation of it.
  ghost predicate Cuts(q: Queue, m: Match) {
    exists k: nat :: k <= |q| && m.rest == q[k..] && (m.best.Some? ==> k > 0 && m.best.value == q[k - 1])
  }

  lemma RealtimeMatchCuts(q: Queue, stamp: real, tolerance: real, m: Match)
    requires RealtimeMatch(q, stamp, tolerance, m)
    ensures Cuts(q, m)
  {
    if m.best.Some? {
      var k: nat :| LastNearest(q, stamp, k) && m.best.value == q[k] && m.rest == q[k + 1..];
      assert k + 1 <= |q| && m.rest == q[k + 1..] && m.best.value == q[k + 1 - 1];
    } else {
      assert m.rest == q[StaleCount(q, stamp - tolerance, 0)..];
    }
  }

  lemma TailOfTail(q: Queue, n: nat, k: nat)
    requires n + k < |q|
    ensures q[n..][k + 1..] == q[n + k + 1..] && q[n..][k] == q[n + k + 1 - 1]
  {
  }

  lemma BackendMatchCuts(q: Queue, stamp: real, tolerance: real, m: Match)
    requires BackendMatch(q, stamp, tolerance, m)
    ensures Cuts(q, m)
  {
    var n := StaleCount(q, stamp - BACKEND_HORIZON, 0);
    var f := q[n..];
    if m.best.Some? {
      var k: nat :| FirstNearest(f, stamp, k) && m.best.value == f[k] && m.rest == f[k + 1..];
      TailOfTail(q, n, k);
    } else {
      assert m.rest == q[n..];
    }
  }

  lemma MatchesCut(q: Queue, stamp: real, tolerance: real, m: Match)
    requires RealtimeMatch(q, stamp, tolerance, m) || BackendMatch(q, stamp, tolerance, m)
    ensures Cuts(q, m)
  {
    if RealtimeMatch(q, stamp, tolerance, m) {
      RealtimeMatchCuts(q, stamp, tolerance, m);
    } else {
      BackendMatchCuts(q, stamp, tolerance, m);
    }
  }

  // A history of one queue: arrivals, and matches at frame times.
  datatype Event = Arrival(o: Observation) | Frame(stamp: real)

  datatype History = History(queue: Queue, arrived: seq<Observation>, used: seq<Observation>)

  ghost predicate Next(h: History, e: Event, limit: nat, tolerance: real, h': History) {
    match e
    case Arrival(o) =>
      h' == History(Newest(Inserted(h.queue, o), limit), h.arrived + [o], h.used)
    case Frame(stamp) =>
      exists m ::
        && (RealtimeMatch(h.queue, stamp, tolerance, m) || BackendMatch(h.queue, stamp, tolerance, m))
        && h' == History(m.rest, h.arrived, h.used + if m.best.Some? then [m.best.value] else [])
  }

  ghost predicate IsRun(run: seq<History>, events: seq<Event>, limit: nat, tolerance: real) {
    && |run| == |events| + 1
    && run[0] == History([], [], [])
    && (forall k :: 0 <= k < |events| ==> Next(run[k], events[k], limit, tolerance, run[k + 1]))
  }

  // Each observation is in the queue or used at most as often as it arrived: none is used twice.
  ghost predicate Accounted(h: History, limit: nat) {
    && Sorted(h.queue) && |h.queue| <= limit
    && multiset(h.queue) + multiset(h.used) <= multiset(h.arrived)
  }

  lemma ArrivalIsAccounted(h: History, o: Observation, limit: nat)
    requires Accounted(h, limit)
    ensures Accounted(History(Newest(Inserted(h.queue, o), limit), h.arrived + [o], h.used), limit)
  {
    PushKeepsOrder(h.queue, o, limit);
    var all, kept := Inserted(h.queue, o), Newest(Inserted(h.queue, o), limit);
    assert all == all[..|all| - |kept|] + kept;
    assert multiset(kept) <= multiset(all);
    assert multiset(h.arrived + [o]) == multiset(h.arrived) + multiset{o};
  }

  lemma TailMultiset(q: Queue, k: nat)
    requires k <= |q|
    ensures multiset(q) == multiset(q[..k]) + multiset(q[k..])
    ensures k > 0 ==> multiset{q[k - 1]} <= multiset(q[..k])
  {
    assert q == q[..k] + q[k..];
    if k > 0 {
      assert q[..k] == q[..k - 1] + [q[k - 1]];
    }
  }

  lemma CutIsAccounted(h: History, m: Match, limit: nat)
    requires Accounted(h, limit) && Cuts(h.queue, m)
    ensures Accounted(History(m.rest, h.arrived, h.used + if m.best.Some? then [m.best.value] else []), limit)
  {
    var q := h.queue;
    var k: nat :| k <= |q| && m.rest == q[k..] && (m.best.Some? ==> k > 0 && m.best.value == q[k - 1]);
    TailMultiset(q, k);
    assert multiset(h.used + []) == multiset(h.used);
    assert m.best.Some? ==> multiset(h.used + [q[k - 1]]) == multiset(h.used) + multiset{q[k - 1]};
  }

  lemma {:induction false} EveryRunIsAccounted(run: seq<History>, events: seq<Event>, limit: nat, tolerance: real,
                                               k: nat)
    requires IsRun(run, events, limit, tolerance) && k < |run|
    ensures Accounted(run[k], limit)
  {
    if k > 0 {
      EveryRunIsAccounted(run, events, limit, tolerance, k - 1);
      assert Next(run[k - 1], events[k - 1], limit, tolerance, run[k - 1 + 1]);
      var h := run[k - 1];
      match events[k - 1] {
        case Arrival(o) =>
          ArrivalIsAccounted(h, o, limit);
        case Frame(stamp) =>
          var m :| (RealtimeMatch(h.queue, stamp, tolerance, m) || BackendMatch(h.queue, stamp, tolerance, m)) &&
                   run[k] == History(m.rest, h.arrived, h.used + if m.best.Some? then [m.best.value] else []);
          MatchesCut(h.queue, stamp, tolerance, m);
          CutIsAccounted(h, m, limit);
      }
    }
  }

  // Arrivals in time order.
  ghost predicate InOrder(arrived: seq<Observation>) {
    forall i, j :: 0 <= i < j < |arrived| ==> arrived[i].stamp <= arrived[j].stamp
  }

  ghost predicate Forward(h: History) {
    && (forall i, j :: 0 <= i < j < |h.used| ==> h.used[i].stamp <= h.used[j].stamp)
    && (forall i, j :: 0 <= i < |h.used| && 0 <= j < |h.queue| ==> h.used[i].stamp <= h.queue[j].stamp)
    && (forall i :: 0 <= i < |h.used| ==> h.used[i] in h.arrived)
    && (forall i :: 0 <= i < |h.queue| ==> h.queue[i] in h.arrived)
  }

  lemma ArrivalMovesForward(h: History, o: Observation, limit: nat)
    requires Sorted(h.queue) && Forward(h) && InOrder(h.arrived + [o])
    ensures Forward(History(Newest(Inserted(h.queue, o), limit), h.arrived + [o], h.used))
  {
    var all, kept := Inserted(h.queue, o), Newest(Inserted(h.queue, o), limit);
    var arrived := h.arrived + [o];
    forall j | 0 <= j < |kept| ensures kept[j] in h.queue || kept[j] == o {
      assert kept[j] == all[|all| - |kept| + j];
    }
    forall i, j | 0 <= i < |h.used| && 0 <= j < |kept| ensures h.used[i].stamp <= kept[j].stamp {
      if kept[j] !in h.queue {
        var a :| 0 <= a < |h.arrived| && h.arrived[a] == h.used[i];
        assert arrived[a].stamp <= arrived[|h.arrived|].stamp;
      }
    }
  }

  lemma RestMovesForward(h: History, k: nat)
    requires Forward(h) && k <= |h.queue|
    ensures Forward(History(h.queue[k..], h.arrived, h.used))
  {
  }

  lemma UseMovesForward(h: History, k: nat)
    requires Sorted(h.queue) && Forward(h) && 0 < k <= |h.queue|
    ensures Forward(History(h.queue[k..], h.arrived, h.used + [h.queue[k - 1]]))
  {
    assert forall j :: 0 <= j < |h.queue| - k ==> h.queue[k - 1].stamp <= h.queue[k..][j].stamp;
  }

  lemma CutMovesForward(h: History, m: Match)
    requires Sorted(h.queue) && Forward(h) && Cuts(h.queue, m)
    ensures Forward(History(m.rest, h.arrived, h.used + if m.best.Some? then [m.best.value] else []))
  {
    var k: nat :| k <= |h.queue| && m.rest == h.queue[k..] &&
                  (m.best.Some? ==> k > 0 && m.best.value == h.queue[k - 1]);
    RestMovesForward(h, k);
    if m.best.Some? {
      UseMovesForward(h, k);
    } else {
      assert h.used + [] == h.used;
    }
  }

  // When observations arrive in time order, the stamps used never go back.
  lemma {:induction false} UsedStampsNeverGoBack(run: seq<History>, events: seq<Event>, limit: nat, tolerance: real,
                                                 k: nat)
    requires IsRun(run, events, limit, tolerance) && k < |run| && InOrder(run[k].arrived)
    ensures Forward(run[k])
  {
    if k > 0 {
      var h := run[k - 1];
      assert Next(h, events[k - 1], limit, tolerance, run[k - 1 + 1]);
      EveryRunIsAccounted(run, events, limit, tolerance, k - 1);
      match events[k - 1] {
        case Arrival(o) =>
          assert forall i :: 0 <= i < |h.arrived| ==> run[k].arrived[i] == h.arrived[i];
          UsedStampsNeverGoBack(run, events, limit, tolerance, k - 1);
          ArrivalMovesForward(h, o, limit);
        case Frame(stamp) =>
          UsedStampsNeverGoBack(run, events, limit, tolerance, k - 1);
          var m :| (RealtimeMatch(h.queue, stamp, tolerance, m) || BackendMatch(h.queue, stamp, tolerance, m)) &&
                   run[k] == History(m.rest, h.arrived, h.used + if m.best.Some? then [m.best.value] else []);
          MatchesCut(h.queue, stamp, tolerance, m);
          CutMovesForward(h, m);
      }
    }
  }
}
