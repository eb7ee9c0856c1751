// The bounded queue between the synchronised callback and the backend worker: which keyframes enter it, which
// are dropped, and when the worker may stop.
module KeyframeQueue {
  import opened Basics
  import opened Matrices
  import opened ScanCloud

  datatype Pose = Pose(position: Vector, rotation: Vector)

  datatype Keyframe = Keyframe(stamp: real, pose: Pose, points: seq<Polar>)

  // Distance and angle between two poses. The rotation logarithm behind the angle is a parameter.
  type Motion = (Pose, Pose) -> (real, real)

  datatype Gates = Gates(motion: Motion, distance: real, angle: real, time: real, maxPending: nat) {
    predicate Valid() {
      maxPending >= 1
    }

    // Far enough, turned enough or late enough.
    predicate Apart(a: Pose, aStamp: real, b: Pose, bStamp: real) {
      var (distance, angle) := motion(a, b);
      !(distance < this.distance && angle < this.angle && bStamp - aStamp < time)
    }
  }

  const MIN_POINTS: nat := 100

  // What became of a keyframe that left the queue.
  datatype Fate = Dropped(frame: Keyframe) | Taken(frame: Keyframe)

  datatype Backlog = Backlog(
    queue: seq<Keyframe>, last: Option<Keyframe>, stopRequested: bool, running: bool,
    accepted: seq<Keyframe>, fates: seq<Fate>)

  const START := Backlog([], None, false, true, [], [])

  predicate Selected(g: Gates, b: Backlog, k: Keyframe) {
    && (b.last.Some? ==> g.Apart(b.last.value.pose, b.last.value.stamp, k.pose, k.stamp))
    && |k.points| >= MIN_POINTS
  }

  // The oldest pending keyframe makes room when the worker is behind.
  function Offered(g: Gates, b: Backlog, k: Keyframe): Backlog
    requires g.Valid()
  {
    if !Selected(g, b, k) then b
    else
      var full := |b.queue| >= g.maxPending && b.queue != [];
      b.(queue := (if full then b.queue[1..] else b.queue) + [k], last := Some(k), accepted := b.accepted + [k],
         fates := b.fates + if full then [Dropped(b.queue[0])] else [])
  }

  // One turn of the worker loop: take the oldest keyframe, or stop if there is none and a stop was requested.
  function Worked(b: Backlog): Backlog {
    if !b.running then b
    else if b.queue != [] then b.(queue := b.queue[1..], fates := b.fates + [Taken(b.queue[0])])
    else if b.stopRequested then b.(running := false)
    else b
  }

  datatype Event = Offer(frame: Keyframe) | RequestStop | Turn

  function Next(g: Gates, b: Backlog, e: Event): Backlog
    requires g.Valid()
  {
    match e
    case Offer(k) => Offered(g, b, k)
    case RequestStop => b.(stopRequested := true)
    case Turn => Worked(b)
  }

  function RunOf(g: Gates, es: seq<Event>): Backlog
    requires g.Valid()
  {
    if es == [] then START else Next(g, RunOf(g, es[..|es| - 1]), es[|es| - 1])
  }

  // ---------------------------------------------------------------- what every run keeps

  function Frames(fates: seq<Fate>): (r: seq<Keyframe>)
    ensures |r| == |fates| && forall i :: 0 <= i < |r| ==> r[i] == fates[i].frame
  {
    seq(|fates|, i requires 0 <= i < |fates| => fates[i].frame)
  }

  function DroppedCount(fates: seq<Fate>): nat {
    if fates == [] then 0 else DroppedCount(fates[..|fates| - 1]) + if fates[|fates| - 1].Dropped? then 1 else 0
  }

  function TakenCount(fates: seq<Fate>): nat {
    if fates == [] then 0 else TakenCount(fates[..|fates| - 1]) + if fates[|fates| - 1].Taken? then 1 else 0
  }

  lemma {:induction false} EveryFateIsCounted(fates: seq<Fate>)
    ensures DroppedCount(fates) + TakenCount(fates) == |fates|
  {
    if fates != [] {
      EveryFateIsCounted(fates[..|fates| - 1]);
    }
  }

  // The queue is bounded, frames leave it in the order they came, and neighbours are apart.
  ghost predicate Inv(g: Gates, b: Backlog) {
    && |b.queue| <= g.maxPending
    && b.accepted == Frames(b.fates) + b.queue
    && (forall i, j :: 0 <= i && j == i + 1 < |b.accepted| ==>
          g.Apart(b.accepted[i].pose, b.accepted[i].stamp, b.accepted[j].pose, b.accepted[j].stamp))
    && (forall i :: 0 <= i < |b.accepted| ==> |b.accepted[i].points| >= MIN_POINTS)
    && (b.accepted == [] ==> b.last == None)
    && (b.accepted != [] ==> b.last == Some(b.accepted[|b.accepted| - 1]))
    && (!b.running ==> b.stopRequested)
  }

  lemma OfferKeepsInv(g: Gates, b: Backlog, k: Keyframe)
    requires g.Valid() && Inv(g, b)
    ensures Inv(g, Offered(g, b, k))
  {
    var c := Offered(g, b, k);
    if Selected(g, b, k) {
      assert c.accepted == Frames(c.fates) + c.queue;
    }
  }

  lemma TurnKeepsInv(g: Gates, b: Backlog)
    requires Inv(g, b)
    ensures Inv(g, Worked(b))
  {
    var c := Worked(b);
    assert c.accepted == Frames(c.fates) + c.queue;
  }

  lemma {:induction false} EveryRunKeepsInv(g: Gates, es: seq<Event>)
    requires g.Valid()
    ensures Inv(g, RunOf(g, es))
  {
    if es != [] {
      var b := RunOf(g, es[..|es| - 1]);
      EveryRunKeepsInv(g, es[..|es| - 1]);
      match es[|es| - 1]
      case Offer(k) => OfferKeepsInv(g, b, k);
      case RequestStop =>
      case Turn => TurnKeepsInv(g, b);
    }
  }

  // Every accepted keyframe was dropped, was taken or still waits, and those that left did so in order.
  lemma EveryFrameIsAccounted(g: Gates, es: seq<Event>)
    requires g.Valid()
    ensures var b := RunOf(g, es);
            && |b.accepted| == DroppedCount(b.fates) + TakenCount(b.fates) + |b.queue|
            && |b.queue| <= g.maxPending
            && |b.fates| <= |b.accepted| && b.accepted[..|b.fates|] == Frames(b.fates) &&
               b.accepted[|b.fates|..] == b.queue
  {
    EveryRunKeepsInv(g, es);
    EveryFateIsCounted(RunOf(g, es).fates);
  }

  // How far a keyframe is from the last accepted one; the first is far from any.
  predicate FarFromLast(g: Gates, b: Backlog, k: Keyframe) {
    b.accepted == [] ||
    var last := b.accepted[|b.accepted| - 1];
    var (distance, angle) := g.motion(last.pose, k.pose);
    distance >= g.distance || angle >= g.angle || k.stamp - last.stamp >= g.time
  }

  // A keyframe is accepted exactly when it is far enough, or turned enough, or late enough after the last accepted one
  // and has a hundred points; another is dropped for it exactly when the queue is full, and nothing else changes.
  lemma AcceptedIff(g: Gates, b: Backlog, k: Keyframe)
    requires g.Valid() && Inv(g, b)
    ensures var c := Next(g, b, Offer(k));
            var accepted := FarFromLast(g, b, k) && |k.points| >= 100;
            var full := |b.queue| == g.maxPending;
            && (!accepted ==> c == b)
            && (accepted ==>
                  && c.accepted == b.accepted + [k]
                  && c.queue == (if full then b.queue[1..] else b.queue) + [k]
                  && c.fates == b.fates + (if full then [Dropped(b.queue[0])] else [])
                  && c.running == b.running && c.stopRequested == b.stopRequested)
  {
  }

  // The worker stops exactly when it finds the queue empty after a stop was requested.
  lemma StopsOnlyWhenEmpty(g: Gates, b: Backlog, e: Event)
    requires g.Valid() && b.running
    ensures !Next(g, b, e).running <==> e == Turn && b.queue == [] && b.stopRequested
    ensures !Next(g, b, e).running ==> Next(g, b, e).queue == []
  {
  }

  // The k-th event of a run is the turn at which the worker found the queue empty and stopped.
  ghost predicate StoppedAt(g: Gates, es: seq<Event>, k: nat)
    requires g.Valid() && k < |es|
  {
    var b := RunOf(g, es[..k]);
    b.running && es[k] == Turn && b.queue == [] && b.stopRequested && !RunOf(g, es[..k + 1]).running
  }

  // In every run after which the worker is stopped there is such a turn: nothing that was queued by then is left
  // behind.
  lemma {:induction false} StoppedOnEmptyQueue(g: Gates, es: seq<Event>) returns (k: nat)
    requires g.Valid() && !RunOf(g, es).running
    ensures k < |es| && StoppedAt(g, es, k)
  {
    var front, last := es[..|es| - 1], es[|es| - 1];
    if RunOf(g, front).running {
      k := |es| - 1;
      StopsOnlyWhenEmpty(g, RunOf(g, front), last);
      assert es[..k + 1] == es;
    } else {
      k := StoppedOnEmptyQueue(g, front);
      assert front[..k] == es[..k] && front[..k + 1] == es[..k + 1];
    }
  }

  function Turns(b: Backlog, n: nat): Backlog
    decreases n
  {
    if n == 0 then b else Turns(Worked(b), n - 1)
  }

  function AllTaken(frames: seq<Keyframe>): (r: seq<Fate>)
    ensures |r| == |frames| && forall i :: 0 <= i < |r| ==> r[i] == Taken(frames[i])
  {
    seq(|frames|, i requires 0 <= i < |frames| => Taken(frames[i]))
  }

  // After a stop request the worker takes all that is left, in order, and then stops.
  lemma {:induction false} StopDrainsQueue(b: Backlog)
    requires b.running && b.stopRequested
    ensures var c := Turns(b, |b.queue| + 1);
            !c.running && c.queue == [] && c.fates == b.fates + AllTaken(b.queue)
    decreases |b.queue|
  {
    if b.queue == [] {
      assert Turns(Worked(b), 0) == Worked(b);
      assert b.fates + AllTaken([]) == b.fates;
    } else {
      StopDrainsQueue(Worked(b));
      assert (b.fates + [Taken(b.queue[0])]) + AllTaken(b.queue[1..]) == b.fates + AllTaken(b.queue);
    }
  }

  // ---------------------------------------------------------------- in memory

  class KeyframeBuffer {
    const gates: Gates
    var keyframeQueue: seq<Keyframe>
    var lastEnqueued: Option<Keyframe>
    var stopRequested: bool
    var running: bool
    ghost var accepted: seq<Keyframe>
    ghost var fates: seq<Fate>

    ghost function View(): Backlog
      reads this
    {
      Backlog(keyframeQueue, lastEnqueued, stopRequested, running, accepted, fates)
    }

    ghost predicate Valid()
      reads this
    {
      gates.Valid() && Inv(gates, View())
    }

    constructor (gates: Gates)
      requires gates.Valid()
      ensures Valid() && View() == START && this.gates == gates
    {
      this.gates := gates;
      keyframeQueue, lastEnqueued, stopRequested, running := [], None, false, true;
      accepted, fates := [], [];
    }

    method Selects(k: Keyframe) returns (selected: bool)
      ensures selected == Selected(gates, View(), k)
    {
      if lastEnqueued.Some? {
        var (distance, angle) := gates.motion(lastEnqueued.value.pose, k.pose);
        var elapsed := k.stamp - lastEnqueued.value.stamp;
        if distance < gates.distance && angle < gates.angle && elapsed < gates.time {
          return false;
        }
      }
      return |k.points| >= MIN_POINTS;
    }

    method SyncedCallback(k: Keyframe)
      requires Valid()
      modifies this
      ensures Valid() && View() == Offered(gates, old(View()), k)
    {
      OfferKeepsInv(gates, View(), k);
      var selected := Selects(k);
      if selected {
        lastEnqueued := Some(k);
        if |keyframeQueue| >= gates.maxPending {
          fates := fates + [Dropped(keyframeQueue[0])];
          keyframeQueue := keyframeQueue[1..];
        }
        keyframeQueue := keyframeQueue + [k];
        accepted := accepted + [k];
        assert View() == Offered(gates, old(View()), k);
      }
    }

    method BackendTurn() returns (work: Option<Keyframe>)
      requires Valid() && running
      modifies this
      ensures Valid() && View() == Worked(old(View()))
      ensures work == if old(keyframeQueue) == [] then None else Some(old(keyframeQueue)[0])
    {
      TurnKeepsInv(gates, View());
      work := None;
      if keyframeQueue != [] {
        work := Some(keyframeQueue[0]);
        fates := fates + [Taken(keyframeQueue[0])];
        keyframeQueue := keyframeQueue[1..];
      } else if stopRequested {
        running := false;
      }
    }
  }
}
