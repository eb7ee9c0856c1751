// What a node of an adaptive voxel tree has been handed, and what that says about it: when it is fitted, when it is
// closed to updates, which points it holds, and which its leaves were handed.
module OctreeHistory {
  import opened OctreeModel
  import opened OctreeCache
  import opened OctreePoints

  // ---------------------------------------------------------------- one point

  // A node that buffers the points it is handed: one that is not fitted, a plane, or one on the last layer.
  predicate Buffers(c: Config, t: Node) {
    !t.initialised || t.plane.IsPlane() || t.layer >= c.maxLayer
  }

  // What closes a node that is handed one more point: a full plane, an overfull node of the last layer, or a first fit
  // that yields a plane of too many points.
  predicate IsClosedBy(c: Config, t: Node, p: Sample)
    requires WellShaped(c, t)
  {
    var n := |t.points| + 1;
    if !t.initialised then n > c.Threshold(t.layer) && c.planeOf(t.points + [p]).isPlane && n > c.maxPoints
    else if t.plane.IsPlane() then n >= c.maxPoints
    else t.layer >= c.maxLayer && n > c.maxPoints
  }

  // An open node is closed by a point exactly then. One that stays open has its old buffer and the point, and is fitted
  // anew exactly when more than five points are new.
  lemma ClosesIff(c: Config, t: Node, p: Sample)
    requires WellShaped(c, t) && t.updateEnabled
    ensures var u := Updated(c, t, p);
            && (!u.updateEnabled <==> IsClosedBy(c, t, p))
            && (Buffers(c, t) && u.updateEnabled ==> u.points == t.points + [p])
            && (Buffers(c, t) && t.initialised ==>
                  && u.plane == (if t.newPoints + 1 > 5 then Fitted(c.planeOf(t.points + [p])) else t.plane)
                  && (u.updateEnabled ==> u.newPoints == if t.newPoints + 1 > 5 then 0 else t.newPoints + 1))
  {
  }

  // A closed one changes no more, but for what its leaves are handed.
  lemma ClosedStays(c: Config, t: Node, p: Sample)
    requires WellShaped(c, t) && t.initialised && !t.updateEnabled
    ensures Updated(c, t, p) == t.(leaves := Updated(c, t, p).leaves)
    ensures Buffers(c, t) ==> Updated(c, t, p) == t
  {
  }

  // ---------------------------------------------------------------- all points

  // Leaf k was handed what falls into its octant, and is there exactly if something does.
  ghost predicate LeafHolds(c: Config, t: Node, k: nat, own: seq<Sample>)
    requires WellShaped(c, t) && k < 8
    decreases t, 0
  {
    && (t.leaves[k].Some? <==> own != [])
    && (t.leaves[k].Some? ==> Holds(c, t.leaves[k].value, own))
  }

  // From the n-th point on everything goes to the leaves, octant by octant.
  ghost predicate PassedOn(c: Config, t: Node, handed: seq<Sample>, n: nat)
    requires WellShaped(c, t) && n <= |handed|
    decreases t, 1
  {
    forall k: nat :: k < 8 ==> LeafHolds(c, t, k, InOctant(t.center, handed[n..], k))
  }

  // The cached plane is the fit of the first m points handed: of all but the new ones as long as the node is open and
  // has no leaves, and of all but five of the maximum when it is closed.
  ghost predicate FitOf(c: Config, t: Node, handed: seq<Sample>, m: nat)
    requires WellShaped(c, t)
  {
    && c.Threshold(t.layer) < m <= |handed| && t.plane == Fitted(c.planeOf(handed[..m]))
    && (t.updateEnabled && t.leaves == NoLeaves() ==> m == |handed| - t.newPoints)
    && (!t.updateEnabled ==> m + 5 >= c.maxPoints)
  }

  ghost predicate IsFitted(c: Config, t: Node, handed: seq<Sample>)
    requires WellShaped(c, t)
  {
    exists m: nat :: FitOf(c, t, handed, m)
  }

  // A node that was handed these points: it is fitted if they are more than its threshold, closed only if they are at
  // least the maximum, and as long as it is open and has no leaves it holds them all.
  ghost predicate Holds(c: Config, t: Node, handed: seq<Sample>)
    requires WellShaped(c, t)
    decreases t, 2
  {
    && (t.initialised <==> |handed| > c.Threshold(t.layer))
    && (t.initialised ==> IsFitted(c, t, handed))
    && (!t.updateEnabled ==> t.initialised && |handed| >= c.maxPoints)
    && (t.updateEnabled && t.leaves == NoLeaves() ==> t.points == handed)
    && (exists n: nat :: n <= |handed| && PassedOn(c, t, handed, n))
  }

  lemma NothingPassedOn(c: Config, t: Node, handed: seq<Sample>)
    requires WellShaped(c, t) && t.leaves == NoLeaves()
    ensures PassedOn(c, t, handed, |handed|)
  {
    assert handed[|handed|..] == [];
  }

  lemma BufferHolds(c: Config, t: Node, handed: seq<Sample>)
    requires WellShaped(c, t) && t.leaves == NoLeaves() && (t.initialised <==> |handed| > c.Threshold(t.layer))
    requires t.initialised ==> IsFitted(c, t, handed)
    requires if t.updateEnabled then t.points == handed else t.initialised && |handed| >= c.maxPoints
    ensures Holds(c, t, handed)
  {
    NothingPassedOn(c, t, handed);
  }

  // ---------------------------------------------------------------- fitting

  lemma {:induction false} SplitPassesOn(c: Config, t: Node)
    requires WellShaped(c, t) && t.leaves == NoLeaves() && t.layer < c.maxLayer
    ensures WellShaped(c, Cut(c, t)) && PassedOn(c, Cut(c, t), t.points, 0)
    decreases c.maxLayer - t.layer, 0
  {
    CutShape(c, t);
    DistributedShape(c, t, t.points);
    DistributedGrows(t, t.points);
    var s := Distributed(t, t.points);
    assert t.points[0..] == t.points;
    forall k: nat | k < 8 ensures LeafHolds(c, Cut(c, t), k, InOctant(t.center, t.points, k)) {
      DistributedByOctant(t, t.points, k);
      if s.leaves[k].Some? {
        assert s.leaves[k].value.points == [] + InOctant(t.center, t.points, k) == InOctant(t.center, t.points, k);
        FittedHolds(c, s.leaves[k].value);
      }
    }
  }

  // A node that is fitted for the first time.
  lemma {:induction false} FittedHolds(c: Config, t: Node)
    requires WellShaped(c, t) && Growing(t)
    ensures WellShaped(c, Settled(c, t)) && Holds(c, Settled(c, t), t.points)
    decreases c.maxLayer - t.layer, 1
  {
    SettledShape(c, t);
    var u := t.(plane := Fitted(c.planeOf(t.points)), octoState := 1);
    if |t.points| > c.Threshold(t.layer) && !c.planeOf(t.points).isPlane && t.layer < c.maxLayer {
      SplitPassesOn(c, u);
      SamePassedOn(c, Cut(c, u), Settled(c, t), t.points, 0);
      FirstFit(c, t);
      SplitHasLeaves(c, u);
    } else {
      if |t.points| > c.Threshold(t.layer) {
        FirstFit(c, t);
      }
      BufferHolds(c, Settled(c, t), t.points);
    }
  }

  lemma FirstFit(c: Config, t: Node)
    requires WellShaped(c, t) && WellShaped(c, Settled(c, t)) && Growing(t) && |t.points| > c.Threshold(t.layer)
    ensures Settled(c, t).layer == t.layer && IsFitted(c, Settled(c, t), t.points)
  {
    SettledShape(c, t);
    assert t.points[..|t.points|] == t.points;
    assert FitOf(c, Settled(c, t), t.points, |t.points|);
  }

  lemma SamePassedOn(c: Config, t: Node, u: Node, handed: seq<Sample>, n: nat)
    requires WellShaped(c, t) && WellShaped(c, u) && n <= |handed| && u.leaves == t.leaves && u.center == t.center
    requires PassedOn(c, t, handed, n)
    ensures PassedOn(c, u, handed, n)
  {
    forall k: nat | k < 8 ensures LeafHolds(c, u, k, InOctant(u.center, handed[n..], k)) {
      assert LeafHolds(c, t, k, InOctant(t.center, handed[n..], k));
    }
  }

  // A split node keeps its buffer beside its leaves.
  lemma SplitHasLeaves(c: Config, t: Node)
    requires WellShaped(c, t) && t.layer < c.maxLayer
    ensures Cut(c, t).points == t.points
  {
  }

  // ---------------------------------------------------------------- adding a point

  lemma OneMoreInOctant(center: Vec3, points: seq<Sample>, p: Sample, k: nat)
    ensures InOctant(center, points + [p], k) ==
            InOctant(center, points, k) + if Octant(center, p.point) == k then [p] else []
  {
    var all := points + [p];
    assert all[..|all| - 1] == points;
  }

  lemma LeafOneMore(c: Config, t: Node, rest: seq<Sample>, p: Sample, u: Node, k: nat)
    requires WellShaped(c, t) && WellShaped(c, u) && k < 8 && LeafHolds(c, t, k, InOctant(t.center, rest, k))
    requires if k == Octant(t.center, p.point)
             then u.leaves[k].Some? && Holds(c, u.leaves[k].value, InOctant(t.center, rest, k) + [p])
             else u.leaves[k] == t.leaves[k]
    ensures LeafHolds(c, u, k, InOctant(t.center, rest + [p], k))
  {
    OneMoreInOctant(t.center, rest, p, k);
    assert InOctant(t.center, rest, k) + [] == InOctant(t.center, rest, k);
  }

  lemma PassedOneMore(c: Config, t: Node, handed: seq<Sample>, n: nat, p: Sample, u: Node)
    requires WellShaped(c, t) && WellShaped(c, u) && n <= |handed| && PassedOn(c, t, handed, n)
    requires var k := Octant(t.center, p.point);
             && u == t.(leaves := t.leaves[k := u.leaves[k]]) && u.leaves[k].Some?
             && Holds(c, u.leaves[k].value, InOctant(t.center, handed[n..], k) + [p])
    ensures PassedOn(c, u, handed + [p], n)
  {
    assert (handed + [p])[n..] == handed[n..] + [p];
    forall k: nat | k < 8 ensures LeafHolds(c, u, k, InOctant(u.center, (handed + [p])[n..], k)) {
      assert LeafHolds(c, t, k, InOctant(t.center, handed[n..], k));
      LeafOneMore(c, t, handed[n..], p, u, k);
    }
  }

  // Points that change neither the plane nor what is open keep the fit.
  lemma FitStays(c: Config, t: Node, handed: seq<Sample>, p: Sample, u: Node)
    requires WellShaped(c, t) && WellShaped(c, u) && IsFitted(c, t, handed)
    requires u.layer == t.layer && u.plane == t.plane && u.updateEnabled == t.updateEnabled
    requires u.updateEnabled ==> u.leaves != NoLeaves()
    ensures IsFitted(c, u, handed + [p])
  {
    var m: nat :| FitOf(c, t, handed, m);
    assert (handed + [p])[..m] == handed[..m];
    assert FitOf(c, u, handed + [p], m);
  }

  lemma BufferedFit(c: Config, t: Node, p: Sample, full: int)
    requires WellShaped(c, t) && t.updateEnabled && t.leaves == NoLeaves() && OwnCacheHolds(c, t) && t.initialised
    requires IsFitted(c, t, t.points) && full >= c.maxPoints && WellShaped(c, Buffered(c, t, p, full))
    ensures IsFitted(c, Buffered(c, t, p, full), t.points + [p])
  {
    var m: nat :| FitOf(c, t, t.points, m);
    var u, points := Buffered(c, t, p, full), t.points + [p];
    assert points[..m] == t.points[..m] && points[..|points|] == points;
    assert FitOf(c, u, points, if t.newPoints + 1 > UPDATE_SIZE_THRESHOLD then |points| else m);
  }

  lemma {:induction false} LeafUpdateHolds(c: Config, t: Node, p: Sample, handed: seq<Sample>)
    requires WellShaped(c, t) && CacheHolds(c, t) && Holds(c, t, handed)
    requires t.initialised && !t.plane.IsPlane() && t.layer < c.maxLayer
    ensures WellShaped(c, Updated(c, t, p)) && Holds(c, Updated(c, t, p), handed + [p])
    decreases c.maxLayer - t.layer, 0
  {
    UpdatedShape(c, t, p);
    var k, u := Octant(t.center, p.point), Updated(c, t, p);
    var n: nat :| n <= |handed| && PassedOn(c, t, handed, n);
    var own := InOctant(t.center, handed[n..], k);
    assert LeafHolds(c, t, k, own);
    assert WellShaped(c, LeafOr(t, k));
    if t.leaves[k].Some? {
      UpdateHolds(c, t.leaves[k].value, p, own);
    } else {
      BufferHolds(c, FreshChild(t, k), []);
      UpdateHolds(c, FreshChild(t, k), p, own);
    }
    PassedOneMore(c, t, handed, n, p, u);
    assert u.leaves != NoLeaves();
    FitStays(c, t, handed, p, u);
  }

  // Handing a node one more point.
  lemma {:induction false} UpdateHolds(c: Config, t: Node, p: Sample, handed: seq<Sample>)
    requires WellShaped(c, t) && (CacheHolds(c, t) || Growing(t)) && Holds(c, t, handed)
    ensures WellShaped(c, Updated(c, t, p)) && Holds(c, Updated(c, t, p), handed + [p])
    decreases c.maxLayer - t.layer, 1
  {
    UpdatedShape(c, t, p);
    if !t.initialised {
      assert Growing(t) && t.points == handed;
      FittedHolds(c, t.(points := t.points + [p], newPoints := t.newPoints + 1));
    } else if t.plane.IsPlane() || t.layer >= c.maxLayer {
      assert t.leaves == NoLeaves();
      if t.updateEnabled {
        ClosesIff(c, t, p);
        BufferedFit(c, t, p, if t.plane.IsPlane() then c.maxPoints else c.maxPoints + 1);
      } else {
        FitStays(c, t, handed, p, t);
      }
      BufferHolds(c, Updated(c, t, p), handed + [p]);
    } else {
      LeafUpdateHolds(c, t, p, handed);
    }
  }

  // ---------------------------------------------------------------- nodes of a tree

  // Every closed node of the tree was handed at least the maximum of points, and every open one without leaves holds
  // just the points it was handed.
  lemma {:induction false} EveryNodeHolds(c: Config, t: Node, handed: seq<Sample>, q: seq<nat>)
    returns (own: seq<Sample>)
    requires WellShaped(c, t) && Holds(c, t, handed) && At(c, t, q).Some?
    ensures Holds(c, At(c, t, q).value, own)
    ensures forall p :: p in own ==> p in handed
    ensures !At(c, t, q).value.updateEnabled ==> |own| >= c.maxPoints
    ensures At(c, t, q).value.updateEnabled && At(c, t, q).value.leaves == NoLeaves() ==>
              At(c, t, q).value.points == own
    decreases t
  {
    if q == [] {
      own := handed;
    } else {
      var n: nat :| n <= |handed| && PassedOn(c, t, handed, n);
      var part := InOctant(t.center, handed[n..], q[0]);
      assert LeafHolds(c, t, q[0], part);
      own := EveryNodeHolds(c, t.leaves[q[0]].value, part, q[1..]);
      forall p | p in own ensures p in handed {
        InOctantIsPart(t.center, handed[n..], q[0], p);
      }
    }
  }

  lemma {:induction false} InOctantIsPart(center: Vec3, points: seq<Sample>, k: nat, p: Sample)
    requires p in InOctant(center, points, k)
    ensures p in points && Octant(center, p.point) == k
  {
    if p in InOctant(center, points[..|points| - 1], k) {
      InOctantIsPart(center, points[..|points| - 1], k, p);
    }
  }
}
