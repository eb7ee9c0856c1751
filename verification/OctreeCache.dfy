// What the nodes of an adaptive voxel tree cache: the fit of the buffer up to its newest few points, and, once
// a node is frozen, a plane that never changes again. Also: which node a new point reaches.
module OctreeCache {
  import opened Basics
  import opened OctreeModel

  // ---------------------------------------------------------------- the plane cache

  // A node that has not been fitted yet: all its points are new.
  ghost predicate Growing(t: Node) {
    && !t.initialised && t.updateEnabled && t.plane == Unfitted && t.leaves == NoLeaves()
    && t.newPoints == |t.points| && t.octoState == 0
  }

  // The cached plane is the fit of the buffer without its `newPoints` last points.
  ghost predicate FitsAllButNewest(c: Config, t: Node) {
    && 0 <= t.newPoints <= UPDATE_SIZE_THRESHOLD && t.newPoints <= |t.points|
    && t.plane == Fitted(c.planeOf(t.points[..|t.points| - t.newPoints]))
  }

  // A plane has no leaves and a bounded buffer; an unfitted node has too few points for a fit; an open node's
  // plane fits its buffer but for the newest points; a frozen node is fitted and keeps no points.
  ghost predicate OwnCacheHolds(c: Config, t: Node)
    requires WellShaped(c, t)
  {
    && (t.plane.IsPlane() ==> t.leaves == NoLeaves() && |t.points| <= c.maxPoints)
    && (if !t.initialised then Growing(t) && |t.points| <= c.Threshold(t.layer)
        else if t.updateEnabled then FitsAllButNewest(c, t)
        else t.plane.Fitted? && t.points == [] && t.newPoints == 0)
    && (t.octoState == 0 || (t.octoState == 1 && t.initialised && !t.plane.IsPlane() && t.layer < c.maxLayer))
  }

  ghost predicate CacheHolds(c: Config, t: Node)
    requires WellShaped(c, t)
    decreases t
  {
    && OwnCacheHolds(c, t)
    && (forall k :: 0 <= k < 8 && t.leaves[k].Some? ==> CacheHolds(c, t.leaves[k].value))
  }

  ghost predicate LeavesGrow(t: Node) {
    && |t.leaves| == 8
    && (forall k :: 0 <= k < 8 && t.leaves[k].Some? ==> Growing(t.leaves[k].value))
  }

  lemma {:induction false} DistributedGrows(t: Node, points: seq<Sample>)
    requires LeavesGrow(t)
    ensures LeavesGrow(Distributed(t, points))
  {
    if points != [] {
      DistributedGrows(t, points[..|points| - 1]);
    }
  }

  lemma {:induction false} CutCaches(c: Config, t: Node)
    requires WellShaped(c, t) && t.leaves == NoLeaves()
    ensures WellShaped(c, Cut(c, t))
    ensures forall k :: 0 <= k < 8 && Cut(c, t).leaves[k].Some? ==> CacheHolds(c, Cut(c, t).leaves[k].value)
    ensures Cut(c, t).octoState == if t.layer < c.maxLayer then t.octoState else 0
    decreases c.maxLayer - t.layer, 0
  {
    CutShape(c, t);
    if t.layer < c.maxLayer {
      DistributedShape(c, t, t.points);
      DistributedGrows(t, t.points);
      var s := Distributed(t, t.points);
      forall k | 0 <= k < 8 && s.leaves[k].Some?
        ensures WellShaped(c, Settled(c, s.leaves[k].value)) && CacheHolds(c, Settled(c, s.leaves[k].value))
      {
        SettledCaches(c, s.leaves[k].value);
      }
    }
  }

  lemma {:induction false} SettledCaches(c: Config, t: Node)
    requires WellShaped(c, t) && Growing(t)
    ensures WellShaped(c, Settled(c, t)) && CacheHolds(c, Settled(c, t))
    decreases c.maxLayer - t.layer, 1
  {
    SettledShape(c, t);
    if |t.points| > c.Threshold(t.layer) {
      assert t.points[..|t.points| - 0] == t.points;
      if !c.planeOf(t.points).isPlane {
        CutCaches(c, t.(plane := Fitted(c.planeOf(t.points)), octoState := 1));
      }
    }
  }

  lemma BufferedCaches(c: Config, t: Node, p: Sample, full: int)
    requires WellShaped(c, t) && OwnCacheHolds(c, t) && t.initialised && t.updateEnabled
    requires (t.plane.IsPlane() || t.layer >= c.maxLayer) && full <= c.maxPoints + 1
    ensures WellShaped(c, Buffered(c, t, p, full)) && OwnCacheHolds(c, Buffered(c, t, p, full))
  {
    var points := t.points + [p];
    assert points[..|points| - 0] == points;
    assert points[..|points| - (t.newPoints + 1)] == t.points[..|t.points| - t.newPoints];
    assert t.layer >= c.maxLayer ==> t.leaves == NoLeaves();
  }

  // Adding a point keeps the cache of every node of the tree.
  lemma {:induction false} UpdatedCaches(c: Config, t: Node, p: Sample)
    requires WellShaped(c, t) && (CacheHolds(c, t) || Growing(t))
    ensures WellShaped(c, Updated(c, t, p)) && CacheHolds(c, Updated(c, t, p))
    decreases c.maxLayer - t.layer
  {
    UpdatedShape(c, t, p);
    if !t.initialised {
      SettledCaches(c, t.(points := t.points + [p], newPoints := t.newPoints + 1));
    } else if t.plane.IsPlane() || t.layer >= c.maxLayer {
      if t.updateEnabled {
        BufferedCaches(c, t, p, if t.plane.IsPlane() then c.maxPoints else c.maxPoints + 1);
      }
    } else {
      var k := Octant(t.center, p.point);
      assert WellShaped(c, LeafOr(t, k));
      UpdatedCaches(c, LeafOr(t, k), p);
    }
  }

  // ---------------------------------------------------------------- where a point goes

  // The slots followed from the root by the lookup of a point.
  function Located(c: Config, t: Node, p: Vec3): (q: seq<nat>)
    requires WellShaped(c, t)
    decreases t
  {
    if !t.initialised || t.plane.IsPlane() || t.layer >= c.maxLayer then []
    else
      var k := Octant(t.center, p);
      if t.leaves[k].Some? then [k] + Located(c, t.leaves[k].value, p) else []
  }

  function At(c: Config, t: Node, q: seq<nat>): (r: Option<Node>)
    requires WellShaped(c, t)
    ensures r.Some? ==> WellShaped(c, r.value)
    decreases t
  {
    if q == [] then Some(t)
    else if q[0] < 8 && t.leaves[q[0]].Some? then At(c, t.leaves[q[0]].value, q[1..])
    else None
  }

  function With(c: Config, t: Node, q: seq<nat>, u: Node): (r: Node)
    requires WellShaped(c, t)
    decreases t
  {
    if q == [] then u
    else if q[0] < 8 && t.leaves[q[0]].Some? then
      t.(leaves := t.leaves[q[0] := Some(With(c, t.leaves[q[0]].value, q[1..], u))])
    else t
  }

  // Adding a point is the update of the one node its lookup finds, put back in place: the lookup and the
  // update agree, and nothing outside that node changes.
  lemma {:induction false} UpdateIsLocal(c: Config, t: Node, p: Sample)
    requires WellShaped(c, t)
    ensures var q := Located(c, t, p.point);
            && At(c, t, q).Some?
            && Updated(c, t, p) == With(c, t, q, Updated(c, At(c, t, q).value, p))
    decreases t
  {
    var q := Located(c, t, p.point);
    if q != [] {
      var k := Octant(t.center, p.point);
      assert q[1..] == Located(c, t.leaves[k].value, p.point);
      UpdateIsLocal(c, t.leaves[k].value, p);
    }
  }

  // q leads into the subtree at o.
  ghost predicate Under(o: seq<nat>, q: seq<nat>) {
    |o| <= |q| && q[..|o|] == o
  }

  lemma UnderTail(o: seq<nat>, q: seq<nat>)
    requires o != [] && q != [] && o[0] == q[0]
    ensures Under(o, q) <==> Under(o[1..], q[1..])
  {
    if Under(o, q) {
      assert q[1..][..|o[1..]|] == q[..|o|][1..];
    }
    if Under(o[1..], q[1..]) {
      assert q[..|o|] == [q[0]] + q[1..][..|o[1..]|];
      assert o == [o[0]] + o[1..];
    }
  }

  // Putting a node in at o leaves every node that is neither above nor below o as it was, and a node above o
  // keeps its own fields.
  lemma {:induction false} WithElsewhere(c: Config, t: Node, o: seq<nat>, u: Node, q: seq<nat>)
    requires WellShaped(c, t) && At(c, t, o).Some? && !Under(o, q)
    requires WellShaped(c, With(c, t, o, u))
    ensures !Under(q, o) ==> At(c, With(c, t, o, u), q) == At(c, t, q)
    ensures Under(q, o) ==>
              && At(c, t, q).Some? && At(c, With(c, t, o, u), q).Some?
              && At(c, t, q).value == At(c, With(c, t, o, u), q).value.(leaves := At(c, t, q).value.leaves)
    decreases t
  {
    if q != [] && q[0] == o[0] {
      UnderTail(o, q);
      UnderTail(q, o);
      assert With(c, t, o, u).leaves[o[0]] == Some(With(c, t.leaves[o[0]].value, o[1..], u));
      WithElsewhere(c, t.leaves[o[0]].value, o[1..], u, q[1..]);
    }
  }

  // No node outside the subtree the lookup found is touched by an update.
  lemma UpdateTouchesOnlyLocated(c: Config, t: Node, p: Sample, q: seq<nat>)
    requires WellShaped(c, t) && !Under(Located(c, t, p.point), q)
    ensures WellShaped(c, Updated(c, t, p))
    ensures !Under(q, Located(c, t, p.point)) ==> At(c, Updated(c, t, p), q) == At(c, t, q)
    ensures Under(q, Located(c, t, p.point)) ==>
              && At(c, t, q).Some? && At(c, Updated(c, t, p), q).Some?
              && At(c, t, q).value == At(c, Updated(c, t, p), q).value.(leaves := At(c, t, q).value.leaves)
  {
    UpdatedShape(c, t, p);
    UpdateIsLocal(c, t, p);
    var o := Located(c, t, p.point);
    WithElsewhere(c, t, o, Updated(c, At(c, t, o).value, p), q);
  }

  // ---------------------------------------------------------------- nodes that stay

  // What no update takes from a node: its cube, its layer, that it has been fitted, and a frozen plane.
  ghost predicate Persists(t: Node, u: Node) {
    && u.layer == t.layer && u.center == t.center && u.quarter == t.quarter
    && (t.initialised ==> u.initialised)
    && (!t.updateEnabled ==> !u.updateEnabled && u.plane == t.plane && u.points == t.points)
  }

  // Every node of a tree is still there after an update, at the same place; a frozen one still has its plane,
  // even if the last fit before it froze was not a plane.
  lemma {:induction false} NodesPersist(c: Config, t: Node, p: Sample, q: seq<nat>)
    requires WellShaped(c, t) && CacheHolds(c, t) && At(c, t, q).Some?
    ensures WellShaped(c, Updated(c, t, p)) && At(c, Updated(c, t, p), q).Some?
    ensures Persists(At(c, t, q).value, At(c, Updated(c, t, p), q).value)
    decreases t
  {
    UpdatedShape(c, t, p);
    if q == [] {
      RootPersists(c, t, p);
    } else if t.initialised && !t.plane.IsPlane() && t.layer < c.maxLayer {
      if q[0] == Octant(t.center, p.point) {
        NodesPersist(c, t.leaves[q[0]].value, p, q[1..]);
      }
    }
  }

  lemma RootPersists(c: Config, t: Node, p: Sample)
    requires WellShaped(c, t) && CacheHolds(c, t)
    ensures Persists(t, Updated(c, t, p))
  {
    if !t.initialised {
      assert Growing(t);
    }
  }

  // ---------------------------------------------------------------- the best plane for a point

  // The gate of a residual: the probability of a point under a plane, or nothing if it is too far away.
  type Gate = (Fit, Sample) -> Option<real>

  // The plane found so far, with its probability and its layer.
  datatype Match = Match(success: bool, prob: real, best: Option<(Fit, nat)>)

  const NO_MATCH := Match(false, 0.0, None)

  function Considered(gate: Gate, fit: Fit, layer: nat, p: Sample, m: Match): Match {
    var prob := gate(fit, p);
    if prob.None? then m
    else if prob.value > m.prob then Match(true, prob.value, Some((fit, layer)))
    else m.(success := true)
  }

  // Depth first, without looking below a plane.
  function Searched(c: Config, gate: Gate, t: Node, layer: nat, p: Sample, m: Match): Match
    requires WellShaped(c, t)
    decreases t, 9
  {
    if t.plane.IsPlane() then Considered(gate, t.plane.fit, layer, p, m)
    else if layer < c.maxLayer then SearchedLeaves(c, gate, t, layer, p, m, 8)
    else m
  }

  function SearchedLeaves(c: Config, gate: Gate, t: Node, layer: nat, p: Sample, m: Match, n: nat): Match
    requires WellShaped(c, t) && n <= 8
    decreases t, n
  {
    if n == 0 then m
    else
      var before := SearchedLeaves(c, gate, t, layer, p, m, n - 1);
      if t.leaves[n - 1].Some? then Searched(c, gate, t.leaves[n - 1].value, layer + 1, p, before) else before
  }

  // The planes a search can see: those with no plane above them.
  ghost predicate Exposed(c: Config, t: Node, q: seq<nat>)
    requires WellShaped(c, t)
    decreases t
  {
    if t.plane.IsPlane() then q == []
    else q != [] && q[0] < 8 && t.leaves[q[0]].Some? && Exposed(c, t.leaves[q[0]].value, q[1..])
  }

  function FitAt(c: Config, t: Node, q: seq<nat>): (r: Fit)
    requires WellShaped(c, t) && Exposed(c, t, q)
    decreases t
  {
    if q == [] then t.plane.fit else FitAt(c, t.leaves[q[0]].value, q[1..])
  }

  lemma {:induction false} ExposedIsAt(c: Config, t: Node, q: seq<nat>)
    requires WellShaped(c, t) && Exposed(c, t, q)
    ensures At(c, t, q).Some? && At(c, t, q).value.plane == Fitted(FitAt(c, t, q))
    decreases t
  {
    if q != [] {
      ExposedIsAt(c, t.leaves[q[0]].value, q[1..]);
    }
  }

  // An exposed plane at q, seen from layer `layer`, passes the gate with probability prob.
  ghost predicate Passes(c: Config, gate: Gate, t: Node, q: seq<nat>, p: Sample, prob: real)
    requires WellShaped(c, t)
  {
    Exposed(c, t, q) && gate(FitAt(c, t, q), p) == Some(prob)
  }

  ghost predicate IsSource(c: Config, gate: Gate, t: Node, layer: nat, p: Sample, m: Match, q: seq<nat>)
    requires WellShaped(c, t)
  {
    Passes(c, gate, t, q, p, m.prob) && m.best == Some((FitAt(c, t, q), layer + |q|))
  }

  // r improves on m by exactly the exposed planes under the first n leaves (n = 8: all) of t.
  ghost predicate Best(c: Config, gate: Gate, t: Node, layer: nat, p: Sample, m: Match, r: Match, n: nat)
    requires WellShaped(c, t)
  {
    && m.prob <= r.prob
    && (forall q, prob {:trigger Passes(c, gate, t, q, p, prob)} ::
          (q != [] ==> q[0] < n) && Passes(c, gate, t, q, p, prob) ==> r.success && prob <= r.prob)
    && (m.success ==> r.success)
    && (r.success ==> m.success || exists q, prob :: Passes(c, gate, t, q, p, prob))
    && ((r.prob, r.best) == (m.prob, m.best) || exists q :: IsSource(c, gate, t, layer, p, r, q))
  }

  lemma LiftedPasses(c: Config, gate: Gate, t: Node, k: nat, q: seq<nat>, p: Sample, prob: real)
    requires WellShaped(c, t) && !t.plane.IsPlane() && k < 8 && t.leaves[k].Some?
    requires Passes(c, gate, t.leaves[k].value, q, p, prob)
    ensures Passes(c, gate, t, [k] + q, p, prob) && FitAt(c, t, [k] + q) == FitAt(c, t.leaves[k].value, q)
  {
    assert ([k] + q)[1..] == q;
  }

  lemma {:induction false} SearchedLeavesIsBest(
    c: Config, gate: Gate, t: Node, layer: nat, p: Sample, m: Match, n: nat)
    requires WellShaped(c, t) && n <= 8 && !t.plane.IsPlane() && t.layer == layer
    ensures Best(c, gate, t, layer, p, m, SearchedLeaves(c, gate, t, layer, p, m, n), n)
    decreases t, n
  {
    if n > 0 {
      var before := SearchedLeaves(c, gate, t, layer, p, m, n - 1);
      SearchedLeavesIsBest(c, gate, t, layer, p, m, n - 1);
      if t.leaves[n - 1].Some? {
        SearchedIsBest(c, gate, t.leaves[n - 1].value, layer + 1, p, before);
        JoinBest(c, gate, t, layer, p, m, before, SearchedLeaves(c, gate, t, layer, p, m, n), n - 1);
      }
    }
  }

  lemma JoinBest(c: Config, gate: Gate, t: Node, layer: nat, p: Sample, m: Match, b: Match, r: Match, k: nat)
    requires WellShaped(c, t) && k < 8 && !t.plane.IsPlane() && t.leaves[k].Some?
    requires Best(c, gate, t, layer, p, m, b, k)
    requires Best(c, gate, t.leaves[k].value, layer + 1, p, b, r, 8)
    ensures Best(c, gate, t, layer, p, m, r, k + 1)
  {
    var leaf := t.leaves[k].value;
    forall q, prob | (q != [] ==> q[0] < k + 1) && Passes(c, gate, t, q, p, prob)
      ensures r.success && prob <= r.prob
    {
      if q[0] == k {
        assert Passes(c, gate, leaf, q[1..], p, prob);
        assert q[1..] != [] ==> q[1..][0] < 8;
      }
    }
    if r.success && !b.success {
      var q, prob :| Passes(c, gate, leaf, q, p, prob);
      LiftedPasses(c, gate, t, k, q, p, prob);
    }
    if (r.prob, r.best) != (b.prob, b.best) {
      var q :| IsSource(c, gate, leaf, layer + 1, p, r, q);
      LiftedPasses(c, gate, t, k, q, p, r.prob);
      assert IsSource(c, gate, t, layer, p, r, [k] + q);
    } else if (b.prob, b.best) != (m.prob, m.best) {
      var q :| IsSource(c, gate, t, layer, p, b, q);
      assert IsSource(c, gate, t, layer, p, r, q);
    }
  }

  lemma {:induction false} SearchedIsBest(c: Config, gate: Gate, t: Node, layer: nat, p: Sample, m: Match)
    requires WellShaped(c, t) && t.layer == layer
    ensures Best(c, gate, t, layer, p, m, Searched(c, gate, t, layer, p, m), 8)
    decreases t, 9
  {
    if t.plane.IsPlane() {
      var r := Searched(c, gate, t, layer, p, m);
      if gate(t.plane.fit, p).Some? {
        assert Passes(c, gate, t, [], p, gate(t.plane.fit, p).value);
        if gate(t.plane.fit, p).value > m.prob {
          assert IsSource(c, gate, t, layer, p, r, []);
        }
      }
    } else if layer < c.maxLayer {
      SearchedLeavesIsBest(c, gate, t, layer, p, m, 8);
      forall q, prob | Passes(c, gate, t, q, p, prob) ensures q != [] && q[0] < 8 {
      }
    }
  }

  // The plane found is the one cached by the node at q, and its layer is how deep that node lies.
  ghost predicate IsPlaneAt(c: Config, t: Node, m: Match, q: seq<nat>)
    requires WellShaped(c, t)
  {
    && At(c, t, q).Some? && m.best.Some? && m.best.value.1 == |q|
    && At(c, t, q).value.plane == Fitted(m.best.value.0)
  }

  // A residual is found exactly when some exposed plane passes the gate. It is then a most probable of them, with
  // the plane and the layer of its node.
  lemma ResidualIsMostProbable(c: Config, gate: Gate, t: Node, p: Sample)
    requires WellShaped(c, t) && t.layer == 0
    requires forall f: Fit, s: Sample {:trigger gate(f, s)} :: gate(f, s).Some? ==> gate(f, s).value > 0.0
    ensures var r := Searched(c, gate, t, 0, p, NO_MATCH);
            && (r.success <==> exists q, prob :: Passes(c, gate, t, q, p, prob))
            && (r.success ==> exists q :: IsSource(c, gate, t, 0, p, r, q) && IsPlaneAt(c, t, r, q))
            && (forall q, prob {:trigger Passes(c, gate, t, q, p, prob)} :: Passes(c, gate, t, q, p, prob) ==>
               prob <= r.prob)
  {
    var r := Searched(c, gate, t, 0, p, NO_MATCH);
    SearchedIsBest(c, gate, t, 0, p, NO_MATCH);
    forall q, prob | Passes(c, gate, t, q, p, prob) ensures r.success && 0.0 < prob <= r.prob {
      assert q != [] ==> q[0] < 8;
      var f := FitAt(c, t, q);
      assert gate(f, p) == Some(prob);
    }
    if r.success {
      var q :| IsSource(c, gate, t, 0, p, r, q);
      ExposedIsAt(c, t, q);
      assert IsPlaneAt(c, t, r, q);
    }
  }
}
