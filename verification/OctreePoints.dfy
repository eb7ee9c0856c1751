// Where points end up in an adaptive voxel tree: splitting hands each one to the leaf of its octant, in order,
// and a point just added is the newest one of the node its lookup finds, unless that node is frozen.
module OctreePoints {
  import opened OctreeModel
  import opened OctreeCache

  // The points of a list that fall into one octant, in order.
  function InOctant(center: Vec3, points: seq<Sample>, k: nat): seq<Sample> {
    if points == [] then []
    else
      var p := points[|points| - 1];
      InOctant(center, points[..|points| - 1], k) + if Octant(center, p.point) == k then [p] else []
  }

  // Leaf k of a split node is there if it was or if some point falls into its octant, and it gets exactly those.
  lemma {:induction false} DistributedByOctant(t: Node, points: seq<Sample>, k: nat)
    requires |t.leaves| == 8 && k < 8
    ensures var s, own := Distributed(t, points), InOctant(t.center, points, k);
            && (s.leaves[k].Some? <==> t.leaves[k].Some? || own != [])
            && LeafOr(s, k) == LeafOr(t, k).(points := LeafOr(t, k).points + own,
                                             newPoints := LeafOr(t, k).newPoints + |own|)
  {
    var had := LeafOr(t, k).points;
    if points == [] {
      assert had + [] == had;
    } else {
      var front, p := points[..|points| - 1], points[|points| - 1];
      DistributedByOctant(t, front, k);
      var own := InOctant(t.center, front, k);
      assert (had + own) + [p] == had + (own + [p]) && own + [] == own;
    }
  }

  ghost predicate EndsWith(points: seq<Sample>, p: Sample) {
    points != [] && points[|points| - 1] == p
  }

  // The node the lookup of p finds holds p as its newest point, or is frozen.
  ghost predicate KeptOrFrozen(c: Config, t: Node, p: Sample)
    requires WellShaped(c, t)
  {
    var u := At(c, t, Located(c, t, p.point));
    u.Some? && (u.value.updateEnabled ==> EndsWith(u.value.points, p))
  }

  lemma KeptBelow(c: Config, t: Node, p: Sample, k: nat)
    requires WellShaped(c, t) && t.initialised && !t.plane.IsPlane() && t.layer < c.maxLayer
    requires k == Octant(t.center, p.point) && t.leaves[k].Some? && KeptOrFrozen(c, t.leaves[k].value, p)
    ensures KeptOrFrozen(c, t, p)
  {
    var q := Located(c, t.leaves[k].value, p.point);
    assert ([k] + q)[1..] == q;
  }

  lemma NewestIsDistributed(t: Node, points: seq<Sample>, p: Sample)
    requires |t.leaves| == 8 && EndsWith(points, p)
    ensures var k := Octant(t.center, p.point);
            && Distributed(t, points).leaves[k].Some? && EndsWith(Distributed(t, points).leaves[k].value.points, p)
  {
    var k := Octant(t.center, p.point);
    DistributedByOctant(t, points, k);
  }

  lemma {:induction false} SettledKeepsNewest(c: Config, t: Node, p: Sample)
    requires WellShaped(c, t) && Growing(t) && EndsWith(t.points, p)
    ensures WellShaped(c, Settled(c, t)) && KeptOrFrozen(c, Settled(c, t), p)
    decreases c.maxLayer - t.layer
  {
    SettledShape(c, t);
    if |t.points| > c.Threshold(t.layer) && !c.planeOf(t.points).isPlane && t.layer < c.maxLayer {
      var u := t.(plane := Fitted(c.planeOf(t.points)), octoState := 1);
      DistributedShape(c, u, u.points);
      DistributedGrows(u, u.points);
      NewestIsDistributed(u, u.points, p);
      var k := Octant(t.center, p.point);
      SettledKeepsNewest(c, Distributed(u, u.points).leaves[k].value, p);
      KeptBelow(c, Settled(c, t), p, k);
    }
  }

  // No point is lost: right after it was added, the lookup finds a node that holds it as its newest point, or
  // a frozen one.
  lemma {:induction false} AddedPointIsKept(c: Config, t: Node, p: Sample)
    requires WellShaped(c, t) && (CacheHolds(c, t) || Growing(t))
    ensures WellShaped(c, Updated(c, t, p)) && KeptOrFrozen(c, Updated(c, t, p), p)
    decreases c.maxLayer - t.layer
  {
    UpdatedShape(c, t, p);
    if !t.initialised {
      SettledKeepsNewest(c, t.(points := t.points + [p], newPoints := t.newPoints + 1), p);
    } else if !t.plane.IsPlane() && t.layer < c.maxLayer {
      var k := Octant(t.center, p.point);
      assert WellShaped(c, LeafOr(t, k));
      AddedPointIsKept(c, LeafOr(t, k), p);
      KeptBelow(c, Updated(c, t, p), p, k);
    }
  }
}
