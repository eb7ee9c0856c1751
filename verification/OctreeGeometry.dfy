// The cubes of an adaptive voxel tree: every leaf is an octant of its parent and every buffered point lies in
// the closed cube of the node that buffers it.
module OctreeGeometry {
  import opened Basics
  import opened OctreeModel

  ghost predicate Near(at: real, middle: real, half: real) {
    middle - half <= at <= middle + half
  }

  ghost predicate InBox(center: Vec3, half: real, p: Vec3) {
    Near(p.x, center.x, half) && Near(p.y, center.y, half) && Near(p.z, center.z, half)
  }

  ghost predicate InCube(t: Node, p: Vec3) {
    InBox(t.center, 2.0 * t.quarter, p)
  }

  ghost predicate PointsInside(t: Node) {
    forall i :: 0 <= i < |t.points| ==> InCube(t, t.points[i].point)
  }

  // Leaf k of t is octant k of the cube of t.
  ghost predicate IsOctant(t: Node, k: nat, leaf: Node)
    requires k < 8
  {
    leaf.center == ChildCenter(t.center, t.quarter, k) && leaf.quarter == t.quarter / 2.0
  }

  ghost predicate Framed(c: Config, t: Node)
    requires WellShaped(c, t)
    decreases t
  {
    && t.quarter > 0.0 && PointsInside(t)
    && (forall k :: 0 <= k < 8 && t.leaves[k].Some? ==>
          IsOctant(t, k, t.leaves[k].value) && Framed(c, t.leaves[k].value))
  }

  // A number in an interval lies in the closed half it is sent to.
  lemma SideHolds(at: real, middle: real, quarter: real)
    requires Near(at, middle, 2.0 * quarter)
    ensures Near(at, Shift(Side(at, middle), middle, quarter), quarter)
  {
  }

  // A point in a cube lies in the closed octant it is sent to.
  lemma PointInOctant(t: Node, p: Vec3)
    requires InCube(t, p)
    ensures InCube(FreshChild(t, Octant(t.center, p)), p)
  {
    var k := Octant(t.center, p);
    assert k / 4 == Side(p.x, t.center.x) && k / 2 % 2 == Side(p.y, t.center.y) && k % 2 == Side(p.z, t.center.z);
    SideHolds(p.x, t.center.x, t.quarter);
    SideHolds(p.y, t.center.y, t.quarter);
    SideHolds(p.z, t.center.z, t.quarter);
    assert 2.0 * (t.quarter / 2.0) == t.quarter;
  }

  // Only cube, points and leaves matter.
  lemma SameFrame(c: Config, t: Node, u: Node)
    requires WellShaped(c, t) && Framed(c, t) && WellShaped(c, u)
    requires u.center == t.center && u.quarter == t.quarter && u.leaves == t.leaves && PointsInside(u)
    ensures Framed(c, u)
  {
  }

  lemma LeafOrFramed(c: Config, t: Node, p: Vec3)
    requires WellShaped(c, t) && t.layer < c.maxLayer && Framed(c, t) && InCube(t, p)
    ensures var leaf := LeafOr(t, Octant(t.center, p));
            WellShaped(c, leaf) && Framed(c, leaf) && InCube(leaf, p) && IsOctant(t, Octant(t.center, p), leaf)
  {
    PointInOctant(t, p);
    var k := Octant(t.center, p);
    assert Framed(c, FreshChild(t, k));
  }

  lemma AddedFramed(c: Config, s: Node, p: Sample)
    requires WellShaped(c, s) && s.layer < c.maxLayer && Framed(c, s) && InCube(s, p.point)
    requires WellShaped(c, AddToLeaf(s, p))
    ensures Framed(c, AddToLeaf(s, p))
  {
    LeafOrFramed(c, s, p.point);
    var leaf := LeafOr(s, Octant(s.center, p.point));
    SameFrame(c, leaf, leaf.(points := leaf.points + [p], newPoints := leaf.newPoints + 1));
  }

  lemma {:induction false} DistributedFramed(c: Config, t: Node, points: seq<Sample>)
    requires WellShaped(c, t) && t.layer < c.maxLayer && Framed(c, t)
    requires forall i :: 0 <= i < |points| ==> InCube(t, points[i].point)
    ensures WellShaped(c, Distributed(t, points)) && Framed(c, Distributed(t, points))
  {
    DistributedShape(c, t, points);
    if points != [] {
      var front := points[..|points| - 1];
      DistributedShape(c, t, front);
      DistributedFramed(c, t, front);
      AddedFramed(c, Distributed(t, front), points[|points| - 1]);
    }
  }

  lemma {:induction false} CutFramed(c: Config, t: Node)
    requires WellShaped(c, t) && Framed(c, t)
    ensures WellShaped(c, Cut(c, t)) && Framed(c, Cut(c, t))
    decreases c.maxLayer - t.layer, 0
  {
    CutShape(c, t);
    if t.layer >= c.maxLayer {
      SameFrame(c, t, Cut(c, t));
    } else {
      DistributedShape(c, t, t.points);
      DistributedFramed(c, t, t.points);
      var s := Distributed(t, t.points);
      forall k | 0 <= k < 8 && s.leaves[k].Some?
        ensures WellShaped(c, Settled(c, s.leaves[k].value)) && Framed(c, Settled(c, s.leaves[k].value))
        ensures IsOctant(s, k, Settled(c, s.leaves[k].value))
      {
        SettledFramed(c, s.leaves[k].value);
      }
    }
  }

  lemma {:induction false} SettledFramed(c: Config, t: Node)
    requires WellShaped(c, t) && Framed(c, t)
    ensures WellShaped(c, Settled(c, t)) && Framed(c, Settled(c, t))
    ensures Settled(c, t).center == t.center && Settled(c, t).quarter == t.quarter
    decreases c.maxLayer - t.layer, 1
  {
    SettledShape(c, t);
    if |t.points| > c.Threshold(t.layer) {
      var u := t.(plane := Fitted(c.planeOf(t.points)), octoState := 1);
      if c.planeOf(t.points).isPlane {
        SameFrame(c, t, Settled(c, t));
      } else {
        SameFrame(c, t, u);
        CutFramed(c, u);
        SameFrame(c, Cut(c, u), Settled(c, t));
      }
    }
  }

  lemma LeafReplaced(c: Config, t: Node, k: nat, leaf: Node)
    requires WellShaped(c, t) && Framed(c, t) && t.layer < c.maxLayer && k < 8
    requires WellShaped(c, leaf) && leaf.layer == t.layer + 1 && Framed(c, leaf) && IsOctant(t, k, leaf)
    ensures WellShaped(c, t.(leaves := t.leaves[k := Some(leaf)])) && Framed(c, t.(leaves := t.leaves[k := Some(leaf)]))
  {
  }

  // Adding a point that lies in the root cube keeps every cube and every point in place.
  lemma {:induction false} UpdatedFramed(c: Config, t: Node, p: Sample)
    requires WellShaped(c, t) && Framed(c, t) && InCube(t, p.point)
    ensures WellShaped(c, Updated(c, t, p)) && Framed(c, Updated(c, t, p))
    ensures Updated(c, t, p).center == t.center && Updated(c, t, p).quarter == t.quarter
    decreases c.maxLayer - t.layer
  {
    UpdatedShape(c, t, p);
    if !t.initialised {
      var u := t.(points := t.points + [p], newPoints := t.newPoints + 1);
      assert WellShaped(c, u);
      SameFrame(c, t, u);
      SettledFramed(c, u);
    } else if !t.plane.IsPlane() && t.layer < c.maxLayer {
      LeafOrFramed(c, t, p.point);
      var k := Octant(t.center, p.point);
      UpdatedFramed(c, LeafOr(t, k), p);
      LeafReplaced(c, t, k, Updated(c, LeafOr(t, k), p));
    } else {
      SameFrame(c, t, Updated(c, t, p));
    }
  }
}
