// The adaptive voxel tree on values: when a node is fitted, split, refitted and frozen, and where a point goes.
module OctreeModel {
  import opened Basics

  datatype Vec3 = Vec3(x: real, y: real, z: real)

  // A point in the world frame with its covariance.
  datatype Sample = Sample(point: Vec3, variance: seq<seq<real>>)

  // What the plane fit of a list of points yields. The eigenvalue computation behind it is a parameter.
  datatype Fit = Fit(isPlane: bool, center: Vec3, normal: Vec3, d: real, radius: real)

  datatype Plane = Unfitted | Fitted(fit: Fit) {
    predicate IsPlane() {
      Fitted? && fit.isPlane
    }
  }

  datatype Config = Config(maxLayer: nat, maxPoints: nat, layerInit: seq<nat>, planeOf: seq<Sample> -> Fit) {
    predicate Valid() {
      |layerInit| > maxLayer
    }

    function Threshold(layer: nat): nat
      requires Valid() && layer <= maxLayer
    {
      layerInit[layer]
    }
  }

  const UPDATE_SIZE_THRESHOLD: int := 5

  datatype Node = Node(
    points: seq<Sample>, plane: Plane, layer: nat, octoState: int, leaves: seq<Option<Node>>,
    center: Vec3, quarter: real, newPoints: int, initialised: bool, updateEnabled: bool)

  function NoLeaves(): seq<Option<Node>> {
    [None, None, None, None, None, None, None, None]
  }

  function FreshNode(layer: nat, center: Vec3, quarter: real): Node {
    Node([], Unfitted, layer, 0, NoLeaves(), center, quarter, 0, false, true)
  }

  // ---------------------------------------------------------------- octants

  function Side(at: real, middle: real): int {
    if at > middle then 1 else 0
  }

  function Octant(center: Vec3, p: Vec3): (k: nat)
    ensures k < 8
  {
    4 * Side(p.x, center.x) + 2 * Side(p.y, center.y) + Side(p.z, center.z)
  }

  function Shift(side: int, at: real, quarter: real): real {
    if side == 1 then at + quarter else at - quarter
  }

  function ChildCenter(center: Vec3, quarter: real, k: nat): Vec3
    requires k < 8
  {
    Vec3(Shift(k / 4, center.x, quarter), Shift(k / 2 % 2, center.y, quarter), Shift(k % 2, center.z, quarter))
  }

  function FreshChild(t: Node, k: nat): Node
    requires k < 8
  {
    FreshNode(t.layer + 1, ChildCenter(t.center, t.quarter, k), t.quarter / 2.0)
  }

  function LeafOr(t: Node, k: nat): Node
    requires |t.leaves| == 8 && k < 8
  {
    if t.leaves[k].Some? then t.leaves[k].value else FreshChild(t, k)
  }

  // ---------------------------------------------------------------- what a tree looks like

  // The shape every node of a tree has: eight slots, layers counting up to the limit.
  ghost predicate WellShaped(c: Config, t: Node)
    decreases t
  {
    && c.Valid() && t.layer <= c.maxLayer && |t.leaves| == 8
    && (t.layer == c.maxLayer ==> forall k :: 0 <= k < 8 ==> t.leaves[k].None?)
    && (forall k :: 0 <= k < 8 && t.leaves[k].Some? ==>
          t.leaves[k].value.layer == t.layer + 1 && WellShaped(c, t.leaves[k].value))
  }

  // ---------------------------------------------------------------- fitting and splitting

  // One buffered point of a node that is being split goes to the leaf of its octant.
  function AddToLeaf(t: Node, p: Sample): (r: Node)
    requires |t.leaves| == 8
    ensures |r.leaves| == 8 && r == t.(leaves := r.leaves)
  {
    var k := Octant(t.center, p.point);
    var leaf := LeafOr(t, k);
    t.(leaves := t.leaves[k := Some(leaf.(points := leaf.points + [p], newPoints := leaf.newPoints + 1))])
  }

  function Distributed(t: Node, points: seq<Sample>): (r: Node)
    requires |t.leaves| == 8
    ensures |r.leaves| == 8 && r == t.(leaves := r.leaves)
  {
    if points == [] then t else AddToLeaf(Distributed(t, points[..|points| - 1]), points[|points| - 1])
  }

  lemma {:induction false} DistributedShape(c: Config, t: Node, points: seq<Sample>)
    requires WellShaped(c, t) && t.layer < c.maxLayer
    ensures WellShaped(c, Distributed(t, points))
  {
    if points != [] {
      DistributedShape(c, t, points[..|points| - 1]);
      var s, p := Distributed(t, points[..|points| - 1]), points[|points| - 1];
      var k := Octant(s.center, p.point);
      var leaf := LeafOr(s, k);
      assert WellShaped(c, leaf);
      assert WellShaped(c, leaf.(points := leaf.points + [p], newPoints := leaf.newPoints + 1));
    }
  }

  // The first n leaves fitted (those that hold enough points).
  function SettledLeaves(c: Config, t: Node, n: nat): (r: seq<Option<Node>>)
    requires WellShaped(c, t) && n <= 8 && t.layer < c.maxLayer
    ensures |r| == 8 && forall k :: n <= k < 8 ==> r[k] == t.leaves[k]
    ensures forall k :: 0 <= k < n ==>
              r[k] == if t.leaves[k].Some? then Some(Settled(c, t.leaves[k].value)) else None
    decreases c.maxLayer - t.layer, 0, n
  {
    if n == 0 then t.leaves
    else
      var r := SettledLeaves(c, t, n - 1);
      if t.leaves[n - 1].Some? then r[n - 1 := Some(Settled(c, t.leaves[n - 1].value))] else r
  }

  // A node that is not planar hands its points to its leaves, unless it is at the last layer.
  function Cut(c: Config, t: Node): (r: Node)
    requires WellShaped(c, t)
    ensures |r.leaves| == 8 && r == t.(octoState := r.octoState, leaves := r.leaves)
    decreases c.maxLayer - t.layer, 1, 0
  {
    if t.layer >= c.maxLayer then t.(octoState := 0)
    else
      DistributedShape(c, t, t.points);
      var s := Distributed(t, t.points);
      s.(leaves := SettledLeaves(c, s, 8))
  }

  // A node with more points than its threshold is fitted: kept as a plane (frozen at once if it has too
  // many points) or split.
  function Settled(c: Config, t: Node): (r: Node)
    requires WellShaped(c, t)
    ensures |r.leaves| == 8
    decreases c.maxLayer - t.layer, 2, 0
  {
    if |t.points| <= c.Threshold(t.layer) then t
    else
      var fit := c.planeOf(t.points);
      if fit.isPlane then
        var frozen := |t.points| > c.maxPoints;
        t.(plane := Fitted(fit), octoState := 0, initialised := true, newPoints := 0,
           updateEnabled := t.updateEnabled && !frozen, points := if frozen then [] else t.points)
      else
        Cut(c, t.(plane := Fitted(fit), octoState := 1)).(initialised := true, newPoints := 0)
  }

  // ---------------------------------------------------------------- adding a point

  // Buffer the point; refit after more than five new ones; freeze when the buffer is `full`.
  function Buffered(c: Config, t: Node, p: Sample, full: int): Node
  {
    var points := t.points + [p];
    var refit := t.newPoints + 1 > UPDATE_SIZE_THRESHOLD;
    var frozen := |points| >= full;
    t.(points := if frozen then [] else points,
       plane := if refit then Fitted(c.planeOf(points)) else t.plane,
       newPoints := if refit || frozen then 0 else t.newPoints + 1,
       updateEnabled := t.updateEnabled && !frozen)
  }

  function Updated(c: Config, t: Node, p: Sample): (r: Node)
    requires WellShaped(c, t)
    ensures |r.leaves| == 8
    decreases c.maxLayer - t.layer
  {
    if !t.initialised then
      Settled(c, t.(points := t.points + [p], newPoints := t.newPoints + 1))
    else if t.plane.IsPlane() then
      if t.updateEnabled then Buffered(c, t, p, c.maxPoints) else t
    else if t.layer < c.maxLayer then
      var k := Octant(t.center, p.point);
      assert WellShaped(c, LeafOr(t, k));
      t.(leaves := t.leaves[k := Some(Updated(c, LeafOr(t, k), p))])
    else
      if t.updateEnabled then Buffered(c, t, p, c.maxPoints + 1) else t
  }

  // ---------------------------------------------------------------- shape is kept

  lemma {:induction false} CutShape(c: Config, t: Node)
    requires WellShaped(c, t)
    ensures WellShaped(c, Cut(c, t))
    decreases c.maxLayer - t.layer, 0
  {
    if t.layer < c.maxLayer {
      DistributedShape(c, t, t.points);
      var s := Distributed(t, t.points);
      forall k | 0 <= k < 8 && s.leaves[k].Some?
        ensures WellShaped(c, Settled(c, s.leaves[k].value)) && Settled(c, s.leaves[k].value).layer == s.layer + 1
      {
        SettledShape(c, s.leaves[k].value);
      }
    }
  }

  lemma {:induction false} SettledShape(c: Config, t: Node)
    requires WellShaped(c, t)
    ensures WellShaped(c, Settled(c, t)) && Settled(c, t).layer == t.layer
    decreases c.maxLayer - t.layer, 1
  {
    if |t.points| > c.Threshold(t.layer) && !c.planeOf(t.points).isPlane {
      CutShape(c, t.(plane := Fitted(c.planeOf(t.points)), octoState := 1));
    }
  }

  lemma {:induction false} UpdatedShape(c: Config, t: Node, p: Sample)
    requires WellShaped(c, t)
    ensures WellShaped(c, Updated(c, t, p)) && Updated(c, t, p).layer == t.layer
    decreases c.maxLayer - t.layer
  {
    if !t.initialised {
      SettledShape(c, t.(points := t.points + [p], newPoints := t.newPoints + 1));
    } else if !t.plane.IsPlane() && t.layer < c.maxLayer {
      var k := Octant(t.center, p.point);
      assert WellShaped(c, LeafOr(t, k));
      UpdatedShape(c, LeafOr(t, k), p);
    }
  }
}
