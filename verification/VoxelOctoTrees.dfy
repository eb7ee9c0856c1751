// The octree node as it is kept in memory: buffers, flags and leaves are changed in place.
module VoxelOctoTrees {
  import opened Basics
  import opened OctreeModel
  import opened OctreeCache

  class VoxelOctoTree {
    const config: Config
    const layer: nat
    const center: Vec3
    const quarter: real
    var tempPoints: seq<Sample>
    var plane: Plane
    var octoState: int
    var leaves: seq<VoxelOctoTree?>
    var newPoints: int
    var initOcto: bool
    var updateEnable: bool

    // The nodes of this subtree, and the subtree as a value.
    ghost var Repr: set<object>
    ghost var view: Node

    // The fields of this node are those of its view.
    ghost predicate OwnFields()
      reads this
    {
      && config.Valid() && layer <= config.maxLayer && |leaves| == 8 && |view.leaves| == 8
      && view ==
           Node(tempPoints, plane, layer, octoState, view.leaves, center, quarter, newPoints, initOcto, updateEnable)
      && (layer == config.maxLayer ==> forall k :: 0 <= k < 8 ==> leaves[k] == null)
    }

    // All slots but number `but` hold separate valid leaves with the right views.
    ghost predicate ValidBut(but: int)
      reads this, Repr
      decreases Repr
    {
      && this in Repr && OwnFields()
      && (forall k :: 0 <= k < 8 && k != but && leaves[k] != null ==>
            && leaves[k] in Repr && leaves[k] in leaves[k].Repr && leaves[k].Repr < Repr
            && this !in leaves[k].Repr && leaves[k].config == config && leaves[k].layer == layer + 1
            && leaves[k].ValidBut(8))
      && (forall k :: 0 <= k < 8 && k != but ==>
            view.leaves[k] == if leaves[k] == null then None else Some(leaves[k].view))
      && (forall j, k :: 0 <= j < k < 8 && j != but && k != but && leaves[j] != null && leaves[k] != null ==>
            leaves[j].Repr !! leaves[k].Repr)
    }

    ghost predicate Valid()
      reads this, Repr
    {
      ValidBut(8)
    }

    ghost predicate IsLeaf(leaf: VoxelOctoTree)
      reads leaf, leaf.Repr
    {
      leaf.Valid() && leaf.config == config && leaf.layer == layer + 1 && this !in leaf.Repr
    }

    // The leaf is apart from those in all slots but number k.
    ghost predicate Apart(leaf: VoxelOctoTree, k: nat)
      requires |leaves| == 8
      reads this, leaf, leaves
    {
      forall i :: 0 <= i < 8 && i != k && leaves[i] != null ==> leaves[i].Repr !! leaf.Repr
    }

    constructor (config: Config, layer: nat, center: Vec3, quarter: real)
      requires config.Valid() && layer <= config.maxLayer
      ensures Valid() && fresh(Repr) && view == FreshNode(layer, center, quarter)
      ensures this.config == config && this.layer == layer
    {
      this.config, this.layer, this.center, this.quarter := config, layer, center, quarter;
      tempPoints, plane, octoState := [], Unfitted, 0;
      leaves := [null, null, null, null, null, null, null, null];
      newPoints, initOcto, updateEnable := 0, false, true;
      Repr := {this};
      view := FreshNode(layer, center, quarter);
    }

    // The view of a valid node has the shape of a tree.
    lemma {:induction false} ViewIsShaped()
      requires Valid()
      ensures WellShaped(config, view) && view.layer == layer
      decreases Repr
    {
      forall k | 0 <= k < 8 && view.leaves[k].Some?
        ensures view.leaves[k].value.layer == layer + 1 && WellShaped(config, view.leaves[k].value)
      {
        leaves[k].ViewIsShaped();
      }
    }

    // ---------------------------------------------------------------- leaves

    // The leaf in slot k, or a new one for that octant.
    method LeafAt(k: nat) returns (leaf: VoxelOctoTree)
      requires Valid() && k < 8 && layer < config.maxLayer
      ensures IsLeaf(leaf) && Apart(leaf, k) && leaf.view == LeafOr(view, k)
      ensures fresh(leaf.Repr) || (leaves[k] == leaf && leaf.Repr < Repr)
    {
      if leaves[k] != null {
        leaf := leaves[k];
      } else {
        leaf := new VoxelOctoTree(config, layer + 1, ChildCenter(center, quarter, k), quarter / 2.0);
      }
    }

    // A leaf that was changed, or is new, is put in slot k.
    method Attach(k: nat, leaf: VoxelOctoTree)
      requires k < 8 && layer < config.maxLayer && ValidBut(k) && IsLeaf(leaf) && Apart(leaf, k)
      modifies this
      ensures Valid() && Repr == old(Repr) + leaf.Repr
      ensures view == old(view).(leaves := old(view).leaves[k := Some(leaf.view)])
    {
      leaves := leaves[k := leaf];
      Repr := Repr + leaf.Repr;
      view := view.(leaves := view.leaves[k := Some(leaf.view)]);
    }

    // Buffer one more point.
    method Take(p: Sample)
      requires Valid()
      modifies this
      ensures Valid() && Repr == old(Repr)
      ensures view == old(view).(points := old(view).points + [p], newPoints := old(view).newPoints + 1)
    {
      tempPoints, newPoints := tempPoints + [p], newPoints + 1;
      view := view.(points := tempPoints, newPoints := newPoints);
    }

    // The same for a node that belongs to another.
    method Receive(p: Sample)
      requires Valid()
      modifies Repr
      ensures Valid() && Repr == old(Repr)
      ensures view == old(view).(points := old(view).points + [p], newPoints := old(view).newPoints + 1)
    {
      Take(p);
    }

    method GiveToLeaf(p: Sample)
      requires Valid() && layer < config.maxLayer
      modifies Repr
      ensures Valid() && fresh(Repr - old(Repr)) && view == AddToLeaf(old(view), p)
    {
      var k := Octant(center, p.point);
      var leaf := LeafAt(k);
      leaf.Receive(p);
      Attach(k, leaf);
    }

    // ---------------------------------------------------------------- fitting and splitting

    method InitPlane()
      requires Valid()
      modifies this
      ensures Valid() && Repr == old(Repr)
      ensures view == old(view).(plane := Fitted(config.planeOf(old(view).points)))
    {
      plane := Fitted(config.planeOf(tempPoints));
      view := view.(plane := plane);
    }

    // Too many points: no more updates, and the buffer is emptied.
    method Freeze()
      requires Valid()
      modifies this
      ensures Valid() && Repr == old(Repr)
      ensures view == old(view).(updateEnabled := false, points := [], newPoints := 0)
    {
      updateEnable, tempPoints, newPoints := false, [], 0;
      view := view.(updateEnabled := false, points := [], newPoints := 0);
    }

    method Mark(state: int, initialised: bool, recent: int)
      requires Valid()
      modifies this
      ensures Valid() && Repr == old(Repr)
      ensures view == old(view).(octoState := state, initialised := initialised, newPoints := recent)
    {
      octoState, initOcto, newPoints := state, initialised, recent;
      view := view.(octoState := state, initialised := initialised, newPoints := recent);
    }

    method InitOctoTree()
      requires Valid() && WellShaped(config, view)
      modifies Repr
      ensures Valid() && fresh(Repr - old(Repr)) && view == Settled(config, old(view))
      decreases config.maxLayer - layer, 2
    {
      if |tempPoints| > config.Threshold(layer) {
        InitPlane();
        if plane.IsPlane() {
          Mark(0, initOcto, newPoints);
          if |tempPoints| > config.maxPoints {
            Freeze();
          }
        } else {
          Mark(1, initOcto, newPoints);
          CutOctoTree();
        }
        Mark(octoState, true, 0);
      }
    }

    // Splits the node. When a leaf is frozen on the way, it is this node's count of new points that is reset.
    method CutOctoTree()
      requires Valid() && WellShaped(config, view)
      modifies Repr
      ensures Valid() && fresh(Repr - old(Repr))
      ensures view == Cut(config, old(view)).(newPoints := view.newPoints)
      decreases config.maxLayer - layer, 1
    {
      if layer >= config.maxLayer {
        Mark(0, initOcto, newPoints);
        return;
      }
      GiveAllToLeaves();
      ghost var split := view;
      DistributedShape(config, old(view), old(view).points);
      var i := 0;
      while i < 8
        invariant 0 <= i <= 8 && Valid() && fresh(Repr - old(Repr))
        invariant view == split.(leaves := SettledLeaves(config, split, i), newPoints := view.newPoints)
      {
        if leaves[i] != null {
          SettleLeaf(i);
        }
        i := i + 1;
      }
    }

    method GiveAllToLeaves()
      requires Valid() && layer < config.maxLayer
      modifies Repr
      ensures Valid() && fresh(Repr - old(Repr)) && view == Distributed(old(view), old(view).points)
    {
      var i := 0;
      while i < |tempPoints|
        invariant 0 <= i <= |tempPoints| && Valid() && fresh(Repr - old(Repr)) && tempPoints == old(tempPoints)
        invariant view == Distributed(old(view), tempPoints[..i])
      {
        assert tempPoints[..i + 1][..i] == tempPoints[..i];
        GiveToLeaf(tempPoints[i]);
        i := i + 1;
      }
      assert tempPoints[..i] == tempPoints;
    }

    method SettleLeaf(k: nat)
      requires Valid() && k < 8 && leaves[k] != null && layer < config.maxLayer && WellShaped(config, leaves[k].view)
      modifies Repr
      ensures Valid() && fresh(Repr - old(Repr))
      ensures view == old(view).(leaves := old(view).leaves[k := Some(Settled(config, old(view).leaves[k].value))],
                                 newPoints := view.newPoints)
      decreases config.maxLayer - layer, 0
    {
      var leaf := leaves[k];
      leaf.InitOctoTree();
      Attach(k, leaf);
      if leaf.initOcto && leaf.plane.IsPlane() && !leaf.updateEnable {
        Mark(octoState, initOcto, 0);
      }
    }

    // ---------------------------------------------------------------- adding a point

    // Buffer the point; refit after more than five new ones; freeze once `full` points are buffered.
    method BufferPoint(p: Sample, full: int)
      requires Valid()
      modifies this
      ensures Valid() && Repr == old(Repr) && view == Buffered(config, old(view), p, full)
    {
      Take(p);
      if newPoints > UPDATE_SIZE_THRESHOLD {
        InitPlane();
        Mark(octoState, initOcto, 0);
      }
      if |tempPoints| >= full {
        Freeze();
      }
    }

    method UpdateOctoTree(p: Sample)
      requires Valid() && WellShaped(config, view)
      modifies Repr
      ensures Valid() && fresh(Repr - old(Repr)) && view == Updated(config, old(view), p)
      decreases config.maxLayer - layer, 1
    {
      if !initOcto {
        Take(p);
        if |tempPoints| > config.Threshold(layer) {
          InitOctoTree();
        }
      } else if plane.IsPlane() {
        if updateEnable {
          BufferPoint(p, config.maxPoints);
        }
      } else if layer < config.maxLayer {
        UpdateLeaf(p);
      } else if updateEnable {
        BufferPoint(p, config.maxPoints + 1);
      }
    }

    method UpdateLeaf(p: Sample)
      requires Valid() && layer < config.maxLayer && WellShaped(config, view)
      requires initOcto && !plane.IsPlane()
      modifies Repr
      ensures Valid() && fresh(Repr - old(Repr)) && view == Updated(config, old(view), p)
      decreases config.maxLayer - layer, 0
    {
      var k := Octant(center, p.point);
      var leaf := LeafAt(k);
      leaf.ViewIsShaped();
      leaf.UpdateOctoTree(p);
      Attach(k, leaf);
    }

    // The node a point belongs to.
    method FindCorrespond(p: Vec3) returns (r: VoxelOctoTree)
      requires Valid() && WellShaped(config, view)
      ensures r in Repr && r.config == config && r.Valid()
      ensures At(config, view, Located(config, view, p)) == Some(r.view)
      decreases config.maxLayer - layer
    {
      if !initOcto || plane.IsPlane() || layer >= config.maxLayer {
        return this;
      }
      var k := Octant(center, p);
      if leaves[k] == null {
        return this;
      }
      r := leaves[k].FindCorrespond(p);
      assert Located(config, view, p)[1..] == Located(config, leaves[k].view, p);
    }
  }
}
