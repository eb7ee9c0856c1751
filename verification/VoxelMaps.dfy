// The voxel map manager: a table of octrees that is built once and then updated scan by scan, and the search
// for the best plane of a tree.
module VoxelMaps {
  import opened OctreeModel
  import opened OctreeCache
  import opened VoxelForest
  import opened VoxelOctoTrees

  // Storing or adding a point, after the root of its voxel is made sure of.
  lemma StoredInTwoSteps(m: Forest, p: Sample, size: real)
    requires size > 0.0
    ensures var key := KeyOf(p.point, size);
            var n := m[key := RootOr(m, key, size)];
            n[key := Joined(n[key], p)] == Stored(m, p, size)
  {
  }

  lemma UpdatedInTwoSteps(c: Config, m: Forest, p: Sample, size: real)
    requires ShapedForest(c, m) && size > 0.0
    ensures var key := KeyOf(p.point, size);
            var n := m[key := RootOr(m, key, size)];
            WellShaped(c, n[key]) && n[key := Updated(c, n[key], p)] == UpdatedMap(c, m, p, size)
  {
    RootIsShaped(c, KeyOf(p.point, size), size);
  }

  // All trees are settled but those that are left.
  ghost predicate SettledBut(c: Config, start: Forest, m: Forest, left: set<Key>)
    requires ShapedForest(c, start)
  {
    left <= start.Keys && m == map k | k in start :: if k in left then start[k] else Settled(c, start[k])
  }

  lemma SettledOfAll(c: Config, start: Forest, left: set<Key>)
    requires ShapedForest(c, start) && left == start.Keys
    ensures SettledBut(c, start, start, left)
  {
  }

  lemma SettledOneMore(c: Config, start: Forest, m: Forest, left: set<Key>, key: Key)
    requires ShapedForest(c, start) && SettledBut(c, start, m, left) && key in left
    ensures key in m && m[key] == start[key] && SettledBut(c, start, m[key := Settled(c, m[key])], left - {key})
  {
  }

  lemma SettledIsBuilt(c: Config, start: Forest, points: seq<Sample>, size: real, m: Forest)
    requires ShapedForest(c, start) && size > 0.0 && ShapedForest(c, StoredAll(start, points, size))
    requires SettledBut(c, StoredAll(start, points, size), m, {})
    ensures m == Built(c, start, points, size)
  {
  }

  class VoxelMapManager {
    const config: Config
    const size: real
    var voxelMap: map<Key, VoxelOctoTree>

    // The nodes of all trees, and the table as a value.
    ghost var Nodes: set<object>
    ghost var view: Forest

    // A tree of the table, with the view recorded for it.
    ghost predicate Holds(k: Key)
      requires k in voxelMap && k in view
      reads this, Nodes
    {
      && voxelMap[k] in Nodes && voxelMap[k].Repr <= Nodes
      && voxelMap[k].config == config && voxelMap[k].layer == 0
      && voxelMap[k].Valid() && voxelMap[k].view == view[k]
    }

    // The trees are separate: no node belongs to two of them.
    ghost predicate Separate(j: Key, k: Key)
      requires j in voxelMap && k in voxelMap
      reads this, voxelMap.Values
    {
      voxelMap[j].Repr !! voxelMap[k].Repr
    }

    ghost predicate Valid()
      reads this, Nodes
    {
      && config.Valid() && size > 0.0 && this !in Nodes && voxelMap.Keys == view.Keys
      && (forall k :: k in voxelMap ==> Holds(k))
      && (forall j, k :: j in voxelMap && k in voxelMap && j != k ==> Separate(j, k))
    }

    constructor (config: Config, size: real)
      requires config.Valid() && size > 0.0
      ensures Valid() && Nodes == {} && view == map[] && this.config == config && this.size == size
    {
      this.config, this.size, voxelMap := config, size, map[];
      Nodes, view := {}, map[];
    }

    // The view of a valid table has only well-shaped trees.
    lemma ViewIsShaped()
      requires Valid()
      ensures ShapedForest(config, view)
    {
      forall k | k in view ensures WellShaped(config, view[k]) && view[k].layer == 0 {
        assert Holds(k);
        voxelMap[k].ViewIsShaped();
      }
    }

    // ---------------------------------------------------------------- one tree

    twostate predicate Added(key: Key)
      requires key in voxelMap
      reads this, Nodes, voxelMap.Values
    {
      && key !in old(voxelMap) && voxelMap == old(voxelMap)[key := voxelMap[key]]
      && view == old(view)[key := voxelMap[key].view]
      && fresh(voxelMap[key].Repr) && this !in voxelMap[key].Repr && Nodes == old(Nodes) + voxelMap[key].Repr
      && unchanged(old(Nodes))
    }

    twostate lemma OldHold(key: Key)
      requires old(Valid()) && key in voxelMap && Added(key)
      ensures voxelMap.Keys == view.Keys && forall k :: k in old(voxelMap) ==> Holds(k)
    {
    }

    twostate lemma NewIsSeparate(key: Key)
      requires old(Valid()) && key in voxelMap && Added(key)
      ensures forall j, k :: j in voxelMap && k in voxelMap && j != k ==> Separate(j, k)
    {
    }

    // A new tree that shares nothing with the others leaves the table valid.
    twostate lemma RootAdded(key: Key)
      requires old(Valid()) && key in voxelMap && Added(key)
      requires voxelMap[key].Valid() && voxelMap[key].config == config && voxelMap[key].layer == 0
      ensures Valid()
    {
      OldHold(key);
      NewIsSeparate(key);
    }

    method NewRoot(key: Key) returns (octoTree: VoxelOctoTree)
      requires config.Valid()
      ensures octoTree.Valid() && fresh(octoTree.Repr) && octoTree.view == RootOf(key, size)
      ensures octoTree.config == config && octoTree.layer == 0
    {
      octoTree := new VoxelOctoTree(config, 0, RootOf(key, size).center, size / 4.0);
    }

    method AddRoot(key: Key)
      requires Valid() && key !in voxelMap
      modifies this
      ensures Valid() && fresh(Nodes - old(Nodes)) && view == old(view)[key := RootOf(key, size)] && key in voxelMap
    {
      var octoTree := NewRoot(key);
      voxelMap := voxelMap[key := octoTree];
      Nodes, view := Nodes + octoTree.Repr, view[key := octoTree.view];
      RootAdded(key);
    }

    method EnsureRoot(key: Key)
      requires Valid()
      modifies this
      ensures Valid() && fresh(Nodes - old(Nodes)) && key in voxelMap
      ensures view == old(view)[key := RootOr(old(view), key, size)]
    {
      if key !in voxelMap {
        AddRoot(key);
      } else {
        assert view == view[key := view[key]];
      }
    }

    // The tree of `key` was changed, and nothing else of the table.
    twostate predicate Changed(key: Key)
      requires key in voxelMap
      reads this, Nodes, voxelMap.Values
    {
      && voxelMap == old(voxelMap) && Nodes == old(Nodes) + voxelMap[key].Repr
      && view == old(view)[key := voxelMap[key].view]
      && fresh(voxelMap[key].Repr - old(voxelMap[key].Repr))
      && unchanged(old(Nodes) - old(voxelMap[key].Repr))
    }

    twostate lemma OthersHold(key: Key)
      requires old(Valid()) && key in voxelMap && Changed(key)
      ensures voxelMap.Keys == view.Keys && forall k :: k in voxelMap && k != key ==> Holds(k)
    {
      assert key in old(voxelMap);
    }

    twostate lemma AllSeparate(key: Key)
      requires old(Valid()) && key in voxelMap && Changed(key)
      ensures forall j, k :: j in voxelMap && k in voxelMap && j != k ==> Separate(j, k)
    {
      assert key in old(voxelMap);
    }

    twostate lemma ChangedHolds(key: Key)
      requires old(Valid()) && key in voxelMap && Changed(key) && voxelMap[key].Valid()
      ensures key in view && Holds(key)
    {
      assert key in old(voxelMap);
    }

    // Then the table is valid again if that tree is.
    twostate lemma Rejoined(key: Key)
      requires old(Valid()) && key in voxelMap && Changed(key) && voxelMap[key].Valid()
      ensures Valid()
    {
      OthersHold(key);
      AllSeparate(key);
      ChangedHolds(key);
    }

    method StorePoint(key: Key, p: Sample)
      requires Valid() && key in voxelMap
      modifies this, Nodes
      ensures Valid() && fresh(Nodes - old(Nodes)) && voxelMap == old(voxelMap)
      ensures view == old(view)[key := Joined(old(view)[key], p)]
    {
      assert Holds(key);
      voxelMap[key].Receive(p);
      assert voxelMap[key].view == Joined(old(voxelMap[key].view), p);
      Nodes, view := Nodes + voxelMap[key].Repr, view[key := voxelMap[key].view];
      Rejoined(key);
    }

    method UpdateTree(key: Key, p: Sample)
      requires Valid() && key in voxelMap && WellShaped(config, view[key])
      modifies this, Nodes
      ensures Valid() && fresh(Nodes - old(Nodes)) && voxelMap == old(voxelMap)
      ensures view == old(view)[key := Updated(config, old(view)[key], p)]
    {
      assert Holds(key);
      voxelMap[key].UpdateOctoTree(p);
      Nodes, view := Nodes + voxelMap[key].Repr, view[key := voxelMap[key].view];
      Rejoined(key);
    }

    method InitTree(key: Key)
      requires Valid() && key in voxelMap && WellShaped(config, view[key])
      modifies this, Nodes
      ensures Valid() && fresh(Nodes - old(Nodes)) && voxelMap == old(voxelMap)
      ensures view == old(view)[key := Settled(config, old(view)[key])]
    {
      assert Holds(key);
      voxelMap[key].InitOctoTree();
      Nodes, view := Nodes + voxelMap[key].Repr, view[key := voxelMap[key].view];
      Rejoined(key);
    }

    // ---------------------------------------------------------------- lists of points

    method StoreAt(p: Sample)
      requires Valid()
      modifies this, Nodes
      ensures Valid() && fresh(Nodes - old(Nodes)) && view == Stored(old(view), p, size)
    {
      var key := KeyOf(p.point, size);
      StoredInTwoSteps(view, p, size);
      EnsureRoot(key);
      StorePoint(key, p);
    }

    method StoreVoxels(points: seq<Sample>)
      requires Valid()
      modifies this, Nodes
      ensures Valid() && fresh(Nodes - old(Nodes)) && view == StoredAll(old(view), points, size)
    {
      var i := 0;
      while i < |points|
        invariant 0 <= i <= |points| && Valid() && fresh(Nodes - old(Nodes))
        invariant view == StoredAll(old(view), points[..i], size)
      {
        assert points[..i + 1][..i] == points[..i];
        StoreAt(points[i]);
        i := i + 1;
      }
      assert points[..i] == points;
    }

    method BuildVoxelMap(points: seq<Sample>)
      requires Valid()
      modifies this, Nodes
      ensures Valid() && fresh(Nodes - old(Nodes))
      ensures ShapedForest(config, old(view)) && view == Built(config, old(view), points, size)
    {
      ViewIsShaped();
      StoredShaped(config, view, points, size);
      ghost var start := view;
      StoreVoxels(points);
      InitTrees();
      SettledIsBuilt(config, start, points, size, view);
    }

    method InitNext(ghost start: Forest, left: set<Key>) returns (rest: set<Key>)
      requires Valid() && ShapedForest(config, start) && SettledBut(config, start, view, left) && left != {}
      modifies this, Nodes
      ensures Valid() && fresh(Nodes - old(Nodes))
      ensures rest < left && SettledBut(config, start, view, rest)
    {
      var key :| key in left;
      SettledOneMore(config, start, view, left, key);
      InitTree(key);
      rest := left - {key};
    }

    method InitAll(ghost start: Forest, keys: set<Key>)
      requires Valid() && ShapedForest(config, start) && SettledBut(config, start, view, keys)
      modifies this, Nodes
      ensures Valid() && fresh(Nodes - old(Nodes)) && SettledBut(config, start, view, {})
    {
      var left := keys;
      while left != {}
        invariant Valid() && fresh(Nodes - old(Nodes))
        invariant SettledBut(config, start, view, left)
        decreases left
      {
        left := InitNext(start, left);
      }
    }

    // Every tree of the table is fitted and split, in any order.
    method InitTrees()
      requires Valid() && ShapedForest(config, view)
      modifies this, Nodes
      ensures Valid() && fresh(Nodes - old(Nodes)) && SettledBut(config, old(view), view, {})
    {
      SettledOfAll(config, view, voxelMap.Keys);
      InitAll(view, voxelMap.Keys);
    }

    method UpdateAt(p: Sample)
      requires Valid()
      modifies this, Nodes
      ensures Valid() && fresh(Nodes - old(Nodes))
      ensures ShapedForest(config, old(view)) && view == UpdatedMap(config, old(view), p, size)
    {
      ViewIsShaped();
      var key := KeyOf(p.point, size);
      UpdatedInTwoSteps(config, view, p, size);
      EnsureRoot(key);
      UpdateTree(key, p);
    }

    // The first `n` points have been added.
    ghost predicate HasAdded(start: Forest, points: seq<Sample>, n: nat)
      requires ShapedForest(config, start) && size > 0.0 && n <= |points|
      reads this
    {
      view == UpdatedMapAll(config, start, points[..n], size)
    }

    method UpdateNext(ghost start: Forest, points: seq<Sample>, i: nat)
      requires Valid() && ShapedForest(config, start) && i < |points| && HasAdded(start, points, i)
      modifies this, Nodes
      ensures Valid() && fresh(Nodes - old(Nodes)) && HasAdded(start, points, i + 1)
    {
      assert points[..i + 1][..i] == points[..i];
      UpdateAt(points[i]);
    }

    method UpdateAll(ghost start: Forest, points: seq<Sample>)
      requires Valid() && ShapedForest(config, start) && HasAdded(start, points, 0)
      modifies this, Nodes
      ensures Valid() && fresh(Nodes - old(Nodes)) && HasAdded(start, points, |points|)
    {
      var i := 0;
      while i < |points|
        invariant 0 <= i <= |points| && Valid() && fresh(Nodes - old(Nodes)) && HasAdded(start, points, i)
      {
        UpdateNext(start, points, i);
        i := i + 1;
      }
    }

    method UpdateVoxelMap(points: seq<Sample>)
      requires Valid()
      modifies this, Nodes
      ensures Valid() && fresh(Nodes - old(Nodes))
      ensures ShapedForest(config, old(view)) && view == UpdatedMapAll(config, old(view), points, size)
    {
      ViewIsShaped();
      UpdateAll(view, points);
      assert points[..|points|] == points;
    }

    // The best plane of a tree for a point, given the best one found before.
    method BuildSingleResidual(gate: Gate, octo: VoxelOctoTree, layer: nat, p: Sample, m: Match) returns (r: Match)
      requires octo.Valid() && octo.config == config && WellShaped(config, octo.view)
      ensures r == Searched(config, gate, octo.view, layer, p, m)
      decreases octo.Repr
    {
      if octo.plane.IsPlane() {
        return Considered(gate, octo.plane.fit, layer, p, m);
      }
      r := m;
      if layer < config.maxLayer {
        var k := 0;
        while k < 8
          invariant 0 <= k <= 8 && r == SearchedLeaves(config, gate, octo.view, layer, p, m, k)
        {
          if octo.leaves[k] != null {
            r := BuildSingleResidual(gate, octo.leaves[k], layer + 1, p, r);
          }
          k := k + 1;
        }
      }
    }
  }
}
