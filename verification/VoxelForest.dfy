// The voxel map on values: which root voxel a point falls into, what building and updating do to each voxel,
// and what holds after any run.
module VoxelForest {
  import opened OctreeModel
  import opened OctreeGeometry
  import opened OctreeCache
  import opened OctreeHistory

  datatype Key = Key(x: int, y: int, z: int)

  type Forest = map<Key, Node>

  // ---------------------------------------------------------------- keys

  // Conversion of a real to an integer, toward zero.
  function Truncated(v: real): int {
    if v >= 0.0 then v.Floor else -((-v).Floor)
  }

  function CellOf(at: real, size: real): int
    requires size > 0.0
  {
    var v := at / size;
    Truncated(if v < 0.0 then v - 1.0 else v)
  }

  function KeyOf(p: Vec3, size: real): Key
    requires size > 0.0
  {
    Key(CellOf(p.x, size), CellOf(p.y, size), CellOf(p.z, size))
  }

  function Middle(cell: int, size: real): real {
    (0.5 + cell as real) * size
  }

  function RootOf(key: Key, size: real): Node {
    FreshNode(0, Vec3(Middle(key.x, size), Middle(key.y, size), Middle(key.z, size)), size / 4.0)
  }

  lemma TruncatedBetween(v: real)
    ensures v >= 0.0 ==> Truncated(v) as real <= v < Truncated(v) as real + 1.0
    ensures v < 0.0 ==> v <= Truncated(v) as real < v + 1.0
  {
  }

  lemma TimesKeepsOrder(a: real, b: real, size: real)
    requires a <= b && size > 0.0
    ensures a * size <= b * size
  {
  }

  lemma CellBounds(at: real, size: real)
    requires size > 0.0
    ensures CellOf(at, size) as real <= at / size <= CellOf(at, size) as real + 1.0
  {
    TruncatedBetween(at / size);
    TruncatedBetween(at / size - 1.0);
  }

  lemma BetweenIsNear(k: real, v: real, at: real, size: real)
    requires size > 0.0 && k <= v <= k + 1.0 && v * size == at
    ensures Near(at, (0.5 + k) * size, 2.0 * (size / 4.0))
  {
    TimesKeepsOrder(k, v, size);
    TimesKeepsOrder(v, k + 1.0, size);
    assert (0.5 + k) * size == 0.5 * size + k * size && (k + 1.0) * size == k * size + size;
  }

  lemma CellHolds(at: real, size: real)
    requires size > 0.0
    ensures Near(at, Middle(CellOf(at, size), size), 2.0 * (size / 4.0))
  {
    CellBounds(at, size);
    BetweenIsNear(CellOf(at, size) as real, at / size, at, size);
  }

  // A point lies in the closed cube of the root voxel its key names, on both sides of zero.
  lemma RootHolds(p: Vec3, size: real)
    requires size > 0.0
    ensures InCube(RootOf(KeyOf(p, size), size), p)
  {
    CellHolds(p.x, size);
    CellHolds(p.y, size);
    CellHolds(p.z, size);
  }

  // ---------------------------------------------------------------- building and updating

  function RootOr(m: Forest, key: Key, size: real): Node {
    if key in m then m[key] else RootOf(key, size)
  }

  function Joined(t: Node, p: Sample): Node {
    t.(points := t.points + [p], newPoints := t.newPoints + 1)
  }

  function Stored(m: Forest, p: Sample, size: real): Forest
    requires size > 0.0
  {
    var key := KeyOf(p.point, size);
    m[key := Joined(RootOr(m, key, size), p)]
  }

  function StoredAll(m: Forest, points: seq<Sample>, size: real): Forest
    requires size > 0.0
  {
    if points == [] then m else Stored(StoredAll(m, points[..|points| - 1], size), points[|points| - 1], size)
  }

  ghost predicate ShapedForest(c: Config, m: Forest) {
    c.Valid() && forall k :: k in m ==> WellShaped(c, m[k]) && m[k].layer == 0
  }

  lemma RootIsShaped(c: Config, key: Key, size: real)
    requires c.Valid()
    ensures WellShaped(c, RootOf(key, size))
  {
  }

  lemma {:induction false} StoredShaped(c: Config, m: Forest, points: seq<Sample>, size: real)
    requires ShapedForest(c, m) && size > 0.0
    ensures ShapedForest(c, StoredAll(m, points, size))
  {
    if points != [] {
      var b, p := StoredAll(m, points[..|points| - 1], size), points[|points| - 1];
      StoredShaped(c, m, points[..|points| - 1], size);
      var t := RootOr(b, KeyOf(p.point, size), size);
      RootIsShaped(c, KeyOf(p.point, size), size);
      assert WellShaped(c, t.(points := t.points + [p], newPoints := t.newPoints + 1));
    }
  }

  function Built(c: Config, m: Forest, points: seq<Sample>, size: real): Forest
    requires ShapedForest(c, m) && size > 0.0
  {
    StoredShaped(c, m, points, size);
    var s := StoredAll(m, points, size);
    map k | k in s :: Settled(c, s[k])
  }

  function UpdatedMap(c: Config, m: Forest, p: Sample, size: real): (r: Forest)
    requires ShapedForest(c, m) && size > 0.0
  {
    var key := KeyOf(p.point, size);
    RootIsShaped(c, key, size);
    m[key := Updated(c, RootOr(m, key, size), p)]
  }

  lemma UpdatedMapShaped(c: Config, m: Forest, p: Sample, size: real)
    requires ShapedForest(c, m) && size > 0.0
    ensures ShapedForest(c, UpdatedMap(c, m, p, size))
  {
    var key := KeyOf(p.point, size);
    RootIsShaped(c, key, size);
    UpdatedShape(c, RootOr(m, key, size), p);
  }

  function UpdatedMapAll(c: Config, m: Forest, points: seq<Sample>, size: real): (r: Forest)
    requires ShapedForest(c, m) && size > 0.0
    ensures ShapedForest(c, r)
  {
    if points == [] then m
    else
      var b := UpdatedMapAll(c, m, points[..|points| - 1], size);
      UpdatedMapShaped(c, b, points[|points| - 1], size);
      UpdatedMap(c, b, points[|points| - 1], size)
  }

  // ---------------------------------------------------------------- each voxel sees only its own points

  // The points of a list that fall into one voxel, in order.
  function Those(points: seq<Sample>, key: Key, size: real): seq<Sample>
    requires size > 0.0
  {
    if points == [] then []
    else
      var front, p := points[..|points| - 1], points[|points| - 1];
      Those(front, key, size) + if KeyOf(p.point, size) == key then [p] else []
  }

  function UpdatedAll(c: Config, t: Node, points: seq<Sample>): (r: Node)
    requires WellShaped(c, t)
    ensures WellShaped(c, r) && r.layer == t.layer
  {
    if points == [] then t
    else
      var b := UpdatedAll(c, t, points[..|points| - 1]);
      UpdatedShape(c, b, points[|points| - 1]);
      Updated(c, b, points[|points| - 1])
  }

  lemma {:induction false} StoredByVoxel(m: Forest, points: seq<Sample>, size: real, key: Key)
    requires size > 0.0
    ensures var s, own := StoredAll(m, points, size), Those(points, key, size);
            && (key in s <==> key in m || own != [])
            && (key in s ==>
                  var t := RootOr(m, key, size);
                  s[key] == t.(points := t.points + own, newPoints := t.newPoints + |own|))
  {
    if points != [] {
      var front, p := points[..|points| - 1], points[|points| - 1];
      StoredByVoxel(m, front, size, key);
      var own, t := Those(front, key, size), RootOr(m, key, size);
      assert (t.points + own) + [p] == t.points + (own + [p]);
      if own == [] {
        assert t.points + own == t.points;
      }
    } else {
      var t := RootOr(m, key, size);
      assert t.points + [] == t.points;
    }
  }

  // Building from scratch: the voxels are those some point falls into, and each is the settled tree of
  // exactly its own points.
  lemma BuiltByVoxel(c: Config, points: seq<Sample>, size: real, key: Key)
    requires c.Valid() && size > 0.0
    ensures var own, r := Those(points, key, size), RootOf(key, size);
            && (key in Built(c, map[], points, size) <==> own != [])
            && WellShaped(c, r.(points := own, newPoints := |own|))
            && (own != [] ==> Built(c, map[], points, size)[key] == Settled(c, r.(points := own, newPoints := |own|)))
  {
    StoredByVoxel(map[], points, size, key);
    var own := Those(points, key, size);
    assert [] + own == own;
    RootIsShaped(c, key, size);
    assert WellShaped(c, RootOf(key, size).(points := own, newPoints := |own|));
  }

  // Updating with a list of points: each voxel goes through the updates by its own points alone, in order.
  lemma {:induction false} UpdatedByVoxel(c: Config, m: Forest, points: seq<Sample>, size: real, key: Key)
    requires ShapedForest(c, m) && size > 0.0
    ensures WellShaped(c, RootOr(m, key, size))
    ensures key in UpdatedMapAll(c, m, points, size) <==> key in m || Those(points, key, size) != []
    ensures key in UpdatedMapAll(c, m, points, size) ==>
              UpdatedMapAll(c, m, points, size)[key]
              == UpdatedAll(c, RootOr(m, key, size), Those(points, key, size))
  {
    RootIsShaped(c, key, size);
    if points != [] {
      var front, p := points[..|points| - 1], points[|points| - 1];
      UpdatedByVoxel(c, m, front, size, key);
      if KeyOf(p.point, size) == key {
        var own := Those(points, key, size);
        assert own[..|own| - 1] == Those(front, key, size);
      } else {
        assert Those(points, key, size) == Those(front, key, size);
      }
    }
  }

  // ---------------------------------------------------------------- every run

  // A tree of the map: it is rooted at its voxel's cube, all cubes and points are in place, and every cached
  // plane is the fit it should be.
  ghost predicate GoodTree(c: Config, key: Key, size: real, t: Node) {
    && WellShaped(c, t) && Framed(c, t) && CacheHolds(c, t) && t.layer == 0
    && t.center == RootOf(key, size).center && t.quarter == RootOf(key, size).quarter
  }

  ghost predicate GoodForest(c: Config, size: real, m: Forest) {
    c.Valid() && size > 0.0 && forall k :: k in m ==> GoodTree(c, k, size, m[k])
  }

  lemma GoodIsShaped(c: Config, size: real, m: Forest)
    requires GoodForest(c, size, m)
    ensures ShapedForest(c, m)
  {
    forall k | k in m ensures WellShaped(c, m[k]) && m[k].layer == 0 {
      assert GoodTree(c, k, size, m[k]);
    }
  }

  lemma {:induction false} ThoseLieIn(points: seq<Sample>, key: Key, size: real)
    requires size > 0.0
    ensures forall i :: 0 <= i < |Those(points, key, size)| ==>
              InCube(RootOf(key, size), Those(points, key, size)[i].point)
  {
    if points != [] {
      ThoseLieIn(points[..|points| - 1], key, size);
      RootHolds(points[|points| - 1].point, size);
    }
  }

  lemma BuiltIsGood(c: Config, points: seq<Sample>, size: real)
    requires c.Valid() && size > 0.0
    ensures GoodForest(c, size, Built(c, map[], points, size))
  {
    var m := Built(c, map[], points, size);
    forall key | key in m ensures GoodTree(c, key, size, m[key]) {
      BuiltByVoxel(c, points, size, key);
      ThoseLieIn(points, key, size);
      var t := RootOf(key, size).(points := Those(points, key, size), newPoints := |Those(points, key, size)|);
      assert Framed(c, t);
      assert Growing(t);
      SettledFramed(c, t);
      SettledCaches(c, t);
      SettledShape(c, t);
    }
  }

  lemma UpdatedMapIsGood(c: Config, m: Forest, p: Sample, size: real)
    requires GoodForest(c, size, m)
    ensures ShapedForest(c, m) && GoodForest(c, size, UpdatedMap(c, m, p, size))
  {
    GoodIsShaped(c, size, m);
    var key := KeyOf(p.point, size);
    var t := RootOr(m, key, size);
    RootHolds(p.point, size);
    RootIsShaped(c, key, size);
    if key in m {
      assert GoodTree(c, key, size, t);
    } else {
      assert Framed(c, t) && Growing(t);
    }
    UpdatedFramed(c, t, p);
    UpdatedCaches(c, t, p);
    UpdatedShape(c, t, p);
  }

  lemma {:induction false} UpdatedMapAllIsGood(c: Config, m: Forest, points: seq<Sample>, size: real)
    requires GoodForest(c, size, m)
    ensures ShapedForest(c, m) && GoodForest(c, size, UpdatedMapAll(c, m, points, size))
  {
    GoodIsShaped(c, size, m);
    if points != [] {
      UpdatedMapAllIsGood(c, m, points[..|points| - 1], size);
      UpdatedMapIsGood(c, UpdatedMapAll(c, m, points[..|points| - 1], size), points[|points| - 1], size);
    }
  }

  // One build, then any number of scans.
  ghost predicate ReachesForest(c: Config, size: real, first: seq<Sample>, scans: seq<seq<Sample>>, m: Forest)
    decreases |scans|
  {
    && c.Valid() && size > 0.0
    && if scans == [] then m == Built(c, map[], first, size)
       else exists b: Forest :: ReachesForest(c, size, first, scans[..|scans| - 1], b)
              && ShapedForest(c, b) && m == UpdatedMapAll(c, b, scans[|scans| - 1], size)
  }

  lemma {:induction false} EveryMapIsGood(c: Config, size: real, first: seq<Sample>, scans: seq<seq<Sample>>, m: Forest)
    requires ReachesForest(c, size, first, scans, m)
    ensures GoodForest(c, size, m)
    decreases |scans|
  {
    if scans == [] {
      BuiltIsGood(c, first, size);
    } else {
      var b: Forest :| ReachesForest(c, size, first, scans[..|scans| - 1], b)
                       && ShapedForest(c, b) && m == UpdatedMapAll(c, b, scans[|scans| - 1], size);
      EveryMapIsGood(c, size, first, scans[..|scans| - 1], b);
      UpdatedMapAllIsGood(c, b, scans[|scans| - 1], size);
    }
  }

  // A node of a good map outlives every later scan, at the same place, and once frozen its plane is final.
  lemma {:induction false} FrozenPlanesAreFinal(
    c: Config, m: Forest, points: seq<Sample>, size: real, key: Key, q: seq<nat>)
    requires GoodForest(c, size, m) && ShapedForest(c, m) && key in m && At(c, m[key], q).Some?
    ensures var r := UpdatedMapAll(c, m, points, size);
            key in r && At(c, r[key], q).Some? && Persists(At(c, m[key], q).value, At(c, r[key], q).value)
  {
    if points != [] {
      var front, p := points[..|points| - 1], points[|points| - 1];
      FrozenPlanesAreFinal(c, m, front, size, key, q);
      UpdatedMapAllIsGood(c, m, front, size);
      var b := UpdatedMapAll(c, m, front, size);
      assert GoodTree(c, key, size, b[key]);
      NodesPersist(c, b[key], p, q);
    }
  }

  // ---------------------------------------------------------------- what every tree was handed

  // Every tree of the map holds what its voxel was handed.
  ghost predicate HoldsAll(c: Config, size: real, m: Forest, points: seq<Sample>)
    requires ShapedForest(c, m) && size > 0.0
  {
    forall key: Key :: key in m ==> Holds(c, m[key], Those(points, key, size))
  }

  ghost predicate HandedOut(c: Config, size: real, m: Forest, points: seq<Sample>) {
    && ShapedForest(c, m) && size > 0.0 && HoldsAll(c, size, m, points)
    && forall key: Key :: key in m <==> Those(points, key, size) != []
  }

  lemma BuiltHolds(c: Config, points: seq<Sample>, size: real)
    requires c.Valid() && size > 0.0
    ensures ShapedForest(c, Built(c, map[], points, size))
    ensures HoldsAll(c, size, Built(c, map[], points, size), points)
  {
    var m := Built(c, map[], points, size);
    BuiltIsGood(c, points, size);
    GoodIsShaped(c, size, m);
    forall key: Key | key in m ensures Holds(c, m[key], Those(points, key, size)) {
      BuiltByVoxel(c, points, size, key);
      var own := Those(points, key, size);
      FittedHolds(c, RootOf(key, size).(points := own, newPoints := |own|));
    }
  }

  lemma {:induction false} ThoseJoin(a: seq<Sample>, b: seq<Sample>, key: Key, size: real)
    requires size > 0.0
    ensures Those(a + b, key, size) == Those(a, key, size) + Those(b, key, size)
  {
    if b == [] {
      assert a + b == a;
    } else {
      var front := b[..|b| - 1];
      ThoseJoin(a, front, key, size);
      assert (a + b)[..|a + b| - 1] == a + front;
    }
  }

  lemma ThoseOneMore(points: seq<Sample>, p: Sample, key: Key, size: real)
    requires size > 0.0
    ensures Those(points + [p], key, size) ==
            Those(points, key, size) + if KeyOf(p.point, size) == key then [p] else []
  {
    var all := points + [p];
    assert all[..|all| - 1] == points;
  }

  lemma UpdatedMapHolds(c: Config, m: Forest, points: seq<Sample>, p: Sample, size: real)
    requires GoodForest(c, size, m) && HandedOut(c, size, m, points)
    ensures HandedOut(c, size, UpdatedMap(c, m, p, size), points + [p])
  {
    UpdatedMapShaped(c, m, p, size);
    TreeUpdateHolds(c, m, points, p, size);
    var r := UpdatedMap(c, m, p, size);
    forall key: Key
      ensures key in r <==> Those(points + [p], key, size) != []
      ensures key in r ==> Holds(c, r[key], Those(points + [p], key, size))
    {
      ThoseOneMore(points, p, key, size);
      assert Those(points, key, size) + [] == Those(points, key, size);
    }
  }

  lemma TreeUpdateHolds(c: Config, m: Forest, points: seq<Sample>, p: Sample, size: real)
    requires GoodForest(c, size, m) && HandedOut(c, size, m, points)
    ensures var key := KeyOf(p.point, size);
            var t := RootOr(m, key, size);
            WellShaped(c, t) && WellShaped(c, Updated(c, t, p)) &&
            Holds(c, Updated(c, t, p), Those(points, key, size) + [p])
  {
    var key := KeyOf(p.point, size);
    var t := RootOr(m, key, size);
    RootIsShaped(c, key, size);
    if key in m {
      assert GoodTree(c, key, size, t);
    } else {
      BufferHolds(c, t, []);
      assert Growing(t);
    }
    UpdateHolds(c, t, p, Those(points, key, size));
  }

  lemma {:induction false} ScanHolds(c: Config, m: Forest, points: seq<Sample>, scan: seq<Sample>, size: real)
    requires GoodForest(c, size, m) && HandedOut(c, size, m, points)
    ensures HandedOut(c, size, UpdatedMapAll(c, m, scan, size), points + scan)
  {
    if scan == [] {
      assert points + scan == points;
    } else {
      var front, p := scan[..|scan| - 1], scan[|scan| - 1];
      ScanHolds(c, m, points, front, size);
      UpdatedMapAllIsGood(c, m, front, size);
      UpdatedMapHolds(c, UpdatedMapAll(c, m, front, size), points + front, p, size);
      assert points + scan == (points + front) + [p];
    }
  }

  // All points of a build and the scans after it, in order.
  function AllPoints(first: seq<Sample>, scans: seq<seq<Sample>>): seq<Sample> {
    if scans == [] then first else AllPoints(first, scans[..|scans| - 1]) + scans[|scans| - 1]
  }

  // After one build and any scans there is a tree for exactly the voxels some point fell into, and each holds what fell
  // into its voxel: node by node, what `Holds` says of the points it was handed.
  lemma {:induction false} EveryMapHolds(
    c: Config, size: real, first: seq<Sample>, scans: seq<seq<Sample>>, m: Forest)
    requires ReachesForest(c, size, first, scans, m)
    ensures HandedOut(c, size, m, AllPoints(first, scans))
    decreases |scans|
  {
    if scans == [] {
      BuiltHolds(c, first, size);
      forall key: Key ensures key in m <==> Those(first, key, size) != [] {
        BuiltByVoxel(c, first, size, key);
      }
    } else {
      var b: Forest :| ReachesForest(c, size, first, scans[..|scans| - 1], b)
                       && ShapedForest(c, b) && m == UpdatedMapAll(c, b, scans[|scans| - 1], size);
      EveryMapHolds(c, size, first, scans[..|scans| - 1], b);
      EveryMapIsGood(c, size, first, scans[..|scans| - 1], b);
      ScanHolds(c, b, AllPoints(first, scans[..|scans| - 1]), scans[|scans| - 1], size);
    }
  }

  // The cube of a root voxel has its size and lies at its key.
  lemma RootCubeIs(key: Key, size: real, p: Vec3)
    requires size > 0.0
    ensures InCube(RootOf(key, size), p) <==>
            && key.x as real * size <= p.x <= (key.x as real + 1.0) * size
            && key.y as real * size <= p.y <= (key.y as real + 1.0) * size
            && key.z as real * size <= p.z <= (key.z as real + 1.0) * size
  {
    MiddleIsHalfway(key.x, size);
    MiddleIsHalfway(key.y, size);
    MiddleIsHalfway(key.z, size);
  }

  lemma MiddleIsHalfway(cell: int, size: real)
    ensures Middle(cell, size) - 2.0 * (size / 4.0) == cell as real * size
    ensures Middle(cell, size) + 2.0 * (size / 4.0) == (cell as real + 1.0) * size
  {
    assert (0.5 + cell as real) * size == 0.5 * size + cell as real * size;
    assert (cell as real + 1.0) * size == cell as real * size + size;
  }
}
