// FAST::getWarpInfoBetween: shrink both series, align the shrunk ones recursively, project that
// alignment to a window of the original matrix, and align inside the window.
module FastDtw {
  import opened Basics
  import opened WarpGrid
  import opened DtwOptimum
  import opened Paa
  import opened SearchWindows
  import opened ExpandedResWindow
  import opened WindowSize
  import Dtw

  function Aligning(tsI: Series, tsJ: Series, dist: Distance): Problem {
    Problem(tsI.points, tsJ.points, dist)
  }

  function Clamped(searchRadius: int): nat {
    if searchRadius < 0 then 0 else searchRadius
  }

  // Small enough to be aligned exactly.
  predicate Small(sizeI: nat, sizeJ: nat, radius: nat) {
    sizeI <= radius + 2 || sizeJ <= radius + 2
  }

  predicate Direct(tsI: Series, tsJ: Series, radius: nat) {
    Small(tsI.Size(), tsJ.Size(), radius)
  }

  function Halved(ts: Series, dims: nat): Series
    requires ts.Valid(dims) && ts.Size() >= 2
  {
    Shrunk(ts, dims, ts.Size() / 2)
  }

  // How a path over the halved series sits on the original matrix.
  function Projected(sizeI: nat, sizeJ: nat, path: seq<Cell>): Coarse
    requires sizeI >= 2 && sizeJ >= 2
  {
    Coarse(BlockSizes(sizeI, sizeI / 2), BlockSizes(sizeJ, sizeJ / 2), path)
  }

  lemma ProjectedIsValid(sizeI: nat, sizeJ: nat, path: seq<Cell>)
    requires sizeI >= 2 && sizeJ >= 2 && LegalTo(path, Cell(sizeI / 2 - 1, sizeJ / 2 - 1))
    ensures var s := Projected(sizeI, sizeJ, path);
            s.Valid() && s.Columns() == sizeI && s.Rows() == sizeJ
  {
    BlockOffsetIsStart(sizeI, sizeI / 2, sizeI / 2);
    BlockOffsetIsStart(sizeJ, sizeJ / 2, sizeJ / 2);
    BlockEnds(sizeI, sizeI / 2);
    BlockEnds(sizeJ, sizeJ / 2);
  }

  lemma RefinedIsCrossable(p: Problem, s: Coarse, radius: int)
    requires p.NonEmpty() && s.Valid() && s.Columns() == |p.tsI| && s.Rows() == |p.tsJ|
    ensures Crossable(p, RefinedWindow(s, radius))
  {
    RefinedWindowIsCrossed(s, radius);
    var path :| FollowsBlocks(s, path);
    assert LegalTo(path, p.Last()) && Inside(path, RefinedWindow(s, radius));
  }

  // What FastDTW answers. The recursion is well founded because both series halve, and each level is
  // well defined because the level below returns a legal path across the halved matrix.
  ghost function FastWarp(tsI: Series, tsJ: Series, dims: nat, dist: Distance, searchRadius: int): (info: WarpInfo)
    requires tsI.Valid(dims) && tsJ.Valid(dims) && tsI.Size() > 0 && tsJ.Size() > 0
    ensures LegalTo(info.path, Cell(tsI.Size() - 1, tsJ.Size() - 1))
    ensures Within(info.path, Aligning(tsI, tsJ, dist))
    ensures info.distance == PathCost(Aligning(tsI, tsJ, dist), info.path)
    decreases tsI.Size()
  {
    var radius, p := Clamped(searchRadius), Aligning(tsI, tsJ, dist);
    if Direct(tsI, tsJ, radius) then
      FullWarpIsExact(p);
      FullWarp(p)
    else
      ShrunkIsValid(tsI, dims, tsI.Size() / 2);
      ShrunkIsValid(tsJ, dims, tsJ.Size() / 2);
      var coarse := FastWarp(Halved(tsI, dims), Halved(tsJ, dims), dims, dist, radius);
      ProjectedIsValid(tsI.Size(), tsJ.Size(), coarse.path);
      var window := RefinedWindow(Projected(tsI.Size(), tsJ.Size(), coarse.path), radius);
      RefinedIsCrossable(p, Projected(tsI.Size(), tsJ.Size(), coarse.path), radius);
      WindowedWarpIsOptimal(p, window);
      WindowedWarp(p, window)
  }

  // The distance is never below the exact one, and is exact when either series has at most
  // searchRadius + 2 points.
  lemma FastWarpIsUpperBound(tsI: Series, tsJ: Series, dims: nat, dist: Distance, searchRadius: int)
    requires tsI.Valid(dims) && tsJ.Valid(dims) && tsI.Size() > 0 && tsJ.Size() > 0
    ensures FastWarp(tsI, tsJ, dims, dist, searchRadius).distance >= FullWarp(Aligning(tsI, tsJ, dist)).distance
    ensures Direct(tsI, tsJ, Clamped(searchRadius)) ==>
            FastWarp(tsI, tsJ, dims, dist, searchRadius) == FullWarp(Aligning(tsI, tsJ, dist))
  {
    FullWarpIsExact(Aligning(tsI, tsJ, dist));
  }

  // Otherwise it is the best path inside the refined window, so it is at least as good as every fine
  // path that follows the blocks of the coarse path.
  lemma FastWarpRefinesCoarse(tsI: Series, tsJ: Series, dims: nat, dist: Distance, searchRadius: int, path: seq<Cell>)
    requires tsI.Valid(dims) && tsJ.Valid(dims) && tsI.Size() > 0 && tsJ.Size() > 0
    requires !Direct(tsI, tsJ, Clamped(searchRadius))
    requires Halved(tsI, dims).Valid(dims) && Halved(tsJ, dims).Valid(dims)
    requires var coarse := FastWarp(Halved(tsI, dims), Halved(tsJ, dims), dims, dist, Clamped(searchRadius));
             var s := Projected(tsI.Size(), tsJ.Size(), coarse.path);
             s.Valid() && FollowsBlocks(s, path)
    ensures Within(path, Aligning(tsI, tsJ, dist))
    ensures FastWarp(tsI, tsJ, dims, dist, searchRadius).distance <= PathCost(Aligning(tsI, tsJ, dist), path)
  {
    var radius, p := Clamped(searchRadius), Aligning(tsI, tsJ, dist);
    var coarse := FastWarp(Halved(tsI, dims), Halved(tsJ, dims), dims, dist, radius);
    var s := Projected(tsI.Size(), tsJ.Size(), coarse.path);
    ProjectedIsValid(tsI.Size(), tsJ.Size(), coarse.path);
    RefinedWindowIsCrossed(s, radius);
    RefinedIsCrossable(p, s, radius);
    WindowedWarpIsOptimal(p, RefinedWindow(s, radius));
    assert LegalTo(path, p.Last()) && Inside(path, RefinedWindow(s, radius));
  }

  // ---------------------------------------------------------------- how much it evaluates

  // The cells of the whole matrix, column by column.
  function Area(sizeI: nat, sizeJ: nat): nat {
    if sizeI == 0 then 0 else Area(sizeI - 1, sizeJ) + sizeJ
  }

  lemma {:induction false} AreaIsProduct(sizeI: nat, sizeJ: nat)
    ensures Area(sizeI, sizeJ) == sizeI * sizeJ
  {
    if sizeI > 0 {
      AreaIsProduct(sizeI - 1, sizeJ);
    }
  }

  // A number of cells linear in the number of points, with a factor linear in the radius: so many for each point.
  function LinearBound(radius: nat, points: nat): nat {
    if points == 0 then 0 else LinearBound(radius, points - 1) + 8 + 4 * radius
  }

  lemma {:induction false} BoundIsProduct(radius: nat, points: nat)
    ensures LinearBound(radius, points) == (8 + 4 * radius) * points
  {
    if points > 0 {
      BoundIsProduct(radius, points - 1);
      assert (8 + 4 * radius) * points == (8 + 4 * radius) * (points - 1) + (8 + 4 * radius);
    }
  }

  // A path over the halved matrix for every level that is not small, the finest first.
  ghost predicate LevelPaths(sizeI: nat, sizeJ: nat, radius: nat, paths: seq<seq<Cell>>)
    decreases sizeI
  {
    if Small(sizeI, sizeJ, radius) then paths == []
    else
      && paths != [] && LegalTo(paths[0], Cell(sizeI / 2 - 1, sizeJ / 2 - 1))
      && LevelPaths(sizeI / 2, sizeJ / 2, radius, paths[1..])
  }

  // The cells evaluated at one level, whose window follows `path`.
  ghost function LevelCells(sizeI: nat, sizeJ: nat, path: seq<Cell>, radius: nat): nat
    requires sizeI >= 2 && sizeJ >= 2 && LegalTo(path, Cell(sizeI / 2 - 1, sizeJ / 2 - 1))
  {
    ProjectedIsValid(sizeI, sizeJ, path);
    CellCount(RefinedWindow(Projected(sizeI, sizeJ, path), radius))
  }

  // And at all levels: the whole matrix where it is small.
  ghost function CellsAlong(sizeI: nat, sizeJ: nat, radius: nat, paths: seq<seq<Cell>>): nat
    requires LevelPaths(sizeI, sizeJ, radius, paths)
    decreases sizeI
  {
    if Small(sizeI, sizeJ, radius) then Area(sizeI, sizeJ)
    else
      LevelCells(sizeI, sizeJ, paths[0], radius) + CellsAlong(sizeI / 2, sizeJ / 2, radius, paths[1..])
  }

  lemma LevelIsLinear(sizeI: nat, sizeJ: nat, path: seq<Cell>, radius: nat)
    requires sizeI >= 2 && sizeJ >= 2 && LegalTo(path, Cell(sizeI / 2 - 1, sizeJ / 2 - 1))
    ensures LevelCells(sizeI, sizeJ, path, radius) <= (4 + 2 * radius) * (sizeI + sizeJ - 1)
  {
    ProjectedIsValid(sizeI, sizeJ, path);
    HalvesAreSmall(sizeI);
    HalvesAreSmall(sizeJ);
    RefinedWindowIsLinear(Projected(sizeI, sizeJ, path), radius, 3);
  }

  lemma FactorWithin(a: nat, b: nat, c: nat)
    requires a <= c
    ensures a * b <= c * b
  {
  }

  lemma SmallIsLinear(sizeI: nat, sizeJ: nat, radius: nat)
    requires Small(sizeI, sizeJ, radius)
    ensures Area(sizeI, sizeJ) <= LinearBound(radius, sizeI + sizeJ)
  {
    var bound := 8 + 4 * radius;
    AreaIsProduct(sizeI, sizeJ);
    BoundIsProduct(radius, sizeI + sizeJ);
    if sizeI <= bound {
      FactorWithin(sizeI, sizeJ, bound);
    } else {
      FactorWithin(sizeJ, sizeI, bound);
    }
    assert bound * (sizeI + sizeJ) == bound * sizeI + bound * sizeJ;
  }

  lemma BoundIsTwice(radius: nat, points: nat, half: nat)
    requires half == 4 + 2 * radius
    ensures LinearBound(radius, points) == half * points + half * points
  {
    BoundIsProduct(radius, points);
    assert half * points + half * points == (half + half) * points;
  }

  // Half of the points below leave room for one more level.
  lemma RoomForLevel(half: nat, points: nat, all: nat)
    requires 2 * points <= all && all > 0
    ensures half * points + half * points + half * (all - 1) <= half * all + half * all
  {
    assert half * points + half * points == half * (2 * points);
    FactorWithin(2 * points, half, all);
    FactorWithin(all - 1, half, all);
  }

  lemma LevelFits(radius: nat, points: nat, all: nat, coarse: nat, level: nat)
    requires 2 * points <= all && all > 0
    requires coarse <= LinearBound(radius, points) && level <= (4 + 2 * radius) * (all - 1)
    ensures coarse + level <= LinearBound(radius, all)
  {
    var half := 4 + 2 * radius;
    BoundIsTwice(radius, points, half);
    BoundIsTwice(radius, all, half);
    RoomForLevel(half, points, all);
  }

  lemma LevelAdds(sizeI: nat, sizeJ: nat, path: seq<Cell>, radius: nat, coarse: nat)
    requires sizeI >= 2 && sizeJ >= 2 && LegalTo(path, Cell(sizeI / 2 - 1, sizeJ / 2 - 1))
    requires coarse <= LinearBound(radius, sizeI / 2 + sizeJ / 2)
    ensures LevelCells(sizeI, sizeJ, path, radius) + coarse <= LinearBound(radius, sizeI + sizeJ)
  {
    LevelIsLinear(sizeI, sizeJ, path, radius);
    LevelFits(radius, sizeI / 2 + sizeJ / 2, sizeI + sizeJ, coarse, LevelCells(sizeI, sizeJ, path, radius));
  }

  lemma OneLevelIsLinear(sizeI: nat, sizeJ: nat, radius: nat, paths: seq<seq<Cell>>, coarse: nat)
    requires !Small(sizeI, sizeJ, radius) && LevelPaths(sizeI, sizeJ, radius, paths)
    requires coarse == CellsAlong(sizeI / 2, sizeJ / 2, radius, paths[1..])
    requires coarse <= LinearBound(radius, sizeI / 2 + sizeJ / 2)
    ensures CellsAlong(sizeI, sizeJ, radius, paths) <= LinearBound(radius, sizeI + sizeJ)
  {
    LevelAdds(sizeI, sizeJ, paths[0], radius, coarse);
  }

  // Whatever the coarse paths are, all levels together evaluate a number of cells that is linear in the lengths of
  // the series, with a factor linear in the radius.
  lemma {:induction false} CellsAlongIsLinear(sizeI: nat, sizeJ: nat, radius: nat, paths: seq<seq<Cell>>)
    requires sizeI > 0 && sizeJ > 0 && LevelPaths(sizeI, sizeJ, radius, paths)
    ensures CellsAlong(sizeI, sizeJ, radius, paths) <= LinearBound(radius, sizeI + sizeJ)
    decreases sizeI
  {
    if Small(sizeI, sizeJ, radius) {
      SmallIsLinear(sizeI, sizeJ, radius);
    } else {
      CellsAlongIsLinear(sizeI / 2, sizeJ / 2, radius, paths[1..]);
      OneLevelIsLinear(sizeI, sizeJ, radius, paths, CellsAlong(sizeI / 2, sizeJ / 2, radius, paths[1..]));
    }
  }

  // The paths that FastDTW finds on its way.
  ghost function CoarsePaths(tsI: Series, tsJ: Series, dims: nat, dist: Distance, radius: nat): (paths: seq<seq<Cell>>)
    requires tsI.Valid(dims) && tsJ.Valid(dims) && tsI.Size() > 0 && tsJ.Size() > 0
    ensures LevelPaths(tsI.Size(), tsJ.Size(), radius, paths)
    decreases tsI.Size()
  {
    if Direct(tsI, tsJ, radius) then []
    else
      ShrunkIsValid(tsI, dims, tsI.Size() / 2);
      ShrunkIsValid(tsJ, dims, tsJ.Size() / 2);
      [FastWarp(Halved(tsI, dims), Halved(tsJ, dims), dims, dist, radius).path] +
      CoarsePaths(Halved(tsI, dims), Halved(tsJ, dims), dims, dist, radius)
  }

  ghost function EvaluatedCells(tsI: Series, tsJ: Series, dims: nat, dist: Distance, radius: nat): nat
    requires tsI.Valid(dims) && tsJ.Valid(dims) && tsI.Size() > 0 && tsJ.Size() > 0
  {
    CellsAlong(tsI.Size(), tsJ.Size(), radius, CoarsePaths(tsI, tsJ, dims, dist, radius))
  }

  // What FastDTW is for: the cells it evaluates are linear in the lengths, although the exact alignment evaluates
  // their product.
  lemma FastWarpIsLinear(tsI: Series, tsJ: Series, dims: nat, dist: Distance, radius: nat)
    requires tsI.Valid(dims) && tsJ.Valid(dims) && tsI.Size() > 0 && tsJ.Size() > 0
    ensures EvaluatedCells(tsI, tsJ, dims, dist, radius) <= LinearBound(radius, tsI.Size() + tsJ.Size())
  {
    CellsAlongIsLinear(tsI.Size(), tsJ.Size(), radius, CoarsePaths(tsI, tsJ, dims, dist, radius));
  }

  // Whether the recursion ends in the alignment of two single points, for which the program reserves
  // a negative number of path entries and throws.
  predicate EndsAtSinglePoints(sizeI: nat, sizeJ: nat, radius: nat) {
    if Small(sizeI, sizeJ, radius) then sizeI == 1 && sizeJ == 1
    else EndsAtSinglePoints(sizeI / 2, sizeJ / 2, radius)
  }

  function HalvedTimes(size: nat, times: nat): nat {
    if times == 0 then size else HalvedTimes(size / 2, times - 1)
  }

  // With a positive radius only two single points fail.
  lemma {:induction false} PositiveRadiusIsSafe(sizeI: nat, sizeJ: nat, radius: nat)
    requires radius > 0
    ensures EndsAtSinglePoints(sizeI, sizeJ, radius) <==> sizeI == 1 && sizeJ == 1
    decreases sizeI
  {
    if sizeI > radius + 2 && sizeJ > radius + 2 {
      PositiveRadiusIsSafe(sizeI / 2, sizeJ / 2, radius);
    }
  }

  predicate MeetAtThree(sizeI: nat, sizeJ: nat, times: nat) {
    HalvedTimes(sizeI, times) == 3 && HalvedTimes(sizeJ, times) == 3
  }

  ghost predicate EverMeet(sizeI: nat, sizeJ: nat) {
    exists times: nat :: MeetAtThree(sizeI, sizeJ, times)
  }

  lemma EverMeetHalved(sizeI: nat, sizeJ: nat)
    ensures EverMeet(sizeI, sizeJ) <==> (sizeI == 3 && sizeJ == 3) || EverMeet(sizeI / 2, sizeJ / 2)
  {
    if times: nat :| MeetAtThree(sizeI, sizeJ, times) {
      assert times > 0 ==> MeetAtThree(sizeI / 2, sizeJ / 2, times - 1);
    }
    if sizeI == 3 && sizeJ == 3 {
      assert MeetAtThree(sizeI, sizeJ, 0);
    }
    if times: nat :| MeetAtThree(sizeI / 2, sizeJ / 2, times) {
      assert MeetAtThree(sizeI, sizeJ, times + 1);
    }
  }

  lemma SmallNeverMeet(sizeI: nat, sizeJ: nat)
    requires sizeI <= 2 || sizeJ <= 2
    ensures !EverMeet(sizeI, sizeJ)
  {
    forall times: nat ensures !MeetAtThree(sizeI, sizeJ, times) {
      HalvingShrinks(sizeI, times);
      HalvingShrinks(sizeJ, times);
    }
  }

  // With radius 0, so do two series that reach three points each after the same number of halvings:
  // lengths that both start with the binary digits 11 and have equally many digits.
  lemma {:induction false} ZeroRadiusFailsOnThrees(sizeI: nat, sizeJ: nat)
    ensures EndsAtSinglePoints(sizeI, sizeJ, 0) <==> (sizeI == 1 && sizeJ == 1) || EverMeet(sizeI, sizeJ)
    decreases sizeI
  {
    if sizeI <= 2 || sizeJ <= 2 {
      SmallNeverMeet(sizeI, sizeJ);
    } else {
      EverMeetHalved(sizeI, sizeJ);
      ZeroRadiusFailsOnThrees(sizeI / 2, sizeJ / 2);
    }
  }

  lemma {:induction false} HalvingShrinks(size: nat, k: nat)
    ensures HalvedTimes(size, k) <= size
    decreases k
  {
    if k > 0 {
      HalvingShrinks(size / 2, k - 1);
    }
  }

  // A concrete failure: radius 0 and three points each.
  lemma ThreePointsFail()
    ensures EndsAtSinglePoints(3, 3, 0)
  {
    assert EndsAtSinglePoints(1, 1, 0);
  }

  // The answer and its costs at one level, from those of the level below.
  lemma AnswerByLevel(tsI: Series, tsJ: Series, dims: nat, dist: Distance, radius: nat, coarse: WarpInfo)
    requires tsI.Valid(dims) && tsJ.Valid(dims) && !Direct(tsI, tsJ, radius)
    requires Halved(tsI, dims).Valid(dims) && Halved(tsI, dims).Size() == tsI.Size() / 2
    requires Halved(tsJ, dims).Valid(dims) && Halved(tsJ, dims).Size() == tsJ.Size() / 2
    requires coarse == FastWarp(Halved(tsI, dims), Halved(tsJ, dims), dims, dist, radius)
    ensures Projected(tsI.Size(), tsJ.Size(), coarse.path).Valid()
    ensures var w := RefinedWindow(Projected(tsI.Size(), tsJ.Size(), coarse.path), radius);
            && Crossable(Aligning(tsI, tsJ, dist), w)
            && FastWarp(tsI, tsJ, dims, dist, radius) == WindowedWarp(Aligning(tsI, tsJ, dist), w)
    ensures EvaluatedCells(tsI, tsJ, dims, dist, radius) ==
            LevelCells(tsI.Size(), tsJ.Size(), coarse.path, radius) +
            EvaluatedCells(Halved(tsI, dims), Halved(tsJ, dims), dims, dist, radius)
  {
    ProjectedIsValid(tsI.Size(), tsJ.Size(), coarse.path);
    RefinedIsCrossable(Aligning(tsI, tsJ, dist), Projected(tsI.Size(), tsJ.Size(), coarse.path), radius);
    EvaluatedByLevel(tsI, tsJ, dims, dist, radius, coarse.path);
  }

  lemma EvaluatedByLevel(tsI: Series, tsJ: Series, dims: nat, dist: Distance, radius: nat, path: seq<Cell>)
    requires tsI.Valid(dims) && tsJ.Valid(dims) && !Direct(tsI, tsJ, radius)
    requires Halved(tsI, dims).Valid(dims) && Halved(tsI, dims).Size() == tsI.Size() / 2
    requires Halved(tsJ, dims).Valid(dims) && Halved(tsJ, dims).Size() == tsJ.Size() / 2
    requires path == FastWarp(Halved(tsI, dims), Halved(tsJ, dims), dims, dist, radius).path
    ensures EvaluatedCells(tsI, tsJ, dims, dist, radius) ==
            LevelCells(tsI.Size(), tsJ.Size(), path, radius) +
            EvaluatedCells(Halved(tsI, dims), Halved(tsJ, dims), dims, dist, radius)
  {
    var paths := CoarsePaths(tsI, tsJ, dims, dist, radius);
    assert paths[0] == path && paths[1..] == CoarsePaths(Halved(tsI, dims), Halved(tsJ, dims), dims, dist, radius);
  }

  method Shrink(ts: Series, dims: nat) returns (shrunk: PAA)
    requires ts.Valid(dims) && ts.Size() >= 2
    ensures shrunk.AsSeries() == Halved(ts, dims) && shrunk.aggPtSize == BlockSizes(ts.Size(), ts.Size() / 2)
    ensures Halved(ts, dims).Valid(dims) && Halved(ts, dims).Size() == ts.Size() / 2
  {
    ShrunkIsValid(ts, dims, ts.Size() / 2);
    shrunk := new PAA(ts, dims, ts.Size() / 2);
  }

  // The program. A series has no more than JINT_MAX points because its size is a JInt.
  method GetWarpInfoBetween(tsI: Series, tsJ: Series, dims: nat, dist: Distance, searchRadius: int)
    returns (info: Option<WarpInfo>, ghost evaluated: nat)
    requires tsI.Valid(dims) && tsJ.Valid(dims)
    requires 0 < tsI.Size() <= JINT_MAX && 0 < tsJ.Size() <= JINT_MAX
    ensures info == if EndsAtSinglePoints(tsI.Size(), tsJ.Size(), Clamped(searchRadius)) then None
                    else Some(FastWarp(tsI, tsJ, dims, dist, searchRadius))
    ensures evaluated <= EvaluatedCells(tsI, tsJ, dims, dist, Clamped(searchRadius))
    ensures info.Some? ==> evaluated == EvaluatedCells(tsI, tsJ, dims, dist, Clamped(searchRadius))
    decreases tsI.Size()
  {
    var radius := searchRadius;
    if radius < 0 {
      radius := 0;
    }
    var minTSsize := radius + 2;
    if tsI.Size() <= minTSsize || tsJ.Size() <= minTSsize {
      info := Dtw.WarpFull(Aligning(tsI, tsJ, dist));
      evaluated := Area(tsI.Size(), tsJ.Size());
    } else {
      var shrunkI := Shrink(tsI, dims);
      var shrunkJ := Shrink(tsJ, dims);
      var coarse;
      coarse, evaluated := GetWarpInfoBetween(shrunkI.AsSeries(), shrunkJ.AsSeries(), dims, dist, radius);
      if coarse.None? {
        return None, evaluated;
      }
      AnswerByLevel(tsI, tsJ, dims, dist, radius, coarse.value);
      ghost var filled: nat;
      info, filled := Refine(tsI, tsJ, dist, shrunkI, shrunkJ, coarse.value.path, radius);
      evaluated := evaluated + filled;
    }
  }

  // One level: project the coarse path, widen it by the radius, and align inside that window.
  method Refine(tsI: Series, tsJ: Series, dist: Distance, shrunkI: PAA, shrunkJ: PAA, path: seq<Cell>, radius: nat)
    returns (info: Option<WarpInfo>, ghost filled: nat)
    requires 2 <= tsI.Size() <= JINT_MAX && 2 <= tsJ.Size() <= JINT_MAX
    requires LegalTo(path, Cell(tsI.Size() / 2 - 1, tsJ.Size() / 2 - 1))
    requires shrunkI.aggPtSize == BlockSizes(tsI.Size(), tsI.Size() / 2)
    requires shrunkJ.aggPtSize == BlockSizes(tsJ.Size(), tsJ.Size() / 2)
    ensures Projected(tsI.Size(), tsJ.Size(), path).Valid()
    ensures filled == LevelCells(tsI.Size(), tsJ.Size(), path, radius)
    ensures Crossable(Aligning(tsI, tsJ, dist), RefinedWindow(Projected(tsI.Size(), tsJ.Size(), path), radius))
    ensures info ==
              Some(WindowedWarp(Aligning(tsI, tsJ, dist),
                                        RefinedWindow(Projected(tsI.Size(), tsJ.Size(), path), radius)))
  {
    ProjectedIsValid(tsI.Size(), tsJ.Size(), path);
    RefinedIsCrossable(Aligning(tsI, tsJ, dist), Projected(tsI.Size(), tsJ.Size(), path), radius);
    var window := NewExpandedResWindow(tsI.Size(), tsJ.Size(), shrunkI, shrunkJ, path, radius);
    AlignedIffCrossed(Aligning(tsI, tsJ, dist), window.View());
    var aligned: Alignment;
    aligned, filled := Dtw.WarpInWindow(Aligning(tsI, tsJ, dist), window);
    info := Some(WarpInfo(aligned.distance.v, aligned.path));
  }
}
