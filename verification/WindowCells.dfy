// Which cells the constructed window holds: those of the projected blocks and their bridges, and the cells that lie
// up to the search radius away.
module WindowCells {
  import opened WarpGrid
  import opened SearchWindows
  import opened ExpandedResWindow
  import opened WindowSize

  // ---------------------------------------------------------------- the projection

  // One of the two cells beside the corner at which a diagonal move of the coarse path enters its next block.
  ghost predicate Bridges(s: Coarse, k: nat, x: Cell)
    requires s.Valid() && k < |s.path| && s.OnBlocks(s.path[k])
  {
    && k > 0 && s.path[k] == Cell(s.path[k - 1].col + 1, s.path[k - 1].row + 1)
    && (x == Cell(s.Corner(s.path[k]).col - 1, s.Corner(s.path[k]).row) ||
        x == Cell(s.Corner(s.path[k]).col, s.Corner(s.path[k]).row - 1))
  }

  // x belongs to a block on the coarse path, or to a bridge between two of them.
  ghost predicate OnRoute(s: Coarse, x: Cell)
    requires s.Valid()
  {
    exists k :: 0 <= k < |s.path| && s.OnBlocks(s.path[k]) && (s.InBlock(s.path[k], x) || Bridges(s, k, x))
  }

  lemma MarkIsOnRoute(s: Coarse, k: nat, x: Cell)
    requires s.Valid() && k < |s.path| && x in BlockMarks(s, k)
    ensures OnRoute(s, x)
  {
    PathOnBlocks(s, k);
    var c := s.path[k];
    var at := s.Corner(c);
    BlockOffsetGrows(s.sizesJ, c.row, c.row + 1);
    var edges := EdgeMarks(at, s.sizesI[c.col], s.sizesJ[c.row]);
    if x in edges {
      var e :| 0 <= e < |edges| && edges[e] == x;
      EdgeMarkPlace(at, s.sizesI[c.col], s.sizesJ[c.row], e);
      assert s.InBlock(c, x);
    } else {
      assert Step(s.path[k - 1], c);
      assert Bridges(s, k, x);
    }
  }

  lemma RouteIsHeld(s: Coarse, x: Cell)
    requires s.Valid() && OnRoute(s, x)
    ensures Projection(s).Has(x)
  {
    var k :| 0 <= k < |s.path| && s.OnBlocks(s.path[k]) && (s.InBlock(s.path[k], x) || Bridges(s, k, x));
    if s.InBlock(s.path[k], x) {
      ProjectionHoldsBlocks(s, k, x);
    } else {
      assert x in BridgeMarks(s.Corner(s.path[k]), Diagonal(s.path, k));
      MarkedIsHeld(s, k, x);
      ProjectionOnlyGrows(s, k + 1, |s.path|);
    }
  }

  // The projection holds the blocks on the coarse path, the bridges, and in every column what lies between.
  lemma ProjectionIsHull(s: Coarse, x: Cell)
    requires s.Valid()
    ensures Projection(s).Has(x) <==>
            exists a, b :: a <= x.row <= b && OnRoute(s, Cell(x.col, a)) && OnRoute(s, Cell(x.col, b))
  {
    if Projection(s).Has(x) {
      BlockOffsetGrows(s.sizesI, 0, |s.sizesI|);
      BlockOffsetGrows(s.sizesJ, 0, |s.sizesJ|);
      var empty, marks := EmptyWindow(s.Columns(), s.Rows()), ProjectionMarks(s, |s.path|);
      MarksInMatrix(s, |s.path|, empty);
      MarkAllIsHull(empty, marks, x);
      var a, b :| a <= x.row <= b && Touched(empty, marks, Cell(x.col, a)) && Touched(empty, marks, Cell(x.col, b));
      var k := MarkHasBlock(s, |s.path|, Cell(x.col, a));
      var m := MarkHasBlock(s, |s.path|, Cell(x.col, b));
      MarkIsOnRoute(s, k, Cell(x.col, a));
      MarkIsOnRoute(s, m, Cell(x.col, b));
    }
    if a, b :| a <= x.row <= b && OnRoute(s, Cell(x.col, a)) && OnRoute(s, Cell(x.col, b)) {
      RouteIsHeld(s, Cell(x.col, a));
      RouteIsHeld(s, Cell(x.col, b));
    }
  }

  // ---------------------------------------------------------------- the search radius

  // Going one cell and then the rest of the radius is going the radius.
  lemma DestinationInTwo(w: Window, v: Window, c: Cell, d: Direction, radius: nat)
    requires SameMatrix(w, v) && InMatrix(w, c) && d.Compass() && radius > 0
    ensures Destination(v, Destination(w, c, d, 1), d, radius - 1) == Destination(w, c, d, radius)
  {
  }

  lemma SpreadReaches(w: Window, c: Cell, k: nat, radius: nat)
    requires w.Usable() && w.Has(c) && InMatrix(w, c) && k < 8
    ensures SpreadWindow(w, radius).Has(Destination(w, c, CompassPoint(k), radius))
  {
    if radius > 0 {
      var x := Destination(w, c, CompassPoint(k), radius);
      assert Reached(w, radius, Cell(x.col, x.row));
      SpreadWindowIsHull(w, radius, x);
    }
  }

  lemma SecondSpreadReaches(w: Window, v: Window, c: Cell, k: nat, radius: nat)
    requires w.Usable() && v.Usable() && SameMatrix(w, v) && InMatrix(w, c) && k < 8 && radius > 0
    requires v.Has(Destination(w, c, CompassPoint(k), 1))
    ensures SpreadWindow(v, radius - 1).Has(Destination(w, c, CompassPoint(k), radius))
  {
    SpreadReaches(v, Destination(w, c, CompassPoint(k), 1), k, radius - 1);
    DestinationInTwo(w, v, c, CompassPoint(k), radius);
  }

  // From every cell of the window, the expanded window reaches the search radius in all eight directions, or the edge
  // of the matrix.
  lemma ExpandedReaches(w: Window, c: Cell, k: nat, radius: nat)
    requires w.Usable() && w.Has(c) && k < 8
    ensures InMatrix(w, c) && ExpandedWindow(w, radius).Has(Destination(w, c, CompassPoint(k), radius))
  {
    if radius > 0 {
      SpreadReaches(w, c, k, 1);
      SecondSpreadReaches(w, SpreadWindow(w, 1), c, k, radius);
    } else {
      assert Destination(w, c, CompassPoint(k), radius) == c;
    }
  }

  // A cell of the window lies no further than the radius away.
  ghost predicate IsNear(w: Window, radius: nat, x: Cell)
    requires w.Sound()
  {
    exists source :: w.Has(source) && Near(source, x, radius)
  }

  lemma SpreadStaysNear(w: Window, radius: nat, x: Cell)
    requires w.Usable() && SpreadWindow(w, radius).Has(x)
    ensures exists a, b :: a <= x.row <= b && IsNear(w, radius, Cell(x.col, a)) && IsNear(w, radius, Cell(x.col, b))
  {
    if radius > 0 {
      SpreadWindowIsHull(w, radius, x);
      var a, b :| a <= x.row <= b && Reached(w, radius, Cell(x.col, a)) && Reached(w, radius, Cell(x.col, b));
      var below := ReachedIsNear(w, radius, Cell(x.col, a));
      var above := ReachedIsNear(w, radius, Cell(x.col, b));
      assert IsNear(w, radius, Cell(x.col, a)) && IsNear(w, radius, Cell(x.col, b));
    } else {
      assert Near(x, Cell(x.col, x.row), radius) && IsNear(w, radius, Cell(x.col, x.row));
    }
  }

  // Below and above every cell of the expanded window, in its column, is one no further than the radius from the
  // window.
  lemma ExpandedStaysNear(w: Window, radius: nat, x: Cell)
    requires w.Usable() && ExpandedWindow(w, radius).Has(x)
    ensures exists a, b :: a <= x.row <= b && IsNear(w, radius, Cell(x.col, a)) && IsNear(w, radius, Cell(x.col, b))
  {
    if radius == 0 {
      assert Near(x, Cell(x.col, x.row), radius) && IsNear(w, radius, Cell(x.col, x.row));
    } else {
      SecondSpreadStaysNear(w, SpreadWindow(w, 1), radius, x);
    }
  }

  lemma SecondSpreadStaysNear(w: Window, v: Window, radius: nat, x: Cell)
    requires w.Usable() && v == SpreadWindow(w, 1) && radius > 0 && SpreadWindow(v, radius - 1).Has(x)
    ensures exists a, b :: a <= x.row <= b && IsNear(w, radius, Cell(x.col, a)) && IsNear(w, radius, Cell(x.col, b))
  {
    SpreadStaysNear(v, radius - 1, x);
    var a, b :| a <= x.row <= b && IsNear(v, radius - 1, Cell(x.col, a)) && IsNear(v, radius - 1, Cell(x.col, b));
    var low := LowerIsNear(w, radius, x.col, a);
    var high := HigherIsNear(w, radius, x.col, b);
  }

  lemma LowerIsNear(w: Window, radius: nat, col: int, a: int) returns (low: int)
    requires w.Usable() && radius > 0 && IsNear(SpreadWindow(w, 1), radius - 1, Cell(col, a))
    ensures low <= a && IsNear(w, radius, Cell(col, low))
  {
    var y :| SpreadWindow(w, 1).Has(y) && Near(y, Cell(col, a), radius - 1);
    SpreadStaysNear(w, 1, y);
    var b :| b <= y.row && IsNear(w, 1, Cell(y.col, b));
    var z :| w.Has(z) && Near(z, Cell(y.col, b), 1);
    low := a - (y.row - b);
    assert Near(z, Cell(col, low), radius);
  }

  lemma HigherIsNear(w: Window, radius: nat, col: int, a: int) returns (high: int)
    requires w.Usable() && radius > 0 && IsNear(SpreadWindow(w, 1), radius - 1, Cell(col, a))
    ensures high >= a && IsNear(w, radius, Cell(col, high))
  {
    var y :| SpreadWindow(w, 1).Has(y) && Near(y, Cell(col, a), radius - 1);
    SpreadStaysNear(w, 1, y);
    var b :| b >= y.row && IsNear(w, 1, Cell(y.col, b));
    var z :| w.Has(z) && Near(z, Cell(y.col, b), 1);
    high := a + (b - y.row);
    assert Near(z, Cell(col, high), radius);
  }
}
