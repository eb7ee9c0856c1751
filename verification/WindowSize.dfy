// How many cells FastDTW evaluates: a window that follows a warp path is thin, and a thin window has a number of
// cells linear in the lengths of the two series.
module WindowSize {
  import opened WarpGrid
  import opened SearchWindows
  import opened Paa
  import opened ExpandedResWindow

  // A cell `across` or more columns further right is less than `below` rows further down.
  ghost predicate Apart(a: Cell, b: Cell, across: nat, below: nat) {
    a.col + across <= b.col ==> a.row - below < b.row
  }

  ghost predicate Thin(w: Window, across: nat, below: nat)
    requires w.Sound()
  {
    forall a, b :: w.Has(a) && w.Has(b) ==> Apart(a, b, across, below)
  }

  // ---------------------------------------------------------------- counting a thin window

  // Where column `i` starts, continued past the last column by the number of the top row.
  function Bottom(w: Window, i: nat): int {
    if i < |w.lo| then w.lo[i] else w.maxJ
  }

  // The bottoms of `count` columns from `i` on.
  function Bottoms(w: Window, i: nat, count: nat): int
    decreases count
  {
    if count == 0 then 0 else Bottom(w, i) + Bottoms(w, i + 1, count - 1)
  }

  lemma {:induction false} BottomsSlide(w: Window, i: nat, count: nat)
    ensures Bottoms(w, i + 1, count) == Bottoms(w, i, count) - Bottom(w, i) + Bottom(w, i + count)
    decreases count
  {
    if count > 0 {
      BottomsSlide(w, i + 1, count - 1);
    }
  }

  lemma {:induction false} BottomsWithin(w: Window, i: nat, count: nat)
    requires w.Usable()
    ensures 0 <= Bottoms(w, i, count) <= count * w.maxJ
    decreases count
  {
    if count > 0 {
      BottomsWithin(w, i + 1, count - 1);
      assert count * w.maxJ == (count - 1) * w.maxJ + w.maxJ;
    }
  }

  // A column of a thin window reaches no higher than the column `across` further right starts, and `below` more.
  lemma WidthIsThin(w: Window, across: nat, below: nat, i: nat)
    requires w.Usable() && Thin(w, across, below) && below > 0 && i < |w.lo|
    ensures Width(w, i) <= Bottom(w, i + across) - Bottom(w, i) + below
  {
    assert w.Has(Cell(i, w.hi[i]));
    if i + across < |w.lo| {
      assert w.Has(Cell(i + across, w.lo[i + across]));
      assert Apart(Cell(i, w.hi[i]), Cell(i + across, w.lo[i + across]), across, below);
    }
  }

  lemma {:induction false} CellsBeforeThin(w: Window, across: nat, below: nat, n: nat)
    requires w.Usable() && Thin(w, across, below) && below > 0 && n <= |w.lo|
    ensures CellsBefore(w, n) <= Bottoms(w, n, across) - Bottoms(w, 0, across) + n * below
  {
    if n > 0 {
      CellsBeforeThin(w, across, below, n - 1);
      WidthIsThin(w, across, below, n - 1);
      BottomsSlide(w, n - 1, across);
      assert n * below == (n - 1) * below + below;
    }
  }

  lemma ThinIsSmall(w: Window, across: nat, below: nat)
    requires w.Usable() && Thin(w, across, below) && below > 0
    ensures CellCount(w) <= across * w.maxJ + below * |w.lo|
  {
    CellsBeforeThin(w, across, below, |w.lo|);
    BottomsWithin(w, |w.lo|, across);
    BottomsWithin(w, 0, across);
  }

  lemma BreadthBoundsCells(w: Window, breadth: nat, columns: int, rows: int)
    requires w.Usable() && Thin(w, breadth, breadth) && breadth > 0
    requires columns == |w.lo| && rows == w.maxJ + 1
    ensures CellCount(w) <= breadth * (columns + rows - 1)
  {
    ThinIsSmall(w, breadth, breadth);
    assert breadth * w.maxJ + breadth * |w.lo| == breadth * (columns + rows - 1);
  }

  // ---------------------------------------------------------------- spreading a thin window

  // b and c are no further apart than `reach` along either axis.
  predicate Near(a: Cell, b: Cell, reach: nat) {
    a.col - reach <= b.col <= a.col + reach && a.row - reach <= b.row <= a.row + reach
  }

  lemma ReachedIsNear(w: Window, radius: nat, x: Cell) returns (source: Cell)
    requires w.Usable() && Reached(w, radius, x)
    ensures w.Has(source) && Near(source, x, radius)
  {
    source := x;
    if !w.Has(x) {
      var y, k :| w.Has(y) && 0 <= k < 8 && x == Destination(w, y, CompassPoint(k), radius);
      DestinationIsFurthest(w, y, CompassPoint(k), radius);
      source := y;
    }
  }

  // Spreading by `radius` widens both measures by twice the radius.
  lemma SpreadIsThin(w: Window, radius: int, across: nat, below: nat)
    requires w.Usable() && Thin(w, across, below) && radius >= 0
    ensures Thin(SpreadWindow(w, radius), across + 2 * radius, below + 2 * radius)
  {
    if radius > 0 {
      var v := SpreadWindow(w, radius);
      forall a, b | v.Has(a) && v.Has(b) ensures Apart(a, b, across + 2 * radius, below + 2 * radius) {
        SpreadWindowIsHull(w, radius, a);
        SpreadWindowIsHull(w, radius, b);
        var top :| a.row <= top && Reached(w, radius, Cell(a.col, top));
        var bottom :| bottom <= b.row && Reached(w, radius, Cell(b.col, bottom));
        var x := ReachedIsNear(w, radius, Cell(a.col, top));
        var y := ReachedIsNear(w, radius, Cell(b.col, bottom));
        assert Apart(x, y, across, below);
      }
    }
  }

  lemma ExpandedIsThin(w: Window, radius: nat, across: nat, below: nat)
    requires w.Usable() && Thin(w, across, below)
    ensures Thin(ExpandedWindow(w, radius), across + 2 * radius, below + 2 * radius)
  {
    if radius > 0 {
      var v := SpreadWindow(w, 1);
      SpreadIsThin(w, 1, across, below);
      SpreadTwiceIsThin(w, v, radius, across, below);
    }
  }

  lemma SpreadTwiceIsThin(w: Window, v: Window, radius: nat, across: nat, below: nat)
    requires w.Usable() && radius > 0 && v == SpreadWindow(w, 1) && Thin(v, across + 2, below + 2)
    ensures Thin(ExpandedWindow(w, radius), across + 2 * radius, below + 2 * radius)
  {
    SpreadIsThin(v, radius - 1, across + 2, below + 2);
  }

  // ---------------------------------------------------------------- the projection is thin

  ghost predicate BlocksWithin(sizes: seq<int>, most: nat) {
    forall k :: 0 <= k < |sizes| ==> sizes[k] <= most
  }

  // The marks made for one cell of the coarse path lie in its block, or one column or one row before it.
  lemma MarksByBlock(s: Coarse, k: nat, x: Cell)
    requires s.Valid() && k < |s.path| && x in BlockMarks(s, k)
    ensures s.OnBlocks(s.path[k])
    ensures s.Corner(s.path[k]).col - 1 <= x.col <= s.FarCorner(s.path[k]).col
    ensures s.Corner(s.path[k]).row - 1 <= x.row <= s.FarCorner(s.path[k]).row
  {
    PathOnBlocks(s, k);
    var c := s.path[k];
    var at := s.Corner(c);
    BlockOffsetGrows(s.sizesI, c.col, c.col + 1);
    BlockOffsetGrows(s.sizesJ, c.row, c.row + 1);
    var edges := EdgeMarks(at, s.sizesI[c.col], s.sizesJ[c.row]);
    if x in edges {
      var e :| 0 <= e < |edges| && edges[e] == x;
      EdgeMarkPlace(at, s.sizesI[c.col], s.sizesJ[c.row], e);
    }
  }

  lemma {:induction false} MarkHasBlock(s: Coarse, n: nat, x: Cell) returns (k: nat)
    requires s.Valid() && n <= |s.path| && x in ProjectionMarks(s, n)
    ensures k < n && x in BlockMarks(s, k)
  {
    if x in BlockMarks(s, n - 1) {
      k := n - 1;
    } else {
      k := MarkHasBlock(s, n - 1, x);
    }
  }

  lemma PathGoesOn(path: seq<Cell>, a: nat, b: nat)
    requires Legal(path) && a <= b < |path|
    ensures path[a].col <= path[b].col && path[a].row <= path[b].row
  {
    LegalBounded(path[..b + 1], a);
  }

  // Marks of a later block are hardly lower, and marks of an earlier block hardly further right.
  lemma MarksAreApart(s: Coarse, most: nat, a: nat, x: Cell, b: nat, y: Cell)
    requires s.Valid() && BlocksWithin(s.sizesI, most) && BlocksWithin(s.sizesJ, most)
    requires a < |s.path| && x in BlockMarks(s, a) && b < |s.path| && y in BlockMarks(s, b)
    ensures Apart(x, y, most + 1, most + 1)
  {
    MarksByBlock(s, a, x);
    MarksByBlock(s, b, y);
    var p, q := s.path[a], s.path[b];
    if a <= b {
      PathGoesOn(s.path, a, b);
      BlockOffsetGrows(s.sizesJ, p.row, q.row);
    } else {
      PathGoesOn(s.path, b, a);
      BlockOffsetGrows(s.sizesI, q.col, p.col);
    }
  }

  lemma ProjectionIsThin(s: Coarse, most: nat)
    requires s.Valid() && BlocksWithin(s.sizesI, most) && BlocksWithin(s.sizesJ, most)
    ensures Projection(s).Sound() && Thin(Projection(s), most + 1, most + 1)
  {
    BlockOffsetGrows(s.sizesI, 0, |s.sizesI|);
    BlockOffsetGrows(s.sizesJ, 0, |s.sizesJ|);
    var empty, marks := EmptyWindow(s.Columns(), s.Rows()), ProjectionMarks(s, |s.path|);
    var w := Projection(s);
    MarksInMatrix(s, |s.path|, empty);
    forall a, b | w.Has(a) && w.Has(b) ensures Apart(a, b, most + 1, most + 1) {
      MarkAllIsHull(empty, marks, a);
      MarkAllIsHull(empty, marks, b);
      var top :| a.row <= top && Touched(empty, marks, Cell(a.col, top));
      var bottom :| bottom <= b.row && Touched(empty, marks, Cell(b.col, bottom));
      var k := MarkHasBlock(s, |s.path|, Cell(a.col, top));
      var m := MarkHasBlock(s, |s.path|, Cell(b.col, bottom));
      MarksAreApart(s, most, k, Cell(a.col, top), m, Cell(b.col, bottom));
    }
  }

  lemma ExpandedIsSmall(w: Window, v: Window, radius: nat, breadth: nat, columns: int, rows: int)
    requires w.Usable() && Thin(w, breadth, breadth) && breadth > 0
    requires v == ExpandedWindow(w, radius) && columns == |v.lo| && rows == v.maxJ + 1
    ensures CellCount(v) <= (breadth + 2 * radius) * (columns + rows - 1)
  {
    ExpandedIsThin(w, radius, breadth, breadth);
    BreadthBoundsCells(v, breadth + 2 * radius, columns, rows);
  }

  // The finished window has at most (most + 1 + 2 * radius) * (columns + rows - 1) cells, where no block has more
  // than `most` points.
  lemma RefinedWindowIsLinear(s: Coarse, radius: nat, most: nat)
    requires s.Valid() && BlocksWithin(s.sizesI, most) && BlocksWithin(s.sizesJ, most)
    ensures CellCount(RefinedWindow(s, radius)) <= (most + 1 + 2 * radius) * (s.Columns() + s.Rows() - 1)
  {
    ProjectionIsThin(s, most);
    ProjectionIsCrossed(s);
    ExpandedIsSmall(Projection(s), RefinedWindow(s, radius), radius, most + 1, s.Columns(), s.Rows());
  }

  // Halving makes blocks of two or three points.
  lemma HalvesAreSmall(size: nat)
    requires size >= 2
    ensures BlocksWithin(BlockSizes(size, size / 2), 3)
  {
    forall k | 0 <= k < size / 2 ensures BlockSizes(size, size / 2)[k] <= 3 {
      BlockSizeIsEven(size, size / 2, k);
      HalfUp(size);
    }
  }

  lemma HalfUp(size: nat)
    requires size >= 2
    ensures (size + size / 2 - 1) / (size / 2) <= 3
  {
    var m := size / 2;
    assert size + m - 1 <= 3 * m;
    DivisionUp(size, m);
    if size == 2 * m {
      DivisionIsUnique(size, m, 2, 0);
    } else if m > 1 {
      DivisionIsUnique(size, m, 2, 1);
    }
  }
}
