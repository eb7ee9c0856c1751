// ExpandedResWindow: the warp path of two shrunk series, projected back to the original resolution
// and widened by the search radius.
module ExpandedResWindow {
  import opened WarpGrid
  import opened SearchWindows
  import opened Paa

  // ---------------------------------------------------------------- blocks

  // How many original points the first `k` shrunk points stand for.
  function BlockOffset(sizes: seq<int>, k: nat): int
    requires k <= |sizes|
  {
    if k == 0 then 0 else BlockOffset(sizes, k - 1) + sizes[k - 1]
  }

  ghost predicate Positive(sizes: seq<int>) {
    |sizes| > 0 && forall k :: 0 <= k < |sizes| ==> sizes[k] > 0
  }

  lemma {:induction false} BlockOffsetGrows(sizes: seq<int>, a: nat, b: nat)
    requires Positive(sizes) && a <= b <= |sizes|
    ensures 0 <= BlockOffset(sizes, a) <= BlockOffset(sizes, b)
    ensures a < b ==> BlockOffset(sizes, a) < BlockOffset(sizes, b)
    decreases b
  {
    if a < b {
      BlockOffsetGrows(sizes, a, b - 1);
    } else if a > 0 {
      BlockOffsetGrows(sizes, 0, a - 1);
    }
  }

  // The block sizes of PAA add up to its block boundaries.
  lemma {:induction false} BlockOffsetIsStart(n: nat, m: nat, k: nat)
    requires 0 < m <= n && k <= m
    ensures BlockOffset(BlockSizes(n, m), k) == BlockStart(n, m, k)
    ensures Positive(BlockSizes(n, m))
  {
    BlockEnds(n, m);
    forall i | 0 <= i < m ensures BlockSizes(n, m)[i] > 0 {
      BlockSizeIsEven(n, m, i);
    }
    if k > 0 {
      BlockOffsetIsStart(n, m, k - 1);
    }
  }

  // The shrunk problem: how the two series were cut into blocks, and a warp path over the blocks.
  datatype Coarse = Coarse(sizesI: seq<int>, sizesJ: seq<int>, path: seq<Cell>) {
    ghost predicate Valid() {
      && Positive(sizesI) && Positive(sizesJ)
      && LegalTo(path, Cell(|sizesI| - 1, |sizesJ| - 1))
    }

    function Columns(): int {
      BlockOffset(sizesI, |sizesI|)
    }

    function Rows(): int {
      BlockOffset(sizesJ, |sizesJ|)
    }

    ghost predicate OnBlocks(c: Cell) {
      0 <= c.col < |sizesI| && 0 <= c.row < |sizesJ|
    }

    // Lower-left and upper-right cells of a block.
    function Corner(c: Cell): Cell
      requires OnBlocks(c)
    {
      Cell(BlockOffset(sizesI, c.col), BlockOffset(sizesJ, c.row))
    }

    function FarCorner(c: Cell): Cell
      requires OnBlocks(c)
    {
      Cell(BlockOffset(sizesI, c.col + 1) - 1, BlockOffset(sizesJ, c.row + 1) - 1)
    }

    ghost predicate InBlock(c: Cell, x: Cell)
      requires OnBlocks(c)
    {
      Corner(c).col <= x.col <= FarCorner(c).col && Corner(c).row <= x.row <= FarCorner(c).row
    }
  }

  lemma PathOnBlocks(s: Coarse, k: nat)
    requires s.Valid() && k < |s.path|
    ensures s.OnBlocks(s.path[k])
  {
    LegalBounded(s.path, k);
  }

  lemma BlockInMatrix(s: Coarse, c: Cell, x: Cell)
    requires s.Valid() && s.OnBlocks(c) && s.InBlock(c, x)
    ensures 0 <= x.col < s.Columns() && 0 <= x.row < s.Rows()
  {
    BlockOffsetGrows(s.sizesI, 0, c.col);
    BlockOffsetGrows(s.sizesI, c.col + 1, |s.sizesI|);
    BlockOffsetGrows(s.sizesJ, 0, c.row);
    BlockOffsetGrows(s.sizesJ, c.row + 1, |s.sizesJ|);
  }

  // ---------------------------------------------------------------- the projected window

  // Bottom and top row of the first `width` columns of a block of height `height` at `at`.
  function EdgeMarks(at: Cell, width: nat, height: int): (marks: seq<Cell>)
    ensures |marks| == 2 * width
  {
    if width == 0 then []
    else EdgeMarks(at, width - 1, height) +
         [Cell(at.col + width - 1, at.row), Cell(at.col + width - 1, at.row + height - 1)]
  }

  // A diagonal move also marks the two cells that keep the projected path wide.
  predicate Diagonal(path: seq<Cell>, k: nat)
    requires k < |path|
  {
    k > 0 && path[k].col > path[k - 1].col && path[k].row > path[k - 1].row
  }

  function BridgeMarks(at: Cell, diagonal: bool): seq<Cell> {
    if diagonal then [Cell(at.col - 1, at.row), Cell(at.col, at.row - 1)] else []
  }

  function BlockMarks(s: Coarse, k: nat): seq<Cell>
    requires s.Valid() && k < |s.path|
  {
    PathOnBlocks(s, k);
    var at := s.Corner(s.path[k]);
    BridgeMarks(at, Diagonal(s.path, k)) + EdgeMarks(at, s.sizesI[s.path[k].col], s.sizesJ[s.path[k].row])
  }

  // Everything marked for the first `k` cells of the coarse path.
  function ProjectionMarks(s: Coarse, k: nat): seq<Cell>
    requires s.Valid() && k <= |s.path|
  {
    if k == 0 then [] else ProjectionMarks(s, k - 1) + BlockMarks(s, k - 1)
  }

  function EmptyWindow(columns: nat, rows: nat): Window {
    Window(seq(columns, _ => -1), seq(columns, _ => 0), rows - 1)
  }

  lemma {:induction false} EdgeMarkPlace(at: Cell, width: nat, height: int, k: nat)
    requires k < 2 * width
    ensures var c := EdgeMarks(at, width, height)[k];
            at.col <= c.col < at.col + width && (c.row == at.row || c.row == at.row + height - 1)
  {
    if k < 2 * (width - 1) {
      EdgeMarkPlace(at, width - 1, height, k);
    }
  }

  lemma {:induction false} EdgesAreMarked(at: Cell, width: nat, height: int, x: nat)
    requires x < width
    ensures Cell(at.col + x, at.row) in EdgeMarks(at, width, height)
    ensures Cell(at.col + x, at.row + height - 1) in EdgeMarks(at, width, height)
  {
    var front := EdgeMarks(at, width - 1, height);
    var all := EdgeMarks(at, width, height);
    if x < width - 1 {
      EdgesAreMarked(at, width - 1, height, x);
    } else {
      assert all[|front|] == Cell(at.col + x, at.row) && all[|front| + 1] == Cell(at.col + x, at.row + height - 1);
    }
  }

  lemma BlockMarksInMatrix(s: Coarse, k: nat, w: Window)
    requires s.Valid() && k < |s.path|
    requires |w.lo| == s.Columns() && w.maxJ == s.Rows() - 1
    ensures AllInMatrix(w, BlockMarks(s, k))
  {
    PathOnBlocks(s, k);
    var c := s.path[k];
    var at := s.Corner(c);
    var edges := EdgeMarks(at, s.sizesI[c.col], s.sizesJ[c.row]);
    forall x | 0 <= x < |edges| ensures InMatrix(w, edges[x]) {
      EdgeMarkPlace(at, s.sizesI[c.col], s.sizesJ[c.row], x);
      BlockInMatrix(s, c, edges[x]);
    }
    if Diagonal(s.path, k) {
      PathOnBlocks(s, k - 1);
      BlockInMatrix(s, c, at);
      BlockOffsetGrows(s.sizesI, 0, c.col);
      BlockOffsetGrows(s.sizesJ, 0, c.row);
    }
  }

  lemma {:induction false} MarksInMatrix(s: Coarse, k: nat, w: Window)
    requires s.Valid() && k <= |s.path|
    requires |w.lo| == s.Columns() && w.maxJ == s.Rows() - 1
    ensures AllInMatrix(w, ProjectionMarks(s, k))
  {
    if k > 0 {
      MarksInMatrix(s, k - 1, w);
      BlockMarksInMatrix(s, k - 1, w);
    }
  }

  // The window once the first `k` cells of the coarse path are projected.
  ghost function PartialProjection(s: Coarse, k: nat): (w: Window)
    requires s.Valid() && k <= |s.path|
    ensures w.Sound() && |w.lo| == s.Columns() && w.maxJ == s.Rows() - 1
  {
    BlockOffsetGrows(s.sizesI, 0, |s.sizesI|);
    BlockOffsetGrows(s.sizesJ, 0, |s.sizesJ|);
    MarksInMatrix(s, k, EmptyWindow(s.Columns(), s.Rows()));
    MarkAll(EmptyWindow(s.Columns(), s.Rows()), ProjectionMarks(s, k))
  }

  ghost function Projection(s: Coarse): Window
    requires s.Valid()
  {
    PartialProjection(s, |s.path|)
  }

  lemma PartialProjectionStep(s: Coarse, k: nat)
    requires s.Valid() && k < |s.path|
    ensures AllInMatrix(PartialProjection(s, k), BlockMarks(s, k))
    ensures PartialProjection(s, k + 1) == MarkAll(PartialProjection(s, k), BlockMarks(s, k))
    ensures Grows(PartialProjection(s, k), PartialProjection(s, k + 1))
  {
    BlockOffsetGrows(s.sizesI, 0, |s.sizesI|);
    BlockOffsetGrows(s.sizesJ, 0, |s.sizesJ|);
    var w := EmptyWindow(s.Columns(), s.Rows());
    MarksInMatrix(s, k, w);
    BlockMarksInMatrix(s, k, w);
    MarkAllConcat(w, ProjectionMarks(s, k), BlockMarks(s, k));
    MarkAllGrows(PartialProjection(s, k), BlockMarks(s, k));
  }

  lemma MarkedIsHeld(s: Coarse, k: nat, x: Cell)
    requires s.Valid() && k < |s.path| && x in BlockMarks(s, k)
    ensures PartialProjection(s, k + 1).Has(x)
  {
    PartialProjectionStep(s, k);
    TouchedIsIn(PartialProjection(s, k), BlockMarks(s, k), x);
  }

  lemma BlockEdgesAreMarked(s: Coarse, k: nat, col: int)
    requires s.Valid() && k < |s.path| && s.OnBlocks(s.path[k])
    requires s.Corner(s.path[k]).col <= col <= s.FarCorner(s.path[k]).col
    ensures Cell(col, s.Corner(s.path[k]).row) in BlockMarks(s, k)
    ensures Cell(col, s.FarCorner(s.path[k]).row) in BlockMarks(s, k)
  {
    var c := s.path[k];
    var at := s.Corner(c);
    EdgesAreMarked(at, s.sizesI[c.col], s.sizesJ[c.row], col - at.col);
  }

  // Every cell of a projected block is in the window, not only its bottom and top rows.
  lemma BlockIsHeld(s: Coarse, k: nat, x: Cell)
    requires s.Valid() && k < |s.path| && s.OnBlocks(s.path[k]) && s.InBlock(s.path[k], x)
    ensures PartialProjection(s, k + 1).Has(x)
  {
    BlockEdgesAreMarked(s, k, x.col);
    MarkedIsHeld(s, k, Cell(x.col, s.Corner(s.path[k]).row));
    MarkedIsHeld(s, k, Cell(x.col, s.FarCorner(s.path[k]).row));
  }

  lemma {:induction false} ProjectionOnlyGrows(s: Coarse, a: nat, b: nat)
    requires s.Valid() && a <= b <= |s.path|
    ensures Grows(PartialProjection(s, a), PartialProjection(s, b))
    decreases b
  {
    if a < b {
      ProjectionOnlyGrows(s, a, b - 1);
      PartialProjectionStep(s, b - 1);
    }
  }

  // ---------------------------------------------------------------- a fine path through the blocks

  ghost predicate ExtendsInside(path: seq<Cell>, longer: seq<Cell>, lo: Cell, hi: Cell) {
    forall x :: x in longer ==> x in path || (lo.col <= x.col <= hi.col && lo.row <= x.row <= hi.row)
  }

  ghost function ClimbTo(path: seq<Cell>, end: Cell, row: int): (longer: seq<Cell>)
    requires LegalTo(path, end) && end.row <= row
    ensures LegalTo(longer, Cell(end.col, row)) && ExtendsInside(path, longer, end, Cell(end.col, row))
    decreases row - end.row
  {
    if end.row == row then path
    else ClimbTo(path + [Cell(end.col, end.row + 1)], Cell(end.col, end.row + 1), row)
  }

  ghost function StrideTo(path: seq<Cell>, end: Cell, col: int): (longer: seq<Cell>)
    requires LegalTo(path, end) && end.col <= col
    ensures LegalTo(longer, Cell(col, end.row)) && ExtendsInside(path, longer, end, Cell(col, end.row))
    decreases col - end.col
  {
    if end.col == col then path
    else StrideTo(path + [Cell(end.col + 1, end.row)], Cell(end.col + 1, end.row), col)
  }

  // Across the first block: up its first column, then right along its top row.
  lemma FirstLeg(s: Coarse) returns (path: seq<Cell>)
    requires s.Valid() && s.OnBlocks(s.path[0])
    ensures LegalTo(path, s.FarCorner(s.path[0]))
    ensures forall x :: x in path ==> s.InBlock(s.path[0], x)
  {
    var far := s.FarCorner(Cell(0, 0));
    BlockOffsetGrows(s.sizesI, 0, 1);
    BlockOffsetGrows(s.sizesJ, 0, 1);
    var climbed := ClimbTo([Cell(0, 0)], Cell(0, 0), far.row);
    path := StrideTo(climbed, Cell(0, far.row), far.col);
  }

  // From the far corner of one block to the far corner of the next.
  lemma NextLeg(s: Coarse, p: Cell, c: Cell, before: seq<Cell>) returns (path: seq<Cell>)
    requires s.Valid() && s.OnBlocks(p) && s.OnBlocks(c) && Step(p, c)
    requires LegalTo(before, s.FarCorner(p))
    ensures LegalTo(path, s.FarCorner(c))
    ensures forall x :: x in path ==> x in before || s.InBlock(c, x)
  {
    var corner, far := s.Corner(c), s.FarCorner(c);
    BlockOffsetGrows(s.sizesI, c.col, c.col + 1);
    BlockOffsetGrows(s.sizesJ, c.row, c.row + 1);
    var start: Cell;
    if c.row == p.row {
      start := Cell(corner.col, far.row);
    } else if c.col == p.col {
      start := Cell(far.col, corner.row);
    } else {
      start := corner;
    }
    assert LegalTo(before + [start], start);
    var climbed := ClimbTo(before + [start], start, far.row);
    path := StrideTo(climbed, Cell(start.col, far.row), far.col);
  }

  // A fine path that follows the coarse one up to the far corner of its k-th block.
  lemma {:induction false} FinePath(s: Coarse, k: nat) returns (path: seq<Cell>)
    requires s.Valid() && k < |s.path|
    ensures s.OnBlocks(s.path[k]) && LegalTo(path, s.FarCorner(s.path[k]))
    ensures Inside(path, PartialProjection(s, k + 1))
    ensures forall x :: x in path ==> exists b :: 0 <= b <= k && s.OnBlocks(s.path[b]) && s.InBlock(s.path[b], x)
  {
    PathOnBlocks(s, k);
    var before: seq<Cell> := [];
    if k == 0 {
      path := FirstLeg(s);
    } else {
      before := FinePath(s, k - 1);
      path := NextLeg(s, s.path[k - 1], s.path[k], before);
    }
    FinePathInside(s, k, before, path);
  }

  lemma FinePathInside(s: Coarse, k: nat, before: seq<Cell>, path: seq<Cell>)
    requires s.Valid() && k < |s.path| && s.OnBlocks(s.path[k])
    requires forall x :: x in path ==> x in before || s.InBlock(s.path[k], x)
    requires Inside(before, PartialProjection(s, k))
    requires forall x :: x in before ==> exists b :: 0 <= b < k && s.OnBlocks(s.path[b]) && s.InBlock(s.path[b], x)
    ensures Inside(path, PartialProjection(s, k + 1))
    ensures forall x :: x in path ==> exists b :: 0 <= b <= k && s.OnBlocks(s.path[b]) && s.InBlock(s.path[b], x)
  {
    PartialProjectionStep(s, k);
    forall i | 0 <= i < |path| ensures PartialProjection(s, k + 1).Has(path[i]) {
      assert path[i] in path;
      if s.InBlock(s.path[k], path[i]) {
        BlockIsHeld(s, k, path[i]);
      } else {
        var j :| 0 <= j < |before| && before[j] == path[i];
      }
    }
  }

  // A path that crosses a window leaves none of its columns empty.
  lemma {:induction false} CrossingFillsColumns(path: seq<Cell>, end: Cell, i: int)
    requires LegalTo(path, end) && 0 <= i <= end.col
    ensures exists k :: 0 <= k < |path| && path[k].col == i
    decreases |path|
  {
    LegalBounded(path, 0);
    if i == end.col {
      assert path[|path| - 1].col == i;
    } else {
      var shorter := path[..|path| - 1];
      assert Step(path[|path| - 2], end);
      CrossingFillsColumns(shorter, path[|path| - 2], i);
      var k :| 0 <= k < |shorter| && shorter[k].col == i;
      assert path[k].col == i;
    }
  }

  // The projection holds every cell of every block on the coarse path.
  lemma ProjectionHoldsBlocks(s: Coarse, k: nat, x: Cell)
    requires s.Valid() && k < |s.path| && s.OnBlocks(s.path[k]) && s.InBlock(s.path[k], x)
    ensures Projection(s).Has(x)
  {
    BlockIsHeld(s, k, x);
    ProjectionOnlyGrows(s, k + 1, |s.path|);
  }

  // A legal fine path from (0,0) to the far corner that never leaves the projected blocks.
  ghost predicate FollowsBlocks(s: Coarse, path: seq<Cell>)
    requires s.Valid()
  {
    && LegalTo(path, Cell(s.Columns() - 1, s.Rows() - 1))
    && forall x :: x in path ==> exists b :: 0 <= b < |s.path| && s.OnBlocks(s.path[b]) && s.InBlock(s.path[b], x)
  }

  // There is one, it lies in the projection, and so no column of the projection is empty.
  lemma ProjectionIsCrossed(s: Coarse)
    requires s.Valid()
    ensures Projection(s).Usable()
    ensures exists path :: FollowsBlocks(s, path)
    ensures forall path :: FollowsBlocks(s, path) ==> Inside(path, Projection(s))
  {
    var found := FinePath(s, |s.path| - 1);
    assert FollowsBlocks(s, found);
    forall path | FollowsBlocks(s, path) ensures Inside(path, Projection(s)) {
      forall i | 0 <= i < |path| ensures Projection(s).Has(path[i]) {
        assert path[i] in path;
        var b :| 0 <= b < |s.path| && s.OnBlocks(s.path[b]) && s.InBlock(s.path[b], path[i]);
        ProjectionHoldsBlocks(s, b, path[i]);
      }
    }
    var w := Projection(s);
    assert w.Has(found[0]);
    forall i | 0 <= i < |w.lo| ensures w.lo[i] >= 0 {
      CrossingFillsColumns(found, found[|found| - 1], i);
      var k :| 0 <= k < |found| && found[k].col == i;
      assert w.Has(found[k]);
    }
  }

  // The finished window: the projection, expanded by the search radius.
  ghost function RefinedWindow(s: Coarse, radius: int): (w: Window)
    requires s.Valid()
    ensures w.Usable() && |w.lo| == s.Columns() && w.maxJ == s.Rows() - 1
    ensures Projection(s).Sound() && Grows(Projection(s), w)
  {
    ProjectionIsCrossed(s);
    ExpandedWindow(Projection(s), radius)
  }

  // So the finished window can be crossed by every fine path along the blocks, of which there is one.
  lemma RefinedWindowIsCrossed(s: Coarse, radius: int)
    requires s.Valid()
    ensures exists path :: FollowsBlocks(s, path)
    ensures forall path :: FollowsBlocks(s, path) ==> Inside(path, RefinedWindow(s, radius))
  {
    ProjectionIsCrossed(s);
    forall path | FollowsBlocks(s, path) ensures Inside(path, RefinedWindow(s, radius)) {
      assert Inside(path, Projection(s));
    }
  }

  // ---------------------------------------------------------------- the constructor

  // One cell of the low-resolution path: the two bridge cells and the block's edges.
  method ProjectBlock(window: SearchWindow, currentI: int, currentJ: int, diagonal: bool, blockISize: nat,
                      blockJSize: int)
    requires window.Valid()
    requires AllInMatrix(window.View(),
               BridgeMarks(Cell(currentI, currentJ), diagonal) +
                 EdgeMarks(Cell(currentI, currentJ), blockISize, blockJSize))
    modifies window, window.minValues, window.maxValues
    ensures window.Valid()
    ensures window.View() == MarkAll(old(window.View()),
               BridgeMarks(Cell(currentI, currentJ), diagonal) +
                 EdgeMarks(Cell(currentI, currentJ), blockISize, blockJSize))
  {
    ghost var start := window.View();
    ghost var at := Cell(currentI, currentJ);
    ghost var bridge := BridgeMarks(at, diagonal);
    ghost var edges := EdgeMarks(at, blockISize, blockJSize);
    assert AllInMatrix(start, bridge) by {
      forall k | 0 <= k < |bridge| ensures InMatrix(start, bridge[k]) {
        assert (bridge + edges)[k] == bridge[k];
      }
    }
    assert AllInMatrix(start, edges) by {
      forall k | 0 <= k < |edges| ensures InMatrix(start, edges[k]) {
        assert (bridge + edges)[|bridge| + k] == edges[k];
      }
    }
    MarkBridge(window, currentI, currentJ, diagonal);
    MarkAllConcat(start, bridge, edges);
    MarkEdges(window, currentI, currentJ, blockISize, blockJSize);
  }

  method MarkBridge(window: SearchWindow, currentI: int, currentJ: int, diagonal: bool)
    requires window.Valid() && AllInMatrix(window.View(), BridgeMarks(Cell(currentI, currentJ), diagonal))
    modifies window, window.minValues, window.maxValues
    ensures window.Valid()
    ensures window.View() == MarkAll(old(window.View()), BridgeMarks(Cell(currentI, currentJ), diagonal))
  {
    ghost var start := window.View();
    ghost var bridge := BridgeMarks(Cell(currentI, currentJ), diagonal);
    if diagonal {
      assert InMatrix(start, bridge[0]) && InMatrix(start, bridge[1]);
      MarkTwo(start, [], bridge[0], bridge[1]);
      assert [] + [bridge[0]] + [bridge[1]] == bridge;
      MarkBoth(window, Cell(currentI - 1, currentJ), Cell(currentI, currentJ - 1));
    }
  }

  method MarkEdges(window: SearchWindow, currentI: int, currentJ: int, blockISize: nat, blockJSize: int)
    requires window.Valid() && AllInMatrix(window.View(), EdgeMarks(Cell(currentI, currentJ), blockISize, blockJSize))
    modifies window, window.minValues, window.maxValues
    ensures window.Valid()
    ensures window.View() == MarkAll(old(window.View()), EdgeMarks(Cell(currentI, currentJ), blockISize, blockJSize))
  {
    ghost var start := window.View();
    var at := Cell(currentI, currentJ);
    for x := 0 to blockISize
      invariant window.Valid() && EdgesMarked(start, window.View(), at, x, blockJSize)
    {
      MarkColumn(window, start, at, x, blockISize, blockJSize);
    }
  }

  // The bottom and the top cell of one column of a block.
  method MarkColumn(window: SearchWindow, ghost start: Window, at: Cell, x: nat, ghost width: nat, height: int)
    requires window.Valid() && start.Sound() && AllInMatrix(start, EdgeMarks(at, width, height)) && x < width
    requires EdgesMarked(start, window.View(), at, x, height)
    modifies window, window.minValues, window.maxValues
    ensures window.Valid() && EdgesMarked(start, window.View(), at, x + 1, height)
  {
    EdgeMarksStep(start, window.View(), at, x, width, height);
    MarkBoth(window, Cell(at.col + x, at.row), Cell(at.col + x, at.row + height - 1));
  }

  ghost predicate EdgesMarked(start: Window, w: Window, at: Cell, x: nat, height: int) {
    && start.Sound() && AllInMatrix(start, EdgeMarks(at, x, height))
    && w == MarkAll(start, EdgeMarks(at, x, height))
  }

  method MarkBoth(window: SearchWindow, low: Cell, high: Cell)
    requires window.Valid() && InMatrix(window.View(), low) && InMatrix(window.View(), high)
    modifies window, window.minValues, window.maxValues
    ensures window.Valid() && InMatrix(Mark(old(window.View()), low), high)
    ensures window.View() == Mark(Mark(old(window.View()), low), high)
  {
    window.MarkVisited(low.col, low.row);
    window.MarkVisited(high.col, high.row);
  }

  lemma EdgeMarksStep(start: Window, w: Window, at: Cell, x: nat, width: nat, height: int)
    requires start.Sound() && AllInMatrix(start, EdgeMarks(at, width, height)) && x < width
    requires EdgesMarked(start, w, at, x, height)
    ensures w.Sound() && InMatrix(w, Cell(at.col + x, at.row))
    ensures var v := Mark(w, Cell(at.col + x, at.row));
            && InMatrix(v, Cell(at.col + x, at.row + height - 1))
            && EdgesMarked(start, Mark(v, Cell(at.col + x, at.row + height - 1)), at, x + 1, height)
  {
    var front, all := EdgeMarks(at, x, height), EdgeMarks(at, width, height);
    var low, high := Cell(at.col + x, at.row), Cell(at.col + x, at.row + height - 1);
    EdgesAreMarked(at, width, height, x);
    MarkTwo(start, front, low, high);
    assert EdgeMarks(at, x + 1, height) == front + [low] + [high];
  }

  lemma MarkTwo(start: Window, front: seq<Cell>, low: Cell, high: Cell)
    requires start.Sound() && AllInMatrix(start, front) && InMatrix(start, low) && InMatrix(start, high)
    ensures var w, marks := MarkAll(start, front), front + [low] + [high];
            && w.Sound() && InMatrix(w, low) && InMatrix(Mark(w, low), high)
            && AllInMatrix(start, marks) && MarkAll(start, marks) == Mark(Mark(w, low), high)
  {
    MarkAllOneMore(start, front, low);
    MarkAllOneMore(start, front + [low], high);
  }

  // Blocks are no more than the points they stand for.
  lemma BlockCountWithin(s: Coarse, c: Cell)
    requires s.Valid() && s.OnBlocks(c)
    ensures c.col < s.Columns() && c.row < s.Rows()
  {
    OffsetAtLeastIndex(s.sizesI, |s.sizesI|);
    OffsetAtLeastIndex(s.sizesJ, |s.sizesJ|);
  }

  lemma {:induction false} OffsetAtLeastIndex(sizes: seq<int>, k: nat)
    requires Positive(sizes) && k <= |sizes|
    ensures BlockOffset(sizes, k) >= k
  {
    if k > 0 {
      OffsetAtLeastIndex(sizes, k - 1);
    }
  }

  // The offsets of the next block, from those of the last one.
  lemma CornerMoves(s: Coarse, w: nat)
    requires s.Valid() && 0 < w < |s.path|
    ensures s.OnBlocks(s.path[w - 1]) && s.OnBlocks(s.path[w])
    ensures var p, c := s.path[w - 1], s.path[w];
            && s.Corner(c).col == s.Corner(p).col + (if c.col > p.col then s.sizesI[p.col] else 0)
            && s.Corner(c).row == s.Corner(p).row + (if c.row > p.row then s.sizesJ[p.row] else 0)
            && Diagonal(s.path, w) == (c.row > p.row && c.col > p.col)
  {
    PathOnBlocks(s, w - 1);
    PathOnBlocks(s, w);
    assert Step(s.path[w - 1], s.path[w]);
  }

  // Advance (currentI, currentJ) to the block of the w-th cell, and tell whether the path moved diagonally.
  method NextBlock(sizesI: seq<int>, sizesJ: seq<int>, path: seq<Cell>, w: nat,
                   currentI: int, currentJ: int, lastWarpedI: int, lastWarpedJ: int)
    returns (i: int, j: int, diagonal: bool)
    requires Coarse(sizesI, sizesJ, path).Valid() && w < |path|
    requires Coarse(sizesI, sizesJ, path).Columns() <= JINT_MAX && Coarse(sizesI, sizesJ, path).Rows() <= JINT_MAX
    requires w == 0 ==> lastWarpedI == lastWarpedJ == JINT_MAX && Cell(currentI, currentJ) == Cell(0, 0)
    requires w > 0 ==>
               && Cell(lastWarpedI, lastWarpedJ) == path[w - 1] && Coarse(sizesI, sizesJ, path).OnBlocks(path[w - 1])
               && Cell(currentI, currentJ) == Coarse(sizesI, sizesJ, path).Corner(path[w - 1])
    ensures Coarse(sizesI, sizesJ, path).OnBlocks(path[w])
    ensures Cell(i, j) == Coarse(sizesI, sizesJ, path).Corner(path[w])
    ensures diagonal == Diagonal(path, w)
  {
    ghost var s := Coarse(sizesI, sizesJ, path);
    PathOnBlocks(s, w);
    BlockCountWithin(s, path[w]);
    if w > 0 {
      CornerMoves(s, w);
    }
    i, j := currentI, currentJ;
    var warpedI, warpedJ := path[w].col, path[w].row;
    if warpedJ > lastWarpedJ {
      j := j + sizesJ[lastWarpedJ];
    }
    if warpedI > lastWarpedI {
      i := i + sizesI[lastWarpedI];
    }
    diagonal := warpedJ > lastWarpedJ && warpedI > lastWarpedI;
  }

  // Project the w-th cell of the coarse path, whose block starts at (currentI, currentJ).
  method ProjectCell(window: SearchWindow, ghost s: Coarse, ghost w: nat, currentI: int, currentJ: int, diagonal: bool,
                     blockISize: nat, blockJSize: int)
    requires window.Valid() && s.Valid() && w < |s.path| && s.OnBlocks(s.path[w])
    requires window.View() == PartialProjection(s, w)
    requires Cell(currentI, currentJ) == s.Corner(s.path[w]) && diagonal == Diagonal(s.path, w)
    requires blockISize == s.sizesI[s.path[w].col] && blockJSize == s.sizesJ[s.path[w].row]
    modifies window, window.minValues, window.maxValues
    ensures window.Valid() && window.View() == PartialProjection(s, w + 1)
  {
    PartialProjectionStep(s, w);
    ProjectBlock(window, currentI, currentJ, diagonal, blockISize, blockJSize);
  }

  // The projection loop. `currentI` and `currentJ` always are the offsets of the current block.
  // The corner of the last block and its place in the coarse matrix, or the start values of the loop.
  // numeric_limits<JInt>::max() at first: no index of a series exceeds it.
  ghost predicate IsLast(s: Coarse, w: nat, currentI: int, currentJ: int, lastWarpedI: int, lastWarpedJ: int)
    requires w <= |s.path|
  {
    if w == 0 then lastWarpedI == lastWarpedJ == JINT_MAX && Cell(currentI, currentJ) == Cell(0, 0)
    else
      && Cell(lastWarpedI, lastWarpedJ) == s.path[w - 1] && s.OnBlocks(s.path[w - 1])
      && Cell(currentI, currentJ) == s.Corner(s.path[w - 1])
  }

  // One turn of the loop.
  method ProjectNext(window: SearchWindow, s: Coarse, w: nat, currentI: int, currentJ: int, lastWarpedI: int,
                     lastWarpedJ: int)
    returns (nextI: int, nextJ: int)
    requires window.Valid() && s.Valid() && s.Columns() <= JINT_MAX && s.Rows() <= JINT_MAX && w < |s.path|
    requires window.View() == PartialProjection(s, w) && IsLast(s, w, currentI, currentJ, lastWarpedI, lastWarpedJ)
    modifies window, window.minValues, window.maxValues
    ensures window.Valid() && window.View() == PartialProjection(s, w + 1)
    ensures IsLast(s, w + 1, nextI, nextJ, s.path[w].col, s.path[w].row)
  {
    var diagonal: bool;
    nextI, nextJ, diagonal := NextBlock(s.sizesI, s.sizesJ, s.path, w, currentI, currentJ, lastWarpedI, lastWarpedJ);
    ProjectCell(window, s, w, nextI, nextJ, diagonal, s.sizesI[s.path[w].col], s.sizesJ[s.path[w].row]);
  }

  method ProjectPath(window: SearchWindow, s: Coarse)
    requires window.Valid() && s.Valid() && s.Columns() <= JINT_MAX && s.Rows() <= JINT_MAX
    requires window.View() == PartialProjection(s, 0)
    modifies window, window.minValues, window.maxValues
    ensures window.Valid() && window.View() == Projection(s)
  {
    var currentI, currentJ := s.path[0].col, s.path[0].row;
    var lastWarpedI, lastWarpedJ := JINT_MAX, JINT_MAX;
    var w := 0;
    while w < |s.path|
      invariant 0 <= w <= |s.path| && window.Valid() && window.View() == PartialProjection(s, w)
      invariant IsLast(s, w, currentI, currentJ, lastWarpedI, lastWarpedJ)
    {
      currentI, currentJ := ProjectNext(window, s, w, currentI, currentJ, lastWarpedI, lastWarpedJ);
      lastWarpedI, lastWarpedJ := s.path[w].col, s.path[w].row;
      w := w + 1;
    }
  }

  method NewExpandedResWindow(tsIsize: nat, tsJsize: nat, shrunkI: PAA, shrunkJ: PAA, shrunkWarpPath: seq<Cell>,
                              searchRadius: int)
    returns (window: SearchWindow)
    requires Coarse(shrunkI.aggPtSize, shrunkJ.aggPtSize, shrunkWarpPath).Valid()
    requires Coarse(shrunkI.aggPtSize, shrunkJ.aggPtSize, shrunkWarpPath).Columns() == tsIsize <= JINT_MAX
    requires Coarse(shrunkI.aggPtSize, shrunkJ.aggPtSize, shrunkWarpPath).Rows() == tsJsize <= JINT_MAX
    ensures fresh(window) && window.Valid()
    ensures window.View() == RefinedWindow(Coarse(shrunkI.aggPtSize, shrunkJ.aggPtSize, shrunkWarpPath), searchRadius)
  {
    var s := Coarse(shrunkI.aggPtSize, shrunkJ.aggPtSize, shrunkWarpPath);
    window := new SearchWindow(tsIsize, tsJsize);
    assert window.View() == EmptyWindow(s.Columns(), s.Rows());
    ProjectPath(window, s);
    ProjectionIsCrossed(s);
    window.ExpandWindow(searchRadius);
  }

  const JINT_MAX: int := 0x7FFF_FFFF_FFFF_FFFF
}
