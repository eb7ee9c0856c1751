// Cells, warp paths, search windows and the local cost that every part of the
// dynamic-time-warping stack is about.
module WarpGrid {

  // A measurement vector: one number per dimension.
  type Point = seq<real>

  // The distance function is a template parameter of the program; nothing is assumed about it.
  type Distance = (Point, Point) -> real

  // A cost, where `Inf` stands for numeric_limits<ValueType>::max(), "no path reaches this cell".
  datatype Cost = Fin(v: real) | Inf {
    predicate AtMost(other: Cost) {
      other.Inf? || (Fin? && v <= other.v)
    }

    predicate Below(other: Cost) {
      !other.AtMost(this)
    }

    function Plus(d: real): Cost {
      if Fin? then Fin(v + d) else Inf
    }
  }

  // std::min keeps its first argument on a tie.
  function Min(a: Cost, b: Cost): Cost {
    if b.Below(a) then b else a
  }

  // ColMajorCell: a column indexes the first series, a row the second.
  datatype Cell = Cell(col: int, row: int)

  // Two series to be aligned and the distance between their points.
  datatype Problem = Problem(tsI: seq<Point>, tsJ: seq<Point>, dist: Distance) {
    predicate NonEmpty() {
      |tsI| > 0 && |tsJ| > 0
    }

    predicate Contains(c: Cell) {
      0 <= c.col < |tsI| && 0 <= c.row < |tsJ|
    }

    function Local(c: Cell): real
      requires Contains(c)
    {
      dist(tsI[c.col], tsJ[c.row])
    }

    function Last(): Cell {
      Cell(|tsI| - 1, |tsJ| - 1)
    }
  }

  // The value of a SearchWindow: per column, the lowest and highest row it holds (-1 marks an
  // untouched column).
  datatype Window = Window(lo: seq<int>, hi: seq<int>, maxJ: int) {
    // What markVisited keeps: a column is either untouched or an interval of rows of the matrix.
    ghost predicate Sound() {
      && |lo| == |hi|
      && (forall i :: 0 <= i < |lo| ==> lo[i] == -1 || 0 <= lo[i] <= hi[i] <= maxJ)
    }

    // What the matrix and the iterator need: no untouched column, and cell (0,0) inside.
    ghost predicate Usable() {
      && Sound()
      && |lo| > 0
      && lo[0] == 0
      && (forall i :: 0 <= i < |lo| ==> 0 <= lo[i])
    }

    predicate Has(c: Cell)
      requires |lo| == |hi|
    {
      0 <= c.col < |lo| && lo[c.col] != -1 && lo[c.col] <= c.row <= hi[c.col]
    }

    ghost predicate Fits(p: Problem) {
      |lo| == |p.tsI| && maxJ == |p.tsJ| - 1
    }
  }

  predicate Step(a: Cell, b: Cell) {
    || b == Cell(a.col + 1, a.row)
    || b == Cell(a.col, a.row + 1)
    || b == Cell(a.col + 1, a.row + 1)
  }

  // A legal warp path: starts at (0,0) and moves right, up or diagonally by one each time.
  ghost predicate Legal(path: seq<Cell>) {
    && |path| > 0
    && path[0] == Cell(0, 0)
    && (forall k :: 0 <= k < |path| - 1 ==> Step(path[k], path[k + 1]))
  }

  ghost predicate LegalTo(path: seq<Cell>, end: Cell) {
    Legal(path) && path[|path| - 1] == end
  }

  ghost predicate Inside(path: seq<Cell>, w: Window)
    requires |w.lo| == |w.hi|
  {
    forall k :: 0 <= k < |path| ==> w.Has(path[k])
  }

  ghost predicate Within(path: seq<Cell>, p: Problem) {
    forall k :: 0 <= k < |path| ==> p.Contains(path[k])
  }

  // The summed local cost of a path.
  function PathCost(p: Problem, path: seq<Cell>): real
    requires Within(path, p)
  {
    if path == [] then 0.0
    else PathCost(p, path[..|path| - 1]) + p.Local(path[|path| - 1])
  }

  // Columns and rows never go back, so a path is bounded by its end.
  lemma {:induction false} LegalBounded(path: seq<Cell>, k: nat)
    requires Legal(path) && k < |path|
    ensures 0 <= path[k].col <= path[|path| - 1].col
    ensures 0 <= path[k].row <= path[|path| - 1].row
    decreases |path|
  {
    if |path| > 1 {
      var shorter := path[..|path| - 1];
      assert Step(path[|path| - 2], path[|path| - 1]);
      LegalBounded(shorter, if k < |shorter| then k else |shorter| - 1);
    }
  }

  // The window that holds the whole matrix.
  function FullWindow(p: Problem): Window {
    Window(seq(|p.tsI|, _ => 0), seq(|p.tsI|, _ => |p.tsJ| - 1), |p.tsJ| - 1)
  }

  // Every legal path to the far corner lies in the full window.
  lemma LegalInsideFull(p: Problem, path: seq<Cell>)
    requires p.NonEmpty() && LegalTo(path, p.Last())
    ensures Inside(path, FullWindow(p)) && Within(path, p)
  {
    forall k | 0 <= k < |path| ensures p.Contains(path[k]) {
      LegalBounded(path, k);
    }
  }
}
