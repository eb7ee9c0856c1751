// What dynamic time warping computes: the cheapest warp path inside a window, and the
// path that the tie-breaking traceback picks.
module DtwOptimum {
  import opened Basics
  import opened WarpGrid

  // The value the dynamic program gives a cell: its local cost plus the least value of the cells
  // to the left, below and diagonally below; cells outside the window read as `Inf`.
  function Value(p: Problem, w: Window, c: Cell): Cost
    requires |w.lo| == |w.hi| && w.Sound() && w.Fits(p)
    decreases c.col + c.row
  {
    if !w.Has(c) then Inf
    else if c == Cell(0, 0) then Fin(p.Local(c))
    else if c.col == 0 then Value(p, w, Cell(0, c.row - 1)).Plus(p.Local(c))
    else if c.row == 0 then Value(p, w, Cell(c.col - 1, 0)).Plus(p.Local(c))
    else
      Min(Value(p, w, Cell(c.col - 1, c.row)),
          Min(Value(p, w, Cell(c.col - 1, c.row - 1)), Value(p, w, Cell(c.col, c.row - 1)))).Plus(p.Local(c))
  }

  // The move the traceback makes, given the costs of its three candidates.
  function Back(c: Cell, diag: Cost, left: Cost, down: Cost): Cell {
    if diag.AtMost(left) && diag.AtMost(down) then Cell(c.col - 1, c.row - 1)
    else if left.Below(diag) && left.Below(down) then Cell(c.col - 1, c.row)
    else if down.Below(diag) && down.Below(left) then Cell(c.col, c.row - 1)
    else if c.col <= c.row then Cell(c.col, c.row - 1)
    else Cell(c.col - 1, c.row)
  }

  function Predecessor(p: Problem, w: Window, c: Cell): Cell
    requires |w.lo| == |w.hi| && w.Sound() && w.Fits(p)
  {
    Back(c,
      if c.col > 0 && c.row > 0 then Value(p, w, Cell(c.col - 1, c.row - 1)) else Inf,
      if c.col > 0 then Value(p, w, Cell(c.col - 1, c.row)) else Inf,
      if c.row > 0 then Value(p, w, Cell(c.col, c.row - 1)) else Inf)
  }

  // From a reachable cell the traceback moves to a reachable cell that explains its value.
  lemma PredecessorExplains(p: Problem, w: Window, c: Cell)
    requires w.Sound() && w.Fits(p)
    requires Value(p, w, c).Fin? && c != Cell(0, 0)
    ensures var b := Predecessor(p, w, c);
            && Step(b, c) && b.col >= 0 && b.row >= 0
            && Value(p, w, b).Fin?
            && Value(p, w, c) == Value(p, w, b).Plus(p.Local(c))
  {
    if c.col == 0 {
      assert Predecessor(p, w, c) == Cell(0, c.row - 1);
    } else if c.row == 0 {
      assert Predecessor(p, w, c) == Cell(c.col - 1, 0);
    }
  }

  // How far a cell lies from the cells whose column is their row.
  function FromAxis(c: Cell): int {
    if c.col < c.row then c.row - c.col else c.col - c.row
  }

  // Of two moves to cells of equal value the first is preferred.
  predicate Preferred(c: Cell, b: Cell, other: Cell) {
    || b == Cell(c.col - 1, c.row - 1)
    || (other != Cell(c.col - 1, c.row - 1) && FromAxis(b) < FromAxis(other))
    || (FromAxis(b) == FromAxis(other) && b.row < other.row)
  }

  function CandidateCost(c: Cell, x: Cell, diag: Cost, left: Cost, down: Cost): Cost {
    if x == Cell(c.col - 1, c.row - 1) then diag else if x == Cell(c.col - 1, c.row) then left else down
  }

  lemma MoveIsLeast(c: Cell, diag: Cost, left: Cost, down: Cost, other: Cell)
    requires Step(other, c)
    ensures var b := Back(c, diag, left, down);
            var vb, vo := CandidateCost(c, b, diag, left, down), CandidateCost(c, other, diag, left, down);
            vb.AtMost(vo) && (vb == vo && b != other ==> Preferred(c, b, other))
  {
  }

  // The traceback never moves to a cell of greater value than another it could have moved to. Of cells of equal value
  // it prefers the diagonal one, then the one nearest to the axis, then the lower one.
  lemma PredecessorIsLeast(p: Problem, w: Window, c: Cell, other: Cell)
    requires w.Sound() && w.Fits(p) && Step(other, c)
    ensures var b := Predecessor(p, w, c);
            && Value(p, w, b).AtMost(Value(p, w, other))
            && (Value(p, w, b) == Value(p, w, other) && b != other ==> Preferred(c, b, other))
  {
    var diag, left, down := Cell(c.col - 1, c.row - 1), Cell(c.col - 1, c.row), Cell(c.col, c.row - 1);
    OffMatrix(p, w, diag);
    OffMatrix(p, w, left);
    OffMatrix(p, w, down);
    MoveIsLeast(c, Value(p, w, diag), Value(p, w, left), Value(p, w, down), other);
  }

  lemma OffMatrix(p: Problem, w: Window, c: Cell)
    requires w.Sound() && w.Fits(p)
    ensures c.col < 0 || c.row < 0 ==> Value(p, w, c) == Inf
  {
  }

  // The path the traceback returns.
  function Traceback(p: Problem, w: Window, c: Cell): (path: seq<Cell>)
    requires |w.lo| == |w.hi| && w.Sound() && w.Fits(p)
    requires Value(p, w, c).Fin?
    ensures LegalTo(path, c) && Inside(path, w) && Within(path, p)
    decreases c.col + c.row
  {
    if c == Cell(0, 0) then [c]
    else
      PredecessorExplains(p, w, c);
      Traceback(p, w, Predecessor(p, w, c)) + [c]
  }

  // Its summed local cost is the value of its end cell.
  lemma {:induction false} TracebackCost(p: Problem, w: Window, c: Cell)
    requires w.Sound() && w.Fits(p)
    requires Value(p, w, c).Fin?
    ensures Value(p, w, c) == Fin(PathCost(p, Traceback(p, w, c)))
    decreases c.col + c.row
  {
    var path := Traceback(p, w, c);
    if c != Cell(0, 0) {
      PredecessorExplains(p, w, c);
      TracebackCost(p, w, Predecessor(p, w, c));
      assert path[..|path| - 1] == Traceback(p, w, Predecessor(p, w, c));
    } else {
      assert path[..0] == [];
      assert PathCost(p, path) == PathCost(p, path[..0]) + p.Local(c);
    }
  }

  // No legal path inside the window is cheaper than the value of its end cell.
  lemma {:induction false} ValueIsLeast(p: Problem, w: Window, path: seq<Cell>)
    requires w.Sound() && w.Fits(p)
    requires Legal(path) && Inside(path, w)
    ensures Within(path, p)
    ensures Value(p, w, path[|path| - 1]).AtMost(Fin(PathCost(p, path)))
    decreases |path|
  {
    var c := path[|path| - 1];
    if |path| > 1 {
      var shorter := path[..|path| - 1];
      assert Step(path[|path| - 2], c);
      ValueIsLeast(p, w, shorter);
      LegalBounded(path, |path| - 2);
    } else {
      assert path[..0] == [];
      assert PathCost(p, path) == PathCost(p, path[..0]) + p.Local(c);
    }
  }

  // Exactly the reachable cells have a value.
  lemma ValueFiniteIffReachable(p: Problem, w: Window, c: Cell)
    requires w.Sound() && w.Fits(p)
    ensures Value(p, w, c).Fin? <==> exists path :: LegalTo(path, c) && Inside(path, w)
  {
    if Value(p, w, c).Fin? {
      var path := Traceback(p, w, c);
      assert LegalTo(path, c) && Inside(path, w);
    }
    if path :| LegalTo(path, c) && Inside(path, w) {
      ValueIsLeast(p, w, path);
    }
  }

  // TimeWarpInfo: a distance and the path that has it.
  datatype WarpInfo = WarpInfo(distance: real, path: seq<Cell>)

  // Some legal path crosses the window.
  ghost predicate Crossable(p: Problem, w: Window) {
    && w.Usable() && w.Fits(p) && p.NonEmpty()
    && exists path :: LegalTo(path, p.Last()) && Inside(path, w)
  }

  lemma CrossableIsFinite(p: Problem, w: Window)
    requires Crossable(p, w)
    ensures Value(p, w, p.Last()).Fin?
  {
    ValueFiniteIffReachable(p, w, p.Last());
  }

  // What the windowed algorithm answers.
  ghost function WindowedWarp(p: Problem, w: Window): WarpInfo
    requires Crossable(p, w)
  {
    CrossableIsFinite(p, w);
    WarpInfo(Value(p, w, p.Last()).v, Traceback(p, w, p.Last()))
  }

  // ---------------------------------------------------------------- windows that no path crosses

  // Where the walk back from any cell of the matrix leads, and None if it leaves the matrix. It goes on from cells
  // outside the window and from unreachable ones, whose costs all read `Inf`.
  function Retraced(p: Problem, w: Window, c: Cell): Option<seq<Cell>>
    requires |w.lo| == |w.hi| && w.Sound() && w.Fits(p) && p.Contains(c)
    decreases c.col + c.row
  {
    if c == Cell(0, 0) then Some([c])
    else
      var b := Predecessor(p, w, c);
      if !p.Contains(b) then None
      else
        match Retraced(p, w, b)
        case None => None
        case Some(path) => Some(path + [c])
  }

  // From a reachable cell it is the traceback.
  lemma {:induction false} RetracedFromReachable(p: Problem, w: Window, c: Cell)
    requires w.Sound() && w.Fits(p) && p.Contains(c) && Value(p, w, c).Fin?
    ensures Retraced(p, w, c) == Some(Traceback(p, w, c))
    decreases c.col + c.row
  {
    if c != Cell(0, 0) {
      PredecessorExplains(p, w, c);
      RetracedFromReachable(p, w, Predecessor(p, w, c));
    }
  }

  // Wherever it ends at (0,0) it is a legal path, though not always one inside the window.
  lemma {:induction false} RetracedIsLegal(p: Problem, w: Window, c: Cell)
    requires w.Sound() && w.Fits(p) && p.Contains(c) && Retraced(p, w, c).Some?
    ensures LegalTo(Retraced(p, w, c).value, c) && Within(Retraced(p, w, c).value, p)
    decreases c.col + c.row
  {
    if c != Cell(0, 0) {
      RetracedIsLegal(p, w, Predecessor(p, w, c));
    }
  }

  // No cell next to c on the way back has a value.
  predicate CutOff(p: Problem, w: Window, c: Cell)
    requires |w.lo| == |w.hi| && w.Sound() && w.Fits(p)
  {
    && (c.col > 0 && c.row > 0 ==> Value(p, w, Cell(c.col - 1, c.row - 1)).Inf?)
    && (c.col > 0 ==> Value(p, w, Cell(c.col - 1, c.row)).Inf?)
    && (c.row > 0 ==> Value(p, w, Cell(c.col, c.row - 1)).Inf?)
  }

  lemma CutOffGoesDiagonally(p: Problem, w: Window, c: Cell)
    requires w.Sound() && w.Fits(p) && p.Contains(c) && CutOff(p, w, c)
    ensures Predecessor(p, w, c) == Cell(c.col - 1, c.row - 1)
  {
  }

  lemma OtherwiseReaches(p: Problem, w: Window, c: Cell)
    requires w.Sound() && w.Fits(p) && p.Contains(c) && !CutOff(p, w, c)
    ensures p.Contains(Predecessor(p, w, c)) && Value(p, w, Predecessor(p, w, c)).Fin?
  {
  }

  // u cells further down the diagonal.
  function DownDiagonal(c: Cell, u: nat): Cell {
    Cell(c.col - u, c.row - u)
  }

  // c and all cells of the matrix diagonally below it are cut off.
  ghost predicate DiagonalCutOff(p: Problem, w: Window, c: Cell)
    requires |w.lo| == |w.hi| && w.Sound() && w.Fits(p)
  {
    forall u: nat :: p.Contains(DownDiagonal(c, u)) ==> CutOff(p, w, DownDiagonal(c, u))
  }

  lemma DiagonalOneLess(p: Problem, w: Window, c: Cell, b: Cell)
    requires w.Sound() && w.Fits(p) && p.Contains(c) && b == DownDiagonal(c, 1)
    ensures DiagonalCutOff(p, w, c) <==> CutOff(p, w, c) && DiagonalCutOff(p, w, b)
  {
    if DiagonalCutOff(p, w, c) {
      assert DownDiagonal(c, 0) == c;
      forall u: nat | p.Contains(DownDiagonal(b, u)) ensures CutOff(p, w, DownDiagonal(b, u)) {
        assert DownDiagonal(c, u + 1) == DownDiagonal(b, u);
      }
    }
    if CutOff(p, w, c) && DiagonalCutOff(p, w, b) {
      forall u: nat | p.Contains(DownDiagonal(c, u)) ensures CutOff(p, w, DownDiagonal(c, u)) {
        if u > 0 {
          assert DownDiagonal(c, u) == DownDiagonal(b, u - 1);
        }
      }
    }
  }

  // The walk leaves the matrix exactly when it starts off the main diagonal and is cut off all along its own.
  lemma {:induction false} StraysIff(p: Problem, w: Window, c: Cell)
    requires w.Usable() && w.Fits(p) && p.Contains(c)
    ensures Retraced(p, w, c).None? <==> c.col != c.row && DiagonalCutOff(p, w, c)
    decreases c.col + c.row
  {
    if c != Cell(0, 0) {
      var b := DownDiagonal(c, 1);
      DiagonalOneLess(p, w, c, b);
      if !CutOff(p, w, c) {
        OtherwiseReaches(p, w, c);
        RetracedFromReachable(p, w, Predecessor(p, w, c));
      } else {
        CutOffGoesDiagonally(p, w, c);
        if p.Contains(b) {
          StraysIff(p, w, b);
          OriginIsReached(p, w, c);
        } else {
          assert DiagonalCutOff(p, w, b);
        }
      }
    }
  }

  // The cell diagonally above (0,0) is not cut off.
  lemma OriginIsReached(p: Problem, w: Window, c: Cell)
    requires w.Usable() && w.Fits(p) && p.Contains(c) && CutOff(p, w, c) && c.col > 0 && c.row > 0
    ensures DownDiagonal(c, 1) != Cell(0, 0)
  {
    assert w.Has(Cell(0, 0)) && Value(p, w, Cell(0, 0)).Fin?;
  }

  // What the windowed algorithm returns: it is refused for two single points, its walk can leave the matrix, and
  // otherwise there is a path, of infinite distance if the last cell is unreachable.
  datatype Alignment = Refused | Strayed | Aligned(distance: Cost, path: seq<Cell>)

  function AlignedIn(p: Problem, w: Window): Alignment
    requires |w.lo| == |w.hi| && w.Sound() && w.Fits(p) && p.NonEmpty()
  {
    if p.Last() == Cell(0, 0) then Refused
    else
      match Retraced(p, w, p.Last())
      case None => Strayed
      case Some(path) => Aligned(Value(p, w, p.Last()), path)
  }

  // A crossed window gives the windowed alignment. One that is not crossed gives none, or an infinite distance and
  // a path that leaves the window.
  lemma AlignedIffCrossed(p: Problem, w: Window)
    requires w.Usable() && w.Fits(p) && p.NonEmpty() && p.Last() != Cell(0, 0)
    ensures var a := AlignedIn(p, w);
            && (Crossable(p, w) <==> a.Aligned? && a.distance.Fin?)
            && (Crossable(p, w) ==> a == Aligned(Fin(WindowedWarp(p, w).distance), WindowedWarp(p, w).path))
            && (a.Aligned? ==> LegalTo(a.path, p.Last()) && (Crossable(p, w) <==> Inside(a.path, w)))
            && (a.Strayed? <==> p.Last().col != p.Last().row && DiagonalCutOff(p, w, p.Last()))
  {
    ValueFiniteIffReachable(p, w, p.Last());
    StraysIff(p, w, p.Last());
    if Crossable(p, w) {
      RetracedFromReachable(p, w, p.Last());
    }
    if Retraced(p, w, p.Last()).Some? {
      RetracedIsLegal(p, w, p.Last());
    }
  }

  // The answer is a legal path across the matrix that stays in the window, its distance is the
  // path's summed local cost, and no legal path in the window is cheaper.
  lemma WindowedWarpIsOptimal(p: Problem, w: Window)
    requires Crossable(p, w)
    ensures var info := WindowedWarp(p, w);
            && LegalTo(info.path, p.Last()) && Inside(info.path, w) && Within(info.path, p)
            && info.distance == PathCost(p, info.path)
    ensures forall other :: LegalTo(other, p.Last()) && Inside(other, w)
              ==> Within(other, p) && WindowedWarp(p, w).distance <= PathCost(p, other)
  {
    CrossableIsFinite(p, w);
    TracebackCost(p, w, p.Last());
    forall other | LegalTo(other, p.Last()) && Inside(other, w)
      ensures Within(other, p) && WindowedWarp(p, w).distance <= PathCost(p, other)
    {
      ValueIsLeast(p, w, other);
    }
  }

  // The straight-then-up path shows that the full matrix can be crossed.
  function Staircase(end: Cell): (path: seq<Cell>)
    requires end.col >= 0 && end.row >= 0
    ensures LegalTo(path, end)
    decreases end.col + end.row
  {
    if end == Cell(0, 0) then [end]
    else if end.col > 0 then Staircase(Cell(end.col - 1, end.row)) + [end]
    else Staircase(Cell(end.col, end.row - 1)) + [end]
  }

  lemma FullIsCrossable(p: Problem)
    requires p.NonEmpty()
    ensures Crossable(p, FullWindow(p))
  {
    LegalInsideFull(p, Staircase(p.Last()));
  }

  // What the full algorithm answers.
  ghost function FullWarp(p: Problem): WarpInfo
    requires p.NonEmpty()
  {
    FullIsCrossable(p);
    WindowedWarp(p, FullWindow(p))
  }

  // Exact DTW: the least summed local cost over every legal warp path, attained by the answer.
  lemma FullWarpIsExact(p: Problem)
    requires p.NonEmpty()
    ensures var info := FullWarp(p);
            && LegalTo(info.path, p.Last()) && Within(info.path, p)
            && info.distance == PathCost(p, info.path)
    ensures forall other :: LegalTo(other, p.Last())
              ==> Within(other, p) && FullWarp(p).distance <= PathCost(p, other)
  {
    FullIsCrossable(p);
    WindowedWarpIsOptimal(p, FullWindow(p));
    forall other | LegalTo(other, p.Last())
      ensures Within(other, p) && FullWarp(p).distance <= PathCost(p, other)
    {
      LegalInsideFull(p, other);
    }
  }

  // A wider window never gives a larger distance.
  lemma WiderIsNoWorse(p: Problem, narrow: Window, wide: Window)
    requires Crossable(p, narrow) && Crossable(p, wide)
    requires forall c: Cell :: narrow.Has(c) ==> wide.Has(c)
    ensures WindowedWarp(p, wide).distance <= WindowedWarp(p, narrow).distance
  {
    WindowedWarpIsOptimal(p, narrow);
    WindowedWarpIsOptimal(p, wide);
    assert Inside(WindowedWarp(p, narrow).path, wide);
  }
}
