// Dynamic time warping as the program runs it: the cost matrix is filled in place and the warp path
// is read back from the far corner.
module Dtw {
  import opened Basics
  import opened WarpGrid
  import opened DtwOptimum
  import opened SearchWindows
  import opened CostMatrix
  import opened WarpPaths

  method CalcWarpCost(p: Problem, path: seq<Cell>) returns (totalCost: real)
    requires Within(path, p)
    ensures totalCost == PathCost(p, path)
  {
    totalCost := 0.0;
    var k := 0;
    while k < |path|
      invariant 0 <= k <= |path|
      invariant totalCost == PathCost(p, path[..k])
    {
      totalCost := totalCost + p.Local(path[k]);
      assert path[..k + 1][..k] == path[..k];
      k := k + 1;
    }
    assert path[..k] == path;
  }

  // ---------------------------------------------------------------- inside a window

  // The value a cell is about to be given, from the three reads of its neighbours.
  function Recurrence(c: Cell, local: real, left: Cost, diag: Cost, down: Cost): Cost {
    if c == Cell(0, 0) then Fin(local)
    else if c.col == 0 then down.Plus(local)
    else if c.row == 0 then left.Plus(local)
    else Min(left, Min(diag, down)).Plus(local)
  }

  lemma ValueByRecurrence(p: Problem, w: Window, c: Cell)
    requires w.Sound() && w.Fits(p) && w.Has(c)
    ensures Value(p, w, c) == Recurrence(c, p.Local(c),
              if c.col > 0 then Value(p, w, Cell(c.col - 1, c.row)) else Inf,
              if c.col > 0 && c.row > 0 then Value(p, w, Cell(c.col - 1, c.row - 1)) else Inf,
              if c.row > 0 then Value(p, w, Cell(c.col, c.row - 1)) else Inf)
  {
  }

  ghost predicate Correct(p: Problem, costMatrix: MemoryResidentMatrix, w: Window, c: Cell)
    requires costMatrix.Valid() && w.Sound() && w.Fits(p) && costMatrix.window.View() == w
    reads costMatrix, costMatrix.window, costMatrix.window.minValues, costMatrix.window.maxValues,
          costMatrix.colOffsets, costMatrix.cellValues
  {
    0 <= c.col < |p.tsI| ==> costMatrix.Get(c) == Value(p, w, c)
  }

  // Fill one cell, given that the cells before it are filled.
  method FillCell(p: Problem, costMatrix: MemoryResidentMatrix, ghost w: Window, c: Cell)
    requires costMatrix.Valid() && w.Usable() && w.Fits(p) && costMatrix.window.View() == w && w.Has(c)
    requires forall x :: Precedes(x, c) ==> Correct(p, costMatrix, w, x)
    modifies costMatrix.cellValues
    ensures costMatrix.Valid() && costMatrix.window.View() == w
    ensures forall x :: Precedes(x, c) || x == c ==> Correct(p, costMatrix, w, x)
  {
    ValueByRecurrence(p, w, c);
    assert c.col > 0 ==> Correct(p, costMatrix, w, Cell(c.col - 1, c.row));
    assert c.col > 0 && c.row > 0 ==> Correct(p, costMatrix, w, Cell(c.col - 1, c.row - 1));
    assert c.row > 0 ==> Correct(p, costMatrix, w, Cell(c.col, c.row - 1));
    var value: Cost;
    if c.col == 0 && c.row == 0 {
      value := Fin(p.Local(c));
    } else if c.col == 0 {
      value := costMatrix.Get(Cell(0, c.row - 1)).Plus(p.Local(c));
    } else if c.row == 0 {
      value := costMatrix.Get(Cell(c.col - 1, 0)).Plus(p.Local(c));
    } else {
      value := Min(costMatrix.Get(Cell(c.col - 1, c.row)),
                   Min(costMatrix.Get(Cell(c.col - 1, c.row - 1)), costMatrix.Get(Cell(c.col, c.row - 1))))
               .Plus(p.Local(c));
    }
    assert value == Value(p, w, c);
    label before:
    costMatrix.Put(c, value);
    forall x | Precedes(x, c) ensures Correct(p, costMatrix, w, x) {
      assert old@before(Correct(p, costMatrix, w, x));
    }
  }

  lemma OutsideIsCorrect(p: Problem, costMatrix: MemoryResidentMatrix, w: Window, x: Cell)
    requires costMatrix.Valid() && w.Usable() && w.Fits(p) && costMatrix.window.View() == w && !w.Has(x)
    ensures Correct(p, costMatrix, w, x)
  {
  }

  // Stepping from `c` to the next cell passes over no other cell of the window.
  lemma NothingBetween(w: Window, c: Cell, x: Cell)
    requires w.Usable() && w.Has(c) && w.Has(x) && (w.Has(NextCell(w, c)) ==> Precedes(x, NextCell(w, c)))
    ensures Precedes(x, c) || x == c
  {
  }

  lemma WalkEnds(w: Window, c: Cell, done: bool)
    requires w.Usable() && w.Has(c) && (done ==> Walk(w, c) == [c])
    ensures done ==> !w.Has(NextCell(w, c))
  {
  }

  // Correct up to where the iterator stands.
  ghost predicate FilledBefore(p: Problem, costMatrix: MemoryResidentMatrix, w: Window, done: bool, next: Cell)
    requires costMatrix.Valid() && w.Sound() && w.Fits(p) && costMatrix.window.View() == w
    reads costMatrix, costMatrix.window, costMatrix.window.minValues, costMatrix.window.maxValues,
          costMatrix.colOffsets, costMatrix.cellValues
  {
    forall x :: done || Precedes(x, next) ==> Correct(p, costMatrix, w, x)
  }

  lemma NextIsFilled(p: Problem, costMatrix: MemoryResidentMatrix, w: Window, c: Cell, done: bool)
    requires costMatrix.Valid() && w.Usable() && w.Fits(p) && costMatrix.window.View() == w && w.Has(c)
    requires done ==> Walk(w, c) == [c]
    requires forall x :: Precedes(x, c) || x == c ==> Correct(p, costMatrix, w, x)
    ensures FilledBefore(p, costMatrix, w, done, NextCell(w, c))
  {
    WalkEnds(w, c, done);
    forall x | done || Precedes(x, NextCell(w, c)) ensures Correct(p, costMatrix, w, x) {
      if w.Has(x) {
        NothingBetween(w, c, x);
      } else {
        OutsideIsCorrect(p, costMatrix, w, x);
      }
    }
  }

  // One turn of the loop over the window.
  method FillNext(p: Problem, costMatrix: MemoryResidentMatrix, ghost w: Window, matrixIterator: SearchWindowIterator)
    requires costMatrix.Valid() && w.Usable() && w.Fits(p) && costMatrix.window.View() == w
    requires matrixIterator.Valid() && matrixIterator.window == costMatrix.window && matrixIterator.hasMoreElements
    requires FilledBefore(p, costMatrix, w, false, Cell(matrixIterator.currentI, matrixIterator.currentJ))
    modifies costMatrix.cellValues, matrixIterator
    ensures costMatrix.Valid() && costMatrix.window.View() == w
    ensures matrixIterator.Valid() && |old(matrixIterator.Rest())| == |matrixIterator.Rest()| + 1
    ensures FilledBefore(p, costMatrix, w, !matrixIterator.hasMoreElements,
                         Cell(matrixIterator.currentI, matrixIterator.currentJ))
  {
    ghost var rest := matrixIterator.Rest();
    var cell := matrixIterator.Next();
    assert rest == Walk(w, cell) == [cell] + matrixIterator.Rest();
    FillCell(p, costMatrix, w, cell);
    NextIsFilled(p, costMatrix, w, cell, !matrixIterator.hasMoreElements);
  }

  // Every cell of the window gets the value the recurrence gives it; every other cell reads `Inf`. `filled` counts the
  // cells that are evaluated.
  method FillWindow(p: Problem, costMatrix: MemoryResidentMatrix, ghost w: Window) returns (ghost filled: nat)
    requires costMatrix.Valid() && w.Usable() && w.Fits(p) && costMatrix.window.View() == w
    modifies costMatrix.cellValues
    ensures costMatrix.Valid() && costMatrix.window.View() == w
    ensures forall c :: Correct(p, costMatrix, w, c)
    ensures filled == CellCount(w)
  {
    var matrixIterator := new SearchWindowIterator(costMatrix.window);
    forall x | Precedes(x, Cell(0, 0)) ensures Correct(p, costMatrix, w, x) {
      OutsideIsCorrect(p, costMatrix, w, x);
    }
    WalkIsExact(w);
    filled := 0;
    while matrixIterator.hasMoreElements
      invariant fresh(matrixIterator) && matrixIterator.Valid() && matrixIterator.window == costMatrix.window
      invariant costMatrix.Valid() && costMatrix.window.View() == w
      invariant FilledBefore(p, costMatrix, w, !matrixIterator.hasMoreElements,
                             Cell(matrixIterator.currentI, matrixIterator.currentJ))
      invariant filled + |matrixIterator.Rest()| == CellCount(w)
      decreases |matrixIterator.Rest()|
    {
      FillNext(p, costMatrix, w, matrixIterator);
      filled := filled + 1;
    }
  }

  // One move of the traceback loop: compare the three candidates, prefer the diagonal, and on a tie
  // between the other two move towards the i == j axis.
  method StepBack(i: int, j: int, diagCost: Cost, leftCost: Cost, downCost: Cost) returns (i': int, j': int)
    ensures Cell(i', j') == Back(Cell(i, j), diagCost, leftCost, downCost)
  {
    i', j' := i, j;
    if diagCost.AtMost(leftCost) && diagCost.AtMost(downCost) {
      i', j' := i - 1, j - 1;
    } else if leftCost.Below(diagCost) && leftCost.Below(downCost) {
      i' := i - 1;
    } else if downCost.Below(diagCost) && downCost.Below(leftCost) {
      j' := j - 1;
    } else if i <= j {
      j' := j - 1;
    } else {
      i' := i - 1;
    }
  }

  lemma RetraceStep(p: Problem, w: Window, c: Cell, tail: seq<Cell>)
    requires w.Sound() && w.Fits(p) && p.Contains(c) && c != Cell(0, 0)
    ensures var b := Predecessor(p, w, c);
            && b.col < |p.tsI| && b.row < |p.tsJ| && b.col + b.row < c.col + c.row
            && (b.col < 0 || b.row < 0 ==> Retraced(p, w, c).None?)
            && (b.col >= 0 && b.row >= 0 ==>
                  && (Retraced(p, w, b).Some? <==> Retraced(p, w, c).Some?)
                  && (Retraced(p, w, c).Some? ==>
                        Retraced(p, w, b).value + ([c] + tail) == Retraced(p, w, c).value + tail))
  {
  }

  // The windowed overload of getWarpInfoBetween. `Refused` is the length_error of reserving -1 entries, which happens
  // exactly when both series have one point; `Strayed` is a walk back that leaves the matrix.
  method WarpInWindow(p: Problem, window: SearchWindow) returns (info: Alignment, ghost filled: nat)
    requires window.Valid() && window.View().Usable() && window.View().Fits(p) && p.NonEmpty()
    ensures filled == CellCount(window.View())
    ensures info == AlignedIn(p, window.View())
  {
    ghost var w := window.View();
    var costMatrix := new MemoryResidentMatrix(window);
    filled := FillWindow(p, costMatrix, w);
    var minimumCost := costMatrix.Get(Cell(|p.tsI| - 1, |p.tsJ| - 1));
    assert Correct(p, costMatrix, w, p.Last());
    info := ReadPath(p, costMatrix, w, minimumCost);
  }

  method MoveBack(p: Problem, costMatrix: MemoryResidentMatrix, ghost w: Window, i: int, j: int)
    returns (i': int, j': int)
    requires costMatrix.Valid() && w.Usable() && w.Fits(p) && costMatrix.window.View() == w
    requires forall c :: Correct(p, costMatrix, w, c)
    requires 0 <= i < |p.tsI| && 0 <= j < |p.tsJ|
    ensures Cell(i', j') == Predecessor(p, w, Cell(i, j))
  {
    var diagCost := if i > 0 && j > 0 then costMatrix.Get(Cell(i - 1, j - 1)) else Inf;
    var leftCost := if i > 0 then costMatrix.Get(Cell(i - 1, j)) else Inf;
    var downCost := if j > 0 then costMatrix.Get(Cell(i, j - 1)) else Inf;
    assert i > 0 && j > 0 ==> Correct(p, costMatrix, w, Cell(i - 1, j - 1));
    assert i > 0 ==> Correct(p, costMatrix, w, Cell(i - 1, j));
    assert j > 0 ==> Correct(p, costMatrix, w, Cell(i, j - 1));
    i', j' := StepBack(i, j, diagCost, leftCost, downCost);
  }

  method ReadPath(p: Problem, costMatrix: MemoryResidentMatrix, ghost w: Window, minimumCost: Cost)
    returns (info: Alignment)
    requires costMatrix.Valid() && w.Usable() && w.Fits(p) && p.NonEmpty() && costMatrix.window.View() == w
    requires minimumCost == Value(p, w, p.Last()) && forall c :: Correct(p, costMatrix, w, c)
    ensures info == AlignedIn(p, w)
  {
    var i, j := |p.tsI| - 1, |p.tsJ| - 1;
    var minCostPath := WarpPath.Reserving(i + j - 1);
    if minCostPath == null {
      return Refused;
    }
    minCostPath.AddFirst(i, j);
    var stays := WalkBack(p, costMatrix, w, minCostPath);
    info := if stays then Aligned(minimumCost, minCostPath.Cells()) else Strayed;
  }

  // From the last cell to the first, each step at the front of the path.
  method WalkBack(p: Problem, costMatrix: MemoryResidentMatrix, ghost w: Window, minCostPath: WarpPath)
    returns (stays: bool)
    requires costMatrix.Valid() && w.Usable() && w.Fits(p) && p.NonEmpty() && costMatrix.window.View() == w
    requires forall c :: Correct(p, costMatrix, w, c)
    requires minCostPath.Valid() && minCostPath.Cells() == [p.Last()]
    modifies minCostPath
    ensures minCostPath.Valid() && stays == Retraced(p, w, p.Last()).Some?
    ensures stays ==> minCostPath.Cells() == Retraced(p, w, p.Last()).value
  {
    var i, j := |p.tsI| - 1, |p.tsJ| - 1;
    ghost var tail: seq<Cell> := [];
    stays := true;
    while i > 0 || j > 0
      invariant 0 <= i < |p.tsI| && 0 <= j < |p.tsJ|
      invariant minCostPath.Valid() && minCostPath.Cells() == [Cell(i, j)] + tail
      invariant Retraced(p, w, Cell(i, j)).Some? <==> Retraced(p, w, p.Last()).Some?
      invariant Retraced(p, w, p.Last()).Some? ==>
                  Retraced(p, w, Cell(i, j)).value + tail == Retraced(p, w, p.Last()).value
      decreases i + j
    {
      RetraceStep(p, w, Cell(i, j), tail);
      tail := [Cell(i, j)] + tail;
      i, j := MoveBack(p, costMatrix, w, i, j);
      if i < 0 || j < 0 {
        return false;
      }
      minCostPath.AddFirst(i, j);
    }
  }

  // ---------------------------------------------------------------- over the full matrix

  function LesserOf(a: real, b: real): real {
    if b < a then b else a
  }

  // The value of every cell of the full matrix, as a number.
  ghost predicate Computed(p: Problem, costMatrix: array2<real>, c: Cell)
    requires p.NonEmpty() && costMatrix.Length0 == |p.tsI| && costMatrix.Length1 == |p.tsJ|
    reads costMatrix
  {
    p.Contains(c) ==> Value(p, FullWindow(p), c) == Fin(costMatrix[c.col, c.row])
  }

  lemma FullByRecurrence(p: Problem, c: Cell)
    requires p.NonEmpty() && p.Contains(c)
    ensures Value(p, FullWindow(p), c) == Recurrence(c, p.Local(c),
              if c.col > 0 then Value(p, FullWindow(p), Cell(c.col - 1, c.row)) else Inf,
              if c.col > 0 && c.row > 0 then Value(p, FullWindow(p), Cell(c.col - 1, c.row - 1)) else Inf,
              if c.row > 0 then Value(p, FullWindow(p), Cell(c.col, c.row - 1)) else Inf)
  {
    ValueByRecurrence(p, FullWindow(p), c);
  }

  method FillFirstColumn(p: Problem, costMatrix: array2<real>)
    requires p.NonEmpty() && costMatrix.Length0 == |p.tsI| && costMatrix.Length1 == |p.tsJ|
    modifies costMatrix
    ensures forall j :: 0 <= j < |p.tsJ| ==> Computed(p, costMatrix, Cell(0, j))
  {
    costMatrix[0, 0] := p.Local(Cell(0, 0));
    FullByRecurrence(p, Cell(0, 0));
    for j := 1 to |p.tsJ|
      invariant forall r :: 0 <= r < j ==> Computed(p, costMatrix, Cell(0, r))
    {
      FillFirstRowEntry(p, costMatrix, j);
    }
  }

  method FillFirstRowEntry(p: Problem, costMatrix: array2<real>, j: nat)
    requires p.NonEmpty() && costMatrix.Length0 == |p.tsI| && costMatrix.Length1 == |p.tsJ|
    requires 1 <= j < |p.tsJ| && forall r :: 0 <= r < j ==> Computed(p, costMatrix, Cell(0, r))
    modifies costMatrix
    ensures forall r :: 0 <= r <= j ==> Computed(p, costMatrix, Cell(0, r))
  {
    assert Computed(p, costMatrix, Cell(0, j - 1));
    FullByRecurrence(p, Cell(0, j));
    costMatrix[0, j] := costMatrix[0, j - 1] + p.Local(Cell(0, j));
    forall r | 0 <= r < j ensures Computed(p, costMatrix, Cell(0, r)) {
      assert old(Computed(p, costMatrix, Cell(0, r)));
    }
  }

  method FillEntry(p: Problem, costMatrix: array2<real>, i: int, j: int)
    requires p.NonEmpty() && costMatrix.Length0 == |p.tsI| && costMatrix.Length1 == |p.tsJ|
    requires 0 < i < |p.tsI| && 0 <= j < |p.tsJ|
    requires Computed(p, costMatrix, Cell(i - 1, j))
    requires j > 0 ==> Computed(p, costMatrix, Cell(i - 1, j - 1)) && Computed(p, costMatrix, Cell(i, j - 1))
    modifies costMatrix
    ensures Computed(p, costMatrix, Cell(i, j))
    ensures forall c: Cell :: c != Cell(i, j) && old(Computed(p, costMatrix, c)) ==> Computed(p, costMatrix, c)
  {
    FullByRecurrence(p, Cell(i, j));
    var value: real;
    if j == 0 {
      value := costMatrix[i - 1, 0] + p.Local(Cell(i, 0));
    } else {
      var minGlobalCost := LesserOf(costMatrix[i - 1, j], LesserOf(costMatrix[i - 1, j - 1], costMatrix[i, j - 1]));
      value := minGlobalCost + p.Local(Cell(i, j));
    }
    assert Value(p, FullWindow(p), Cell(i, j)) == Fin(value);
    PutEntry(p, costMatrix, Cell(i, j), value);
  }

  method PutEntry(p: Problem, costMatrix: array2<real>, c: Cell, value: real)
    requires p.NonEmpty() && costMatrix.Length0 == |p.tsI| && costMatrix.Length1 == |p.tsJ|
    requires p.Contains(c) && Value(p, FullWindow(p), c) == Fin(value)
    modifies costMatrix
    ensures forall x: Cell :: x == c || old(Computed(p, costMatrix, x)) ==> Computed(p, costMatrix, x)
  {
    costMatrix[c.col, c.row] := value;
    forall x: Cell | x == c || old(Computed(p, costMatrix, x)) ensures Computed(p, costMatrix, x) {
      assert p.Contains(x) && x != c ==> costMatrix[x.col, x.row] == old(costMatrix[x.col, x.row]);
    }
  }

  method FillColumn(p: Problem, costMatrix: array2<real>, i: int)
    requires p.NonEmpty() && costMatrix.Length0 == |p.tsI| && costMatrix.Length1 == |p.tsJ|
    requires 0 < i < |p.tsI|
    requires forall c: Cell :: c.col < i ==> Computed(p, costMatrix, c)
    modifies costMatrix
    ensures forall c: Cell :: c.col <= i ==> Computed(p, costMatrix, c)
  {
    FillEntry(p, costMatrix, i, 0);
    for j := 1 to |p.tsJ|
      invariant forall c: Cell :: c.col < i ==> Computed(p, costMatrix, c)
      invariant forall c: Cell :: c.col == i && c.row < j ==> Computed(p, costMatrix, c)
    {
      FillEntry(p, costMatrix, i, j);
    }
  }

  method FillFull(p: Problem, costMatrix: array2<real>)
    requires p.NonEmpty() && costMatrix.Length0 == |p.tsI| && costMatrix.Length1 == |p.tsJ|
    modifies costMatrix
    ensures forall c :: Computed(p, costMatrix, c)
  {
    FillFirstColumn(p, costMatrix);
    forall c: Cell | c.col < 1 ensures Computed(p, costMatrix, c) {
      assert p.Contains(c) ==> Computed(p, costMatrix, Cell(0, c.row));
    }
    for i := 1 to |p.tsI|
      invariant forall c: Cell :: c.col < i ==> Computed(p, costMatrix, c)
    {
      FillColumn(p, costMatrix, i);
    }
  }

  // The overload of getWarpInfoBetween without a window.
  method WarpFull(p: Problem) returns (info: Option<WarpInfo>)
    requires p.NonEmpty()
    ensures info == if p.Last() == Cell(0, 0) then None else Some(FullWarp(p))
  {
    var costMatrix := new real[|p.tsI|, |p.tsJ|];
    FillFull(p, costMatrix);
    assert Computed(p, costMatrix, p.Last());
    FullIsCrossable(p);
    var minimumCost := costMatrix[|p.tsI| - 1, |p.tsJ| - 1];
    var path := ReadFullPath(p, costMatrix);
    info := if path.Some? then Some(WarpInfo(minimumCost, path.value)) else None;
  }

  method MoveBackFull(p: Problem, costMatrix: array2<real>, i: int, j: int) returns (i': int, j': int)
    requires p.NonEmpty() && costMatrix.Length0 == |p.tsI| && costMatrix.Length1 == |p.tsJ|
    requires forall c :: Computed(p, costMatrix, c)
    requires 0 <= i < |p.tsI| && 0 <= j < |p.tsJ|
    ensures Cell(i', j') == Predecessor(p, FullWindow(p), Cell(i, j))
  {
    var diagCost := if i > 0 && j > 0 then Fin(costMatrix[i - 1, j - 1]) else Inf;
    var leftCost := if i > 0 then Fin(costMatrix[i - 1, j]) else Inf;
    var downCost := if j > 0 then Fin(costMatrix[i, j - 1]) else Inf;
    assert i > 0 && j > 0 ==> Computed(p, costMatrix, Cell(i - 1, j - 1));
    assert i > 0 ==> Computed(p, costMatrix, Cell(i - 1, j));
    assert j > 0 ==> Computed(p, costMatrix, Cell(i, j - 1));
    i', j' := StepBack(i, j, diagCost, leftCost, downCost);
  }

  method ReadFullPath(p: Problem, costMatrix: array2<real>) returns (path: Option<seq<Cell>>)
    requires p.NonEmpty() && costMatrix.Length0 == |p.tsI| && costMatrix.Length1 == |p.tsJ|
    requires forall c :: Computed(p, costMatrix, c)
    requires Value(p, FullWindow(p), p.Last()).Fin?
    ensures path == if p.Last() == Cell(0, 0) then None else Some(Traceback(p, FullWindow(p), p.Last()))
  {
    var i, j := |p.tsI| - 1, |p.tsJ| - 1;
    var minCostPath := WarpPath.Reserving(i + j - 1);
    if minCostPath == null {
      return None;
    }
    minCostPath.AddFirst(i, j);
    WalkBackFull(p, costMatrix, minCostPath);
    path := Some(minCostPath.Cells());
  }

  lemma TracebackStep(p: Problem, w: Window, c: Cell, tail: seq<Cell>)
    requires w.Sound() && w.Fits(p) && Value(p, w, c).Fin? && c != Cell(0, 0)
    ensures var b := Predecessor(p, w, c);
            && 0 <= b.col <= c.col && 0 <= b.row <= c.row && b.col + b.row < c.col + c.row
            && Value(p, w, b).Fin?
            && Traceback(p, w, b) + ([c] + tail) == Traceback(p, w, c) + tail
  {
    PredecessorExplains(p, w, c);
  }

  // From the last cell to the first, each step at the front of the path.
  method WalkBackFull(p: Problem, costMatrix: array2<real>, minCostPath: WarpPath)
    requires p.NonEmpty() && costMatrix.Length0 == |p.tsI| && costMatrix.Length1 == |p.tsJ|
    requires forall c :: Computed(p, costMatrix, c)
    requires Value(p, FullWindow(p), p.Last()).Fin? && minCostPath.Valid() && minCostPath.Cells() == [p.Last()]
    modifies minCostPath
    ensures minCostPath.Valid() && minCostPath.Cells() == Traceback(p, FullWindow(p), p.Last())
  {
    ghost var w := FullWindow(p);
    var i, j := |p.tsI| - 1, |p.tsJ| - 1;
    ghost var tail: seq<Cell> := [];
    while i > 0 || j > 0
      invariant 0 <= i < |p.tsI| && 0 <= j < |p.tsJ|
      invariant minCostPath.Valid() && minCostPath.Cells() == [Cell(i, j)] + tail
      invariant Value(p, w, Cell(i, j)).Fin?
      invariant Traceback(p, w, Cell(i, j)) + tail == Traceback(p, w, p.Last())
      decreases i + j
    {
      TracebackStep(p, w, Cell(i, j), tail);
      tail := [Cell(i, j)] + tail;
      i, j := MoveBackFull(p, costMatrix, i, j);
      minCostPath.AddFirst(i, j);
    }
  }
}
