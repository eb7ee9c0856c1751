// SearchWindow: which cells of the cost matrix may be evaluated, kept as one row interval per
// column, grown by marking cells and by spreading every cell in eight directions.
module SearchWindows {
  import opened Basics
  import opened WarpGrid

  // ---------------------------------------------------------------- marking cells

  ghost predicate InMatrix(w: Window, c: Cell) {
    0 <= c.col < |w.lo| && 0 <= c.row <= w.maxJ
  }

  ghost predicate AllInMatrix(w: Window, cells: seq<Cell>) {
    forall k :: 0 <= k < |cells| ==> InMatrix(w, cells[k])
  }

  ghost predicate SameMatrix(v: Window, w: Window) {
    |v.lo| == |w.lo| && v.maxJ == w.maxJ
  }

  // No column shrinks.
  ghost predicate Grows(v: Window, w: Window)
    requires v.Sound() && w.Sound()
  {
    SameMatrix(v, w) && forall c: Cell :: v.Has(c) ==> w.Has(c)
  }

  function Mark(w: Window, c: Cell): (r: Window)
    requires |w.lo| == |w.hi| && w.Sound() && InMatrix(w, c)
    ensures r.Sound() && SameMatrix(w, r)
  {
    if w.lo[c.col] == -1 then w.(lo := w.lo[c.col := c.row], hi := w.hi[c.col := c.row])
    else if w.lo[c.col] > c.row then w.(lo := w.lo[c.col := c.row])
    else if w.hi[c.col] < c.row then w.(hi := w.hi[c.col := c.row])
    else w
  }

  function MarkAll(w: Window, cells: seq<Cell>): (r: Window)
    requires |w.lo| == |w.hi| && w.Sound() && AllInMatrix(w, cells)
    ensures r.Sound() && SameMatrix(w, r)
  {
    if cells == [] then w
    else Mark(MarkAll(w, cells[..|cells| - 1]), cells[|cells| - 1])
  }

  // Marking never takes a cell away.
  lemma MarkGrows(w: Window, c: Cell)
    requires w.Sound() && InMatrix(w, c)
    ensures Grows(w, Mark(w, c)) && Mark(w, c).Has(c)
  {
  }

  lemma {:induction false} MarkAllGrows(w: Window, cells: seq<Cell>)
    requires w.Sound() && AllInMatrix(w, cells)
    ensures Grows(w, MarkAll(w, cells))
  {
    if cells != [] {
      MarkAllGrows(w, cells[..|cells| - 1]);
      MarkGrows(MarkAll(w, cells[..|cells| - 1]), cells[|cells| - 1]);
    }
  }

  lemma {:induction false} MarkAllConcat(w: Window, a: seq<Cell>, b: seq<Cell>)
    requires w.Sound() && AllInMatrix(w, a) && AllInMatrix(w, b)
    ensures AllInMatrix(w, a + b) && MarkAll(w, a + b) == MarkAll(MarkAll(w, a), b)
  {
    if b == [] {
      assert a + b == a;
    } else {
      var front := b[..|b| - 1];
      MarkAllConcat(w, a, front);
      assert (a + b)[..|a + b| - 1] == a + front;
    }
  }

  lemma MarkAllOneMore(w: Window, cells: seq<Cell>, c: Cell)
    requires w.Sound() && AllInMatrix(w, cells) && InMatrix(w, c)
    ensures AllInMatrix(w, cells + [c]) && InMatrix(MarkAll(w, cells), c)
    ensures MarkAll(w, cells + [c]) == Mark(MarkAll(w, cells), c)
  {
    assert (cells + [c])[..|cells|] == cells;
  }

  // A cell was held before, or has been marked.
  ghost predicate Touched(w: Window, cells: seq<Cell>, c: Cell)
    requires w.Sound()
  {
    w.Has(c) || c in cells
  }

  // c lies between two touched cells of its column.
  ghost predicate Between(w: Window, cells: seq<Cell>, c: Cell)
    requires w.Sound()
  {
    exists a, b :: a <= c.row <= b && Touched(w, cells, Cell(c.col, a)) && Touched(w, cells, Cell(c.col, b))
  }

  // After one more mark of a touched column.
  lemma MarkedIsBetween(w: Window, front: seq<Cell>, last: Cell, c: Cell)
    requires w.Sound() && AllInMatrix(w, front) && InMatrix(w, last)
    requires Mark(MarkAll(w, front), last).Has(c) && !MarkAll(w, front).Has(c)
    ensures Between(w, front + [last], c)
  {
    var v := MarkAll(w, front);
    assert last == Cell(c.col, last.row);
    TouchedMore(w, front, last, last);
    if v.lo[c.col] != -1 {
      EndsAreTouched(w, front, c.col);
      TouchedMore(w, front, last, Cell(c.col, v.lo[c.col]));
      TouchedMore(w, front, last, Cell(c.col, v.hi[c.col]));
    }
  }

  lemma {:induction false} InIsBetween(w: Window, cells: seq<Cell>, c: Cell)
    requires w.Sound() && AllInMatrix(w, cells) && MarkAll(w, cells).Has(c)
    ensures Between(w, cells, c)
  {
    if cells == [] {
      assert Touched(w, cells, Cell(c.col, c.row));
    } else {
      var front, last := cells[..|cells| - 1], cells[|cells| - 1];
      assert cells == front + [last];
      if MarkAll(w, front).Has(c) {
        InIsBetween(w, front, c);
        var a, b :| a <= c.row <= b && Touched(w, front, Cell(c.col, a)) && Touched(w, front, Cell(c.col, b));
        TouchedMore(w, front, last, Cell(c.col, a));
        TouchedMore(w, front, last, Cell(c.col, b));
      } else {
        MarkedIsBetween(w, front, last, c);
      }
    }
  }

  // The result of any sequence of marks is, column by column, the hull of what was there and what
  // was marked: a row is in iff it lies between two touched rows of its column.
  lemma MarkAllIsHull(w: Window, cells: seq<Cell>, c: Cell)
    requires w.Sound() && AllInMatrix(w, cells)
    ensures MarkAll(w, cells).Has(c) <==> Between(w, cells, c)
  {
    if MarkAll(w, cells).Has(c) {
      InIsBetween(w, cells, c);
    }
    if Between(w, cells, c) {
      var a, b :| a <= c.row <= b && Touched(w, cells, Cell(c.col, a)) && Touched(w, cells, Cell(c.col, b));
      TouchedIsIn(w, cells, Cell(c.col, a));
      TouchedIsIn(w, cells, Cell(c.col, b));
    }
  }

  lemma {:induction false} TouchedIsIn(w: Window, cells: seq<Cell>, c: Cell)
    requires w.Sound() && AllInMatrix(w, cells) && Touched(w, cells, c)
    ensures MarkAll(w, cells).Has(c)
  {
    if cells != [] {
      var front, last := cells[..|cells| - 1], cells[|cells| - 1];
      assert cells == front + [last];
      if c != last {
        TouchedIsIn(w, front, c);
      }
    }
  }

  // The ends of a column after one more mark are ends from before or the mark.
  lemma MarkEnds(v: Window, c: Cell, i: int)
    requires v.Sound() && InMatrix(v, c) && 0 <= i < |v.lo| && Mark(v, c).lo[i] != -1
    ensures v.lo[i] == -1 ==> c.col == i
    ensures Cell(i, Mark(v, c).lo[i]) == c || (v.lo[i] != -1 && Mark(v, c).lo[i] == v.lo[i])
    ensures Cell(i, Mark(v, c).hi[i]) == c || (v.lo[i] != -1 && Mark(v, c).hi[i] == v.hi[i])
  {
    assert c == Cell(c.col, c.row);
  }

  lemma TouchedMore(w: Window, front: seq<Cell>, last: Cell, x: Cell)
    requires w.Sound() && (Touched(w, front, x) || x == last)
    ensures Touched(w, front + [last], x)
  {
  }

  lemma {:induction false} EndsAreTouched(w: Window, cells: seq<Cell>, i: int)
    requires w.Sound() && AllInMatrix(w, cells)
    requires 0 <= i < |w.lo| && MarkAll(w, cells).lo[i] != -1
    ensures Touched(w, cells, Cell(i, MarkAll(w, cells).lo[i]))
    ensures Touched(w, cells, Cell(i, MarkAll(w, cells).hi[i]))
  {
    if cells != [] {
      var front, last := cells[..|cells| - 1], cells[|cells| - 1];
      assert cells == front + [last];
      var v := MarkAll(w, front);
      MarkEnds(v, last, i);
      if v.lo[i] != -1 {
        EndsAreTouched(w, front, i);
      }
      TouchedMore(w, front, last, Cell(i, Mark(v, last).lo[i]));
      TouchedMore(w, front, last, Cell(i, Mark(v, last).hi[i]));
    }
  }

  // ---------------------------------------------------------------- counting cells

  function Width(w: Window, i: int): nat
    requires |w.lo| == |w.hi| && w.Sound() && 0 <= i < |w.lo|
  {
    if w.lo[i] == -1 then 0 else w.hi[i] - w.lo[i] + 1
  }

  // Cells in the first `n` columns.
  function CellsBefore(w: Window, n: nat): nat
    requires |w.lo| == |w.hi| && w.Sound() && n <= |w.lo|
  {
    if n == 0 then 0 else CellsBefore(w, n - 1) + Width(w, n - 1)
  }

  function CellCount(w: Window): nat
    requires |w.lo| == |w.hi| && w.Sound()
  {
    CellsBefore(w, |w.lo|)
  }

  lemma {:induction false} CellsBeforeOneColumn(v: Window, w: Window, i: nat, n: nat)
    requires v.Sound() && w.Sound() && |v.lo| == |w.lo| && i < |v.lo| && n <= |v.lo|
    requires forall k :: 0 <= k < |v.lo| && k != i ==> v.lo[k] == w.lo[k] && v.hi[k] == w.hi[k]
    ensures CellsBefore(w, n) - CellsBefore(v, n) == if i < n then Width(w, i) - Width(v, i) else 0
  {
    if n > 0 {
      CellsBeforeOneColumn(v, w, i, n - 1);
    }
  }

  lemma {:induction false} CellsBeforeMonotone(w: Window, m: nat, n: nat)
    requires w.Sound() && m <= n <= |w.lo|
    ensures CellsBefore(w, m) <= CellsBefore(w, n)
    decreases n
  {
    if m < n {
      CellsBeforeMonotone(w, m, n - 1);
    }
  }

  // ---------------------------------------------------------------- the column-major walk

  function NextCell(w: Window, c: Cell): Cell
    requires |w.lo| == |w.hi| && 0 <= c.col < |w.lo|
  {
    if c.row < w.hi[c.col] then Cell(c.col, c.row + 1)
    else if c.col + 1 < |w.lo| then Cell(c.col + 1, w.lo[c.col + 1])
    else Cell(c.col + 1, 0)
  }

  // The cells still to visit from `c`, column by column, bottom to top.
  function Walk(w: Window, c: Cell): seq<Cell>
    requires |w.lo| == |w.hi| && |w.lo| > 0 && w.Usable() && w.Has(c)
    decreases |w.lo| - c.col, w.hi[c.col] - c.row
  {
    [c] + if w.Has(NextCell(w, c)) then Walk(w, NextCell(w, c)) else []
  }

  // Strictly earlier in column-major order.
  predicate Precedes(a: Cell, b: Cell) {
    a.col < b.col || (a.col == b.col && a.row < b.row)
  }

  // From `c` on, the walk visits exactly the window's cells that do not precede `c`.
  lemma {:induction false} WalkVisits(w: Window, c: Cell, x: Cell)
    requires w.Usable() && w.Has(c)
    ensures x in Walk(w, c) <==> w.Has(x) && !Precedes(x, c)
    decreases |w.lo| - c.col, w.hi[c.col] - c.row
  {
    var n := NextCell(w, c);
    if w.Has(n) {
      WalkVisits(w, n, x);
    }
  }

  // It never repeats or goes back.
  lemma {:induction false} WalkAscends(w: Window, c: Cell)
    requires w.Usable() && w.Has(c)
    ensures forall a, b :: 0 <= a < b < |Walk(w, c)| ==> Precedes(Walk(w, c)[a], Walk(w, c)[b])
    decreases |w.lo| - c.col, w.hi[c.col] - c.row
  {
    var n := NextCell(w, c);
    if w.Has(n) {
      WalkAscends(w, n);
      forall b | 1 <= b < |Walk(w, c)| ensures Precedes(c, Walk(w, c)[b]) {
        WalkVisits(w, n, Walk(w, n)[b - 1]);
      }
    }
  }

  // Its k-th cell is the one the offset table addresses with k.
  lemma {:induction false} WalkLength(w: Window, c: Cell)
    requires w.Usable() && w.Has(c)
    ensures |Walk(w, c)| == CellCount(w) - (CellsBefore(w, c.col) + c.row - w.lo[c.col])
    decreases |w.lo| - c.col, w.hi[c.col] - c.row
  {
    var n := NextCell(w, c);
    if w.Has(n) {
      WalkLength(w, n);
    }
  }

  // The whole walk: every cell of the window exactly once, `size` of them.
  lemma WalkIsExact(w: Window)
    requires w.Usable()
    ensures var all := Walk(w, Cell(0, 0));
            && |all| == CellCount(w)
            && (forall x :: x in all <==> w.Has(x))
            && (forall a, b :: 0 <= a < b < |all| ==> all[a] != all[b])
  {
    var start := Cell(0, 0);
    WalkLength(w, start);
    WalkAscends(w, start);
    forall x ensures x in Walk(w, start) <==> w.Has(x) {
      WalkVisits(w, start, x);
    }
  }

  // ---------------------------------------------------------------- spreading cells

  // A compass direction: each coordinate is -1, 0 or 1 and not both are 0.
  datatype Direction = Direction(dcol: int, drow: int) {
    predicate Compass() {
      -1 <= dcol <= 1 && -1 <= drow <= 1 && !(dcol == 0 && drow == 0)
    }
  }

  // The order in which expandSearchWindow tries them: upper left, up, upper right, left, right,
  // lower left, down, lower right.
  function CompassPoint(k: nat): (d: Direction)
    requires k < 8
    ensures d.Compass()
  {
    if k == 0 then Direction(-1, 1) else if k == 1 then Direction(0, 1)
    else if k == 2 then Direction(1, 1) else if k == 3 then Direction(-1, 0)
    else if k == 4 then Direction(1, 0) else if k == 5 then Direction(-1, -1)
    else if k == 6 then Direction(0, -1) else Direction(1, -1)
  }

  function Shifted(at: int, delta: int, steps: int): int {
    if delta < 0 then at - steps else if delta > 0 then at + steps else at
  }

  function Along(c: Cell, d: Direction, steps: int): Cell {
    Cell(Shifted(c.col, d.dcol, steps), Shifted(c.row, d.drow, steps))
  }

  // How far a cell can move along one axis of the matrix before the edge (`limit` if it does not move).
  function Room(at: int, delta: int, last: int, limit: int): int {
    if delta < 0 then at else if delta > 0 then last - at else limit
  }

  function Steps(w: Window, c: Cell, d: Direction, radius: int): int {
    Least(radius, Least(Room(c.col, d.dcol, |w.lo| - 1, radius), Room(c.row, d.drow, w.maxJ, radius)))
  }

  // Where a cell spreads to in direction `d`.
  function Destination(w: Window, c: Cell, d: Direction, radius: int): Cell {
    Along(c, d, Steps(w, c, d, radius))
  }

  // It is the furthest cell of the matrix at most `radius` steps away.
  lemma DestinationIsFurthest(w: Window, c: Cell, d: Direction, radius: nat)
    requires InMatrix(w, c) && d.Compass()
    ensures InMatrix(w, Destination(w, c, d, radius))
    ensures exists steps :: 0 <= steps <= radius && Destination(w, c, d, radius) == Along(c, d, steps) &&
                            (steps == radius || !InMatrix(w, Along(c, d, steps + 1)))
  {
    var steps := Steps(w, c, d, radius);
    assert 0 <= steps <= radius && Destination(w, c, d, radius) == Along(c, d, steps);
    assert steps == radius || !InMatrix(w, Along(c, d, steps + 1));
  }

  // The cells that one cell spreads to in the first `n` directions.
  function SpreadFirst(w: Window, c: Cell, radius: nat, n: nat): (cells: seq<Cell>)
    requires InMatrix(w, c) && n <= 8
    ensures |cells| == n && AllInMatrix(w, cells)
    ensures forall k :: 0 <= k < n ==> cells[k] == Destination(w, c, CompassPoint(k), radius)
  {
    if n == 0 then []
    else
      DestinationIsFurthest(w, c, CompassPoint(n - 1), radius);
      SpreadFirst(w, c, radius, n - 1) + [Destination(w, c, CompassPoint(n - 1), radius)]
  }

  function Spread(w: Window, c: Cell, radius: nat): (cells: seq<Cell>)
    requires InMatrix(w, c)
    ensures |cells| == 8 && AllInMatrix(w, cells)
  {
    SpreadFirst(w, c, radius, 8)
  }

  function SpreadAll(w: Window, from: seq<Cell>, radius: nat): (cells: seq<Cell>)
    requires AllInMatrix(w, from)
    ensures AllInMatrix(w, cells)
  {
    if from == [] then []
    else SpreadAll(w, from[..|from| - 1], radius) + Spread(w, from[|from| - 1], radius)
  }

  lemma WalkInMatrix(w: Window)
    requires w.Usable()
    ensures AllInMatrix(w, Walk(w, Cell(0, 0)))
  {
    WalkIsExact(w);
    forall k | 0 <= k < |Walk(w, Cell(0, 0))| ensures InMatrix(w, Walk(w, Cell(0, 0))[k]) {
      assert Walk(w, Cell(0, 0))[k] in Walk(w, Cell(0, 0));
    }
  }

  lemma GrownIsUsable(v: Window, w: Window)
    requires v.Usable() && w.Sound() && Grows(v, w)
    ensures w.Usable()
  {
    forall i | 0 <= i < |w.lo| ensures w.lo[i] >= 0 {
      assert v.Has(Cell(i, v.lo[i]));
    }
    assert v.Has(Cell(0, 0));
  }

  // The window after spreading every one of its cells by `radius`.
  ghost function SpreadWindow(w: Window, radius: int): (r: Window)
    requires w.Usable()
    ensures r.Usable() && Grows(w, r)
  {
    if radius <= 0 then w
    else
      WalkInMatrix(w);
      var r := MarkAll(w, SpreadAll(w, Walk(w, Cell(0, 0)), radius));
      MarkAllGrows(w, SpreadAll(w, Walk(w, Cell(0, 0)), radius));
      GrownIsUsable(w, r);
      r
  }

  // expandWindow spreads by one and then by the rest of the radius.
  ghost function ExpandedWindow(w: Window, radius: int): (r: Window)
    requires w.Usable()
    ensures r.Usable() && Grows(w, r)
  {
    if radius > 0 then SpreadWindow(SpreadWindow(w, 1), radius - 1) else w
  }

  lemma {:induction false} SpreadAllHolds(w: Window, from: seq<Cell>, radius: nat, x: Cell)
    requires AllInMatrix(w, from)
    ensures x in SpreadAll(w, from, radius) <==>
            exists c, k :: c in from && InMatrix(w, c) && 0 <= k < 8 && x == Spread(w, c, radius)[k]
  {
    if from != [] {
      var front, last := from[..|from| - 1], from[|from| - 1];
      assert from == front + [last];
      SpreadAllHolds(w, front, radius, x);
      if x in Spread(w, last, radius) {
        var k :| 0 <= k < 8 && x == Spread(w, last, radius)[k];
      }
    }
  }

  // A cell belongs to the spread window iff its column holds, at or below it and at or above it,
  // a cell that was in the window or is the furthest in-matrix cell, in one of the eight
  // directions and at most `radius` away, from a cell that was.
  lemma SpreadWindowIsHull(w: Window, radius: nat, c: Cell)
    requires w.Usable() && radius > 0
    ensures SpreadWindow(w, radius).Has(c) <==>
            exists a, b :: a <= c.row <= b && Reached(w, radius, Cell(c.col, a)) && Reached(w, radius, Cell(c.col, b))
  {
    WalkInMatrix(w);
    var marks := SpreadAll(w, Walk(w, Cell(0, 0)), radius);
    MarkAllIsHull(w, marks, c);
    forall x ensures Touched(w, marks, x) <==> Reached(w, radius, x) {
      WalkIsExact(w);
      SpreadAllHolds(w, Walk(w, Cell(0, 0)), radius, x);
      if x in marks {
        var y, k :| y in Walk(w, Cell(0, 0)) && InMatrix(w, y) && 0 <= k < 8 && x == Spread(w, y, radius)[k];
        assert w.Has(y) && x == Destination(w, y, CompassPoint(k), radius);
      }
      if y, k :| w.Has(y) && 0 <= k < 8 && x == Destination(w, y, CompassPoint(k), radius) {
        assert x == Spread(w, y, radius)[k];
      }
    }
  }

  ghost predicate Reached(w: Window, radius: nat, x: Cell)
    requires w.Usable()
  {
    || w.Has(x)
    || exists y, k :: w.Has(y) && 0 <= k < 8 && x == Destination(w, y, CompassPoint(k), radius)
  }

  // ---------------------------------------------------------------- the class

  class SearchWindow {
    const minValues: array<int>
    const maxValues: array<int>
    const maxJ: int
    var size: int
    var modCount: int

    function View(): Window
      reads this, minValues, maxValues
    {
      Window(minValues[..], maxValues[..], maxJ)
    }

    ghost predicate Valid()
      reads this, minValues, maxValues
    {
      && minValues != maxValues
      && View().Sound()
      && size == CellCount(View())
    }

    // No cell is marked yet: every column's minimum is -1.
    constructor (tsIsize: nat, tsJsize: nat)
      ensures Valid() && fresh(minValues) && fresh(maxValues)
      ensures SameMatrix(View(), Window(seq(tsIsize, _ => -1), seq(tsIsize, _ => 0), tsJsize - 1))
      ensures forall c: Cell :: !View().Has(c)
      ensures View() == Window(seq(tsIsize, _ => -1), seq(tsIsize, _ => 0), tsJsize - 1)
      ensures size == 0
    {
      minValues := new int[tsIsize](_ => -1);
      maxValues := new int[tsIsize](_ => 0);
      maxJ := tsJsize - 1;
      size, modCount := 0, 0;
      new;
      assert View() == Window(seq(tsIsize, _ => -1), seq(tsIsize, _ => 0), tsJsize - 1);
      EmptyHasNoCells(View(), tsIsize);
    }

    function MaxI(): int {
      minValues.Length - 1
    }

    method MarkVisited(col: int, row: int)
      requires Valid() && InMatrix(View(), Cell(col, row))
      modifies this, minValues, maxValues
      ensures Valid()
      ensures View() == Mark(old(View()), Cell(col, row))
      ensures modCount == old(modCount) + if View() == old(View()) then 0 else 1
    {
      ghost var before := View();
      if minValues[col] == -1 {
        minValues[col] := row;
        maxValues[col] := row;
        size := size + 1;
        modCount := modCount + 1;
      } else if minValues[col] > row {
        size := size + minValues[col] - row;
        minValues[col] := row;
        modCount := modCount + 1;
      } else if maxValues[col] < row {
        size := size + row - maxValues[col];
        maxValues[col] := row;
        modCount := modCount + 1;
      }
      assert View() == Mark(before, Cell(col, row));
      CellsBeforeOneColumn(before, View(), col, minValues.Length);
    }

    // Where one of the eight moves of expandSearchWindow ends: `radius` cells in direction `d`, or back by the
    // number of cells past the edge of the matrix.
    method Target(cell: Cell, d: Direction, radius: nat) returns (target: Cell)
      requires View().Sound() && View().Has(cell) && d.Compass()
      ensures target == Destination(View(), cell, d, radius)
    {
      target := Along(cell, d, radius);
      if !(0 <= target.col <= MaxI() && 0 <= target.row <= maxJ) {
        var pastCol := if d.dcol < 0 then 0 - target.col else if d.dcol > 0 then target.col - MaxI() else 0;
        var pastRow := if d.drow < 0 then 0 - target.row else if d.drow > 0 then target.row - maxJ else 0;
        var cellsPastEdge := if pastCol < pastRow then pastRow else pastCol;
        target := Along(target, d, 0 - cellsPastEdge);
      }
    }

    // One of the eight moves.
    method MoveTowards(cell: Cell, d: Direction, radius: nat)
      requires Valid() && View().Has(cell) && d.Compass()
      modifies this, minValues, maxValues
      ensures Valid()
      ensures InMatrix(old(View()), Destination(old(View()), cell, d, radius))
      ensures View() == Mark(old(View()), Destination(old(View()), cell, d, radius))
    {
      DestinationIsFurthest(View(), cell, d, radius);
      if (d.dcol < 0 && cell.col == 0) || (d.dcol > 0 && cell.col == MaxI()) ||
         (d.drow < 0 && cell.row == 0) || (d.drow > 0 && cell.row == maxJ)
      {
        EdgeStays(View(), cell, d, radius);
        return;
      }
      var target := Target(cell, d, radius);
      MarkVisited(target.col, target.row);
    }

    // The body of the loop over the window's cells.
    method ExpandCell(cell: Cell, radius: nat)
      requires Valid() && View().Has(cell)
      modifies this, minValues, maxValues
      ensures Valid()
      ensures View() == MarkAll(old(View()), Spread(old(View()), cell, radius))
    {
      ghost var before := View();
      var k := 0;
      while k < 8
        invariant 0 <= k <= 8
        invariant Valid() && SameMatrix(before, View()) && View().Has(cell)
        invariant View() == MarkAll(before, SpreadFirst(before, cell, radius, k))
      {
        SpreadStep(before, View(), cell, radius, k);
        MarkGrows(View(), Destination(View(), cell, CompassPoint(k), radius));
        MoveTowards(cell, CompassPoint(k), radius);
        k := k + 1;
      }
    }

    // All the window's cells, read before the window changes.
    method CollectCells() returns (windowCells: seq<Cell>)
      requires Valid() && View().Usable()
      ensures windowCells == Walk(View(), Cell(0, 0))
    {
      windowCells := [];
      var it := new SearchWindowIterator(this);
      ghost var rest := it.Rest();
      ghost var all := rest;
      while it.hasMoreElements
        invariant fresh(it) && it.Valid() && it.window == this
        invariant rest == it.Rest() && windowCells + rest == all
        decreases |rest|
      {
        var cell := it.Next();
        windowCells := windowCells + [cell];
        rest := rest[1..];
      }
    }

    method ExpandSearchWindow(radius: int)
      requires Valid() && View().Usable()
      modifies this, minValues, maxValues
      ensures Valid() && View() == SpreadWindow(old(View()), radius)
    {
      if radius > 0 {
        ghost var before := View();
        var windowCells := CollectCells();
        WalkInMatrix(before);
        WalkIsExact(before);
        var k := 0;
        while k < |windowCells|
          invariant 0 <= k <= |windowCells|
          invariant Valid() && Grows(before, View())
          invariant View() == MarkAll(before, SpreadAll(before, windowCells[..k], radius))
        {
          assert windowCells[k] in windowCells;
          SpreadAllStep(before, View(), windowCells, k, radius);
          MarkAllGrows(View(), Spread(View(), windowCells[k], radius));
          ExpandCell(windowCells[k], radius);
          k := k + 1;
        }
        assert windowCells[..k] == windowCells;
      }
    }

    method ExpandWindow(radius: int)
      requires Valid() && View().Usable()
      modifies this, minValues, maxValues
      ensures Valid() && View() == ExpandedWindow(old(View()), radius)
    {
      if radius > 0 {
        ghost var w := View();
        ExpandSearchWindow(1);
        ExpandRest(w, radius);
      }
    }

    // The second expansion, after the one by a single cell.
    method ExpandRest(ghost w: Window, radius: int)
      requires Valid() && w.Usable() && View() == SpreadWindow(w, 1) && radius > 0
      modifies this, minValues, maxValues
      ensures Valid() && View() == ExpandedWindow(w, radius)
    {
      ExpandSearchWindow(radius - 1);
    }
  }

  // A cell at the edge cannot move past it, and marking it again changes nothing.
  lemma EdgeStays(w: Window, c: Cell, d: Direction, radius: nat)
    requires w.Sound() && w.Has(c) && d.Compass() && |w.lo| > 0
    requires (d.dcol < 0 && c.col == 0) || (d.dcol > 0 && c.col == |w.lo| - 1) ||
             (d.drow < 0 && c.row == 0) || (d.drow > 0 && c.row == w.maxJ)
    ensures Destination(w, c, d, radius) == c && InMatrix(w, c) && Mark(w, c) == w
  {
    assert w.lo[c.col := w.lo[c.col]] == w.lo && w.hi[c.col := w.hi[c.col]] == w.hi;
  }

  lemma {:induction false} SpreadOfSameMatrix(v: Window, w: Window, c: Cell, radius: nat, n: nat)
    requires SameMatrix(v, w) && InMatrix(v, c) && n <= 8
    ensures SpreadFirst(v, c, radius, n) == SpreadFirst(w, c, radius, n)
  {
    if n > 0 {
      SpreadOfSameMatrix(v, w, c, radius, n - 1);
    }
  }

  lemma SpreadStep(before: Window, v: Window, c: Cell, radius: nat, k: nat)
    requires before.Sound() && v.Sound() && SameMatrix(before, v) && InMatrix(before, c) && k < 8
    requires v == MarkAll(before, SpreadFirst(before, c, radius, k))
    ensures InMatrix(v, Destination(v, c, CompassPoint(k), radius))
    ensures Mark(v, Destination(v, c, CompassPoint(k), radius)) ==
            MarkAll(before, SpreadFirst(before, c, radius, k + 1))
  {
    var front, d := SpreadFirst(before, c, radius, k), Destination(v, c, CompassPoint(k), radius);
    assert SpreadFirst(before, c, radius, k + 1) == front + [d];
    MarkAllOneMore(before, front, d);
  }

  lemma SpreadAllStep(before: Window, v: Window, cells: seq<Cell>, k: nat, radius: nat)
    requires before.Sound() && v.Sound() && SameMatrix(before, v) && AllInMatrix(before, cells) && k < |cells|
    requires v == MarkAll(before, SpreadAll(before, cells[..k], radius))
    ensures MarkAll(v, Spread(v, cells[k], radius)) == MarkAll(before, SpreadAll(before, cells[..k + 1], radius))
  {
    assert cells[..k + 1][..k] == cells[..k];
    SpreadOfSameMatrix(before, v, cells[k], radius, 8);
    MarkAllConcat(before, SpreadAll(before, cells[..k], radius), Spread(before, cells[k], radius));
  }

  lemma {:induction false} EmptyHasNoCells(w: Window, n: nat)
    requires w.Sound() && n <= |w.lo| && forall i :: 0 <= i < |w.lo| ==> w.lo[i] == -1
    ensures CellsBefore(w, n) == 0
  {
    if n > 0 {
      EmptyHasNoCells(w, n - 1);
    }
  }

  class SearchWindowIterator {
    const window: SearchWindow
    const expectedModCount: int
    var currentI: int
    var currentJ: int
    var hasMoreElements: bool

    ghost predicate Valid()
      reads this, window, window.minValues, window.maxValues
    {
      && window.Valid() && window.View().Usable()
      && window.modCount == expectedModCount
      && (hasMoreElements ==> window.View().Has(Cell(currentI, currentJ)))
    }

    // The cells that are still to come.
    ghost function Rest(): seq<Cell>
      requires Valid()
      reads this, window, window.minValues, window.maxValues
    {
      if hasMoreElements then Walk(window.View(), Cell(currentI, currentJ)) else []
    }

    constructor (w: SearchWindow)
      requires w.Valid() && w.View().Usable()
      ensures Valid() && window == w
      ensures Rest() == Walk(w.View(), Cell(0, 0))
      ensures hasMoreElements && currentI == 0 && currentJ == 0
    {
      window := w;
      expectedModCount := w.modCount;
      currentI, currentJ := 0, 0;
      hasMoreElements := w.size > 0;
      WalkIsExact(w.View());
    }

    method Next() returns (cell: Cell)
      requires Valid() && hasMoreElements
      modifies this
      ensures Valid()
      ensures old(Rest()) == [cell] + Rest()
      ensures cell == old(Cell(currentI, currentJ))
      ensures hasMoreElements ==> Cell(currentI, currentJ) == NextCell(window.View(), cell)
    {
      assert window.modCount == expectedModCount;
      cell := Cell(currentI, currentJ);
      currentJ := currentJ + 1;
      if currentJ > window.maxValues[currentI] {
        currentI := currentI + 1;
        if currentI <= window.MaxI() {
          currentJ := window.minValues[currentI];
        } else {
          hasMoreElements := false;
        }
      }
    }
  }
}
