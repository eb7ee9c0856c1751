// MemoryResidentMatrix: the costs of a window's cells in one array, column after column, with the
// place where each column starts kept in an offset table.
module CostMatrix {
  import opened WarpGrid
  import opened SearchWindows

  // Where a cell of the window is stored.
  function Address(w: Window, c: Cell): int
    requires |w.lo| == |w.hi| && w.Usable() && w.Has(c)
  {
    CellsBefore(w, c.col) + c.row - w.lo[c.col]
  }

  lemma AddressOrders(w: Window, a: Cell, b: Cell)
    requires w.Usable() && w.Has(a) && w.Has(b) && Precedes(a, b)
    ensures Address(w, a) < Address(w, b)
  {
    if a.col < b.col {
      CellsBeforeMonotone(w, a.col + 1, b.col);
    }
  }

  lemma AddressInRange(w: Window, c: Cell)
    requires w.Usable() && w.Has(c)
    ensures 0 <= Address(w, c) < CellCount(w)
  {
    CellsBeforeMonotone(w, c.col + 1, |w.lo|);
  }

  // Addresses and cells of the window correspond one to one: address k belongs to the k-th cell of
  // the column-major walk.
  lemma AddressIsPosition(w: Window, c: Cell)
    requires w.Usable() && w.Has(c)
    ensures |Walk(w, Cell(0, 0))| == CellCount(w)
    ensures 0 <= Address(w, c) < CellCount(w)
    ensures Walk(w, Cell(0, 0))[Address(w, c)] == c
  {
    WalkIsExact(w);
    AddressInRange(w, c);
    AddressWithinWalk(w, Cell(0, 0), c);
  }

  lemma {:induction false} AddressWithinWalk(w: Window, start: Cell, c: Cell)
    requires w.Usable() && w.Has(start) && w.Has(c) && !Precedes(c, start)
    ensures 0 <= Address(w, c) - Address(w, start) < |Walk(w, start)|
    ensures Walk(w, start)[Address(w, c) - Address(w, start)] == c
    decreases |w.lo| - start.col, w.hi[start.col] - start.row
  {
    if c != start {
      var n := NextCell(w, start);
      AddressWithinWalk(w, n, c);
      assert Address(w, n) == Address(w, start) + 1;
    }
  }

  class MemoryResidentMatrix {
    const window: SearchWindow
    const cellValues: array<Cost>
    const colOffsets: array<int>

    ghost predicate Valid()
      reads this, window, window.minValues, window.maxValues, colOffsets
    {
      && window.Valid() && window.View().Usable()
      && cellValues.Length == window.size
      && colOffsets.Length == window.minValues.Length
      && (forall i :: 0 <= i < colOffsets.Length ==> colOffsets[i] == CellsBefore(window.View(), i))
    }

    constructor (searchWindow: SearchWindow)
      requires searchWindow.Valid() && searchWindow.View().Usable()
      ensures Valid() && window == searchWindow && fresh(cellValues) && fresh(colOffsets)
    {
      window := searchWindow;
      cellValues := new Cost[searchWindow.size](_ => Fin(0.0));
      var offsets := MemoryResidentMatrix.Offsets(searchWindow);
      colOffsets := offsets;
    }

    // The number of cells in the columns before each one.
    static method Offsets(searchWindow: SearchWindow) returns (offsets: array<int>)
      requires searchWindow.Valid() && searchWindow.View().Usable()
      ensures fresh(offsets) && offsets.Length == searchWindow.minValues.Length
      ensures forall i :: 0 <= i < offsets.Length ==> offsets[i] == CellsBefore(searchWindow.View(), i)
    {
      ghost var w := searchWindow.View();
      offsets := new int[searchWindow.minValues.Length];
      var currentOffset := 0;
      var i := 0;
      while i <= searchWindow.MaxI()
        invariant 0 <= i <= |w.lo| && searchWindow.minValues[..] == w.lo && searchWindow.maxValues[..] == w.hi
        invariant currentOffset == CellsBefore(w, i)
        invariant forall k :: 0 <= k < i ==> offsets[k] == CellsBefore(w, k)
      {
        assert w.hi[i] == searchWindow.maxValues[i] && w.lo[i] == searchWindow.minValues[i];
        offsets[i] := currentOffset;
        currentOffset := currentOffset + searchWindow.maxValues[i] - searchWindow.minValues[i] + 1;
        i := i + 1;
      }
    }

    // Rows outside the window read as infinitely costly.
    function Get(c: Cell): (r: Cost)
      requires Valid() && 0 <= c.col < window.minValues.Length
      reads this, window, window.minValues, window.maxValues, colOffsets, cellValues
      ensures !window.View().Has(c) ==> r == Inf
    {
      if c.row < window.minValues[c.col] || c.row > window.maxValues[c.col] then Inf
      else
        AddressInRange(window.View(), c);
        cellValues[colOffsets[c.col] + c.row - window.minValues[c.col]]
    }

    // Storing a cell changes that cell and no other.
    method Put(c: Cell, value: Cost)
      requires Valid() && window.View().Has(c)
      modifies cellValues
      ensures Valid() && Get(c) == value
      ensures forall other: Cell :: 0 <= other.col < window.minValues.Length && other != c
                ==> Get(other) == old(Get(other))
    {
      AddressInRange(window.View(), c);
      cellValues[colOffsets[c.col] + c.row - window.minValues[c.col]] := value;
      forall other: Cell | window.View().Has(other) && other != c
        ensures Address(window.View(), other) != Address(window.View(), c)
      {
        if Precedes(other, c) {
          AddressOrders(window.View(), other, c);
        } else {
          AddressOrders(window.View(), c, other);
        }
      }
    }
  }
}
