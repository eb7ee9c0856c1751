// WarpPath: two index vectors that grow together at either end.
module WarpPaths {
  import opened WarpGrid

  class WarpPath {
    var tsIindexes: seq<int>
    var tsJindexes: seq<int>

    predicate Valid()
      reads this
    {
      |tsIindexes| == |tsJindexes|
    }

    function Cells(): seq<Cell>
      requires Valid()
      reads this
    {
      seq(|tsIindexes|, k requires 0 <= k < |tsIindexes| reads this requires Valid() =>
        Cell(tsIindexes[k], tsJindexes[k]))
    }

    constructor ()
      ensures Valid() && Cells() == []
    {
      tsIindexes, tsJindexes := [], [];
    }

    // The real constructor reserves `initialCapacity` entries, which a vector refuses (it throws
    // length_error) when the number is negative.
    static method Reserving(initialCapacity: int) returns (path: WarpPath?)
      ensures path == null <==> initialCapacity < 0
      ensures path != null ==> fresh(path) && path.Valid() && path.Cells() == []
    {
      if initialCapacity < 0 {
        path := null;
      } else {
        path := new WarpPath();
      }
    }

    method AddFirst(i: int, j: int)
      requires Valid()
      modifies this
      ensures Valid() && Cells() == [Cell(i, j)] + old(Cells())
    {
      tsIindexes := [i] + tsIindexes;
      tsJindexes := [j] + tsJindexes;
    }
  }
}
