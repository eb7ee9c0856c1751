// From a cloud to its Scan Context descriptor and ring key, and what a turn of the sensor does to them.
module ScanCloud {
  import opened Basics
  import opened Matrices
  import opened ScanContext

  // A point in polar form; its turn is its angle as a fraction of a full circle. The conversion from x and y
  // is a parameter.
  datatype Polar = Polar(radius: real, turn: real, z: real)

  datatype Grid = Grid(rings: nat, sectors: nat, maxRadius: real, sensorHeight: real) {
    predicate Valid() {
      rings > 0 && sectors > 0 && maxRadius > 0.0
    }
  }

  ghost predicate Angular(p: Polar) {
    0.0 <= p.turn < 1.0 && p.radius >= 0.0
  }

  function RingOf(g: Grid, p: Polar): int
    requires g.Valid()
  {
    Least(g.rings - 1, (p.radius / g.maxRadius * g.rings as real).Floor)
  }

  function SectorOf(g: Grid, p: Polar): int
    requires g.Valid()
  {
    Least(g.sectors - 1, (p.turn * g.sectors as real).Floor)
  }

  predicate Ignored(g: Grid, p: Polar) {
    p.radius < 0.001 || p.radius > g.maxRadius
  }

  predicate FallsInto(g: Grid, p: Polar, sector: int, ring: int)
    requires g.Valid()
  {
    !Ignored(g, p) && SectorOf(g, p) == sector && RingOf(g, p) == ring
  }

  function Height(g: Grid, p: Polar): real {
    p.z + g.sensorHeight
  }

  function Greatest(a: real, b: real): real {
    if a < b then b else a
  }

  // The greatest height in a cell, 0 if there is none above.
  function Level(g: Grid, points: seq<Polar>, sector: int, ring: int): (r: real)
    requires g.Valid()
    ensures r >= 0.0
  {
    if points == [] then 0.0
    else
      var p := points[|points| - 1];
      var below := Level(g, points[..|points| - 1], sector, ring);
      if FallsInto(g, p, sector, ring) then Greatest(below, Height(g, p)) else below
  }

  function ColumnOf(g: Grid, points: seq<Polar>, sector: int): (r: Vector)
    requires g.Valid()
    ensures |r| == g.rings
  {
    seq(g.rings, k requires 0 <= k < g.rings => Level(g, points, sector, k))
  }

  function DescriptorOf(g: Grid, points: seq<Polar>): (r: Descriptor)
    requires g.Valid()
    ensures |r| == g.sectors && Shaped(r, g.rings)
  {
    seq(g.sectors, s requires 0 <= s < g.sectors => ColumnOf(g, points, s))
  }

  lemma IndicesInRange(g: Grid, p: Polar)
    requires g.Valid() && Angular(p) && !Ignored(g, p)
    ensures 0 <= SectorOf(g, p) < g.sectors && 0 <= RingOf(g, p) < g.rings
  {
    assert p.turn * g.sectors as real >= 0.0;
    Quotient(p.radius, g.maxRadius);
    assert p.radius / g.maxRadius * g.rings as real >= 0.0;
  }

  lemma Quotient(x: real, d: real)
    requires x >= 0.0 && d > 0.0
    ensures x / d >= 0.0
  {
  }

  // A point lies in the ring and in the sector it is counted in; the outer edge belongs to the last ring.
  lemma CellHoldsPoint(g: Grid, p: Polar)
    requires g.Valid() && Angular(p) && !Ignored(g, p)
    ensures var r, n := RingOf(g, p), g.rings as real;
            && r as real * g.maxRadius <= p.radius * n <= (r + 1) as real * g.maxRadius
            && (p.radius < g.maxRadius ==> p.radius * n < (r + 1) as real * g.maxRadius)
    ensures var s := SectorOf(g, p); s as real <= p.turn * g.sectors as real < s as real + 1.0
  {
    SectorIsFloor(g, p);
    var n, x := g.rings as real, p.radius / g.maxRadius;
    assert x * g.maxRadius == p.radius;
    BelowOne(x, g.maxRadius, p.radius);
    BelowOne(x, n, x * n);
    assert (x * n) * g.maxRadius == p.radius * n;
    var r := RingOf(g, p);
    if x < 1.0 {
      assert r == (x * n).Floor && (r + 1) as real == r as real + 1.0;
      ScaleBetween(r as real, x * n, (r + 1) as real, g.maxRadius);
    } else {
      assert p.radius == g.maxRadius && x == 1.0;
    }
  }

  lemma ScaleBetween(a: real, x: real, b: real, m: real)
    requires a <= x < b && m > 0.0
    ensures a * m <= x * m < b * m
  {
    assert (x - a) * m >= 0.0;
    assert (b - x) * m > 0.0;
  }

  // The matrix is filled point by point.
  method MakeScanContext(g: Grid, points: seq<Polar>) returns (d: Descriptor)
    requires g.Valid() && forall i :: 0 <= i < |points| ==> Angular(points[i])
    ensures d == DescriptorOf(g, points)
  {
    d := seq(g.sectors, s requires 0 <= s < g.sectors => seq(g.rings, r requires 0 <= r < g.rings => 0.0));
    var i := 0;
    while i < |points|
      invariant 0 <= i <= |points| && |d| == g.sectors && Shaped(d, g.rings)
      invariant forall s, r :: 0 <= s < g.sectors && 0 <= r < g.rings ==> d[s][r] == Level(g, points[..i], s, r)
    {
      var p := points[i];
      assert points[..i + 1][..i] == points[..i];
      if !Ignored(g, p) {
        IndicesInRange(g, p);
        var sector, ring := SectorOf(g, p), RingOf(g, p);
        d := d[sector := d[sector][ring := Greatest(d[sector][ring], Height(g, p))]];
      }
      i := i + 1;
    }
    assert points[..i] == points;
    forall s | 0 <= s < g.sectors ensures d[s] == DescriptorOf(g, points)[s] {
      assert d[s] == ColumnOf(g, points, s);
    }
  }

  // ---------------------------------------------------------------- order does not matter

  // The level of a cell is the greatest height of its points above the ground the sensor stands on, or 0.
  ghost predicate IsLevel(g: Grid, points: seq<Polar>, sector: int, ring: int, r: real)
    requires g.Valid()
  {
    && r >= 0.0
    && (forall p :: p in points && FallsInto(g, p, sector, ring) ==> p.z + g.sensorHeight <= r)
    && (r == 0.0 || exists p :: p in points && FallsInto(g, p, sector, ring) && p.z + g.sensorHeight == r)
  }

  lemma {:induction false} LevelIsGreatest(g: Grid, points: seq<Polar>, sector: int, ring: int)
    requires g.Valid()
    ensures IsLevel(g, points, sector, ring, Level(g, points, sector, ring))
  {
    if points != [] {
      LevelIsGreatest(g, points[..|points| - 1], sector, ring);
      assert points == points[..|points| - 1] + [points[|points| - 1]];
    }
  }

  // Clouds with the same points, in whatever order and number, have the same descriptor.
  lemma DescriptorIgnoresOrder(g: Grid, points: seq<Polar>, others: seq<Polar>)
    requires g.Valid() && forall p :: p in points <==> p in others
    ensures DescriptorOf(g, points) == DescriptorOf(g, others)
  {
    forall s | 0 <= s < g.sectors ensures ColumnOf(g, points, s) == ColumnOf(g, others, s) {
      forall r | 0 <= r < g.rings ensures Level(g, points, s, r) == Level(g, others, s, r) {
        LevelIsGreatest(g, points, s, r);
        LevelIsGreatest(g, others, s, r);
      }
    }
  }

  lemma DescriptorIsNonnegative(g: Grid, points: seq<Polar>)
    requires g.Valid()
    ensures NonnegativeColumns(DescriptorOf(g, points))
  {
  }

  // ---------------------------------------------------------------- the ring key

  // The sum of row `ring` over all columns.
  function RowTotal(d: Descriptor, ring: nat): real
    requires forall i :: 0 <= i < |d| ==> ring < |d[i]|
  {
    if d == [] then 0.0 else RowTotal(d[..|d| - 1], ring) + d[|d| - 1][ring]
  }

  function RingKey(d: Descriptor, rings: nat): (r: Vector)
    requires Shaped(d, rings) && d != []
    ensures |r| == rings
  {
    seq(rings, k requires 0 <= k < rings => RowTotal(d, k) / |d| as real)
  }

  lemma {:induction false} RowTotalJoin(a: Descriptor, b: Descriptor, ring: nat)
    requires forall i :: 0 <= i < |a| ==> ring < |a[i]|
    requires forall i :: 0 <= i < |b| ==> ring < |b[i]|
    ensures RowTotal(a + b, ring) == RowTotal(a, ring) + RowTotal(b, ring)
  {
    if b == [] {
      assert a + b == a;
    } else {
      assert (a + b)[..|a + b| - 1] == a + b[..|b| - 1];
      RowTotalJoin(a, b[..|b| - 1], ring);
    }
  }

  // Rotating the sectors does not change the mean of any ring.
  lemma RingKeyIgnoresShift(d: Descriptor, rings: nat, k: nat)
    requires Shaped(d, rings) && k < |d|
    ensures Shaped(Rotated(d, k), rings)
    ensures RingKey(Rotated(d, k), rings) == RingKey(d, rings)
  {
    RotatedShape(d, rings, k);
    forall r | 0 <= r < rings ensures RowTotal(Rotated(d, k), r) == RowTotal(d, r) {
      RowTotalJoin(d[k..], d[..k], r);
      RowTotalJoin(d[..k], d[k..], r);
      assert d[..k] + d[k..] == d;
    }
  }

  // ---------------------------------------------------------------- a turn of the sensor

  // The point seen after a turn by k whole sectors.
  function Turned(g: Grid, p: Polar, k: nat): Polar
    requires g.Valid() && k < g.sectors
  {
    var t := p.turn + k as real / g.sectors as real;
    p.(turn := if t < 1.0 then t else t - 1.0)
  }

  function TurnedAll(g: Grid, points: seq<Polar>, k: nat): (r: seq<Polar>)
    requires g.Valid() && k < g.sectors
    ensures |r| == |points| && forall i :: 0 <= i < |r| ==> r[i] == Turned(g, points[i], k)
  {
    seq(|points|, i requires 0 <= i < |points| => Turned(g, points[i], k))
  }

  lemma BelowOne(u: real, n: real, v: real)
    requires n > 0.0 && u * n == v
    ensures u < 1.0 <==> v < n
  {
    if u < 1.0 {
      assert (1.0 - u) * n > 0.0;
    } else {
      assert (u - 1.0) * n >= 0.0;
    }
  }

  // q is k sectors as a fraction of a full circle.
  lemma TurnTimesSectors(turn: real, n: real, k: real, q: real)
    requires 0.0 <= turn < 1.0 && 0.0 <= k < n && q * n == k
    ensures 0.0 <= turn * n < n && q < 1.0
    ensures (turn + q) * n == turn * n + k && (turn + q - 1.0) * n == turn * n + k - n
    ensures turn + q < 1.0 <==> turn * n + k < n
  {
    BelowOne(turn, n, turn * n);
    BelowOne(q, n, k);
    assert (turn + q) * n == turn * n + q * n;
    BelowOne(turn + q, n, turn * n + k);
  }

  lemma FloorShift(x: real, m: int)
    ensures (x + m as real).Floor == x.Floor + m
  {
  }

  // The position among the sectors, before rounding, moves on by k and wraps.
  lemma PositionTurned(g: Grid, p: Polar, k: nat)
    requires g.Valid() && k < g.sectors && Angular(p)
    ensures Angular(Turned(g, p, k))
    ensures var n, x := g.sectors as real, p.turn * g.sectors as real;
            && 0.0 <= x < n
            && Turned(g, p, k).turn * n == if x + k as real < n then x + k as real else x + k as real - n
  {
    var n := g.sectors as real;
    TurnTimesSectors(p.turn, n, k as real, k as real / n);
    Quotient(k as real, n);
  }

  lemma FloorWrapped(x: real, n: nat, k: nat, y: real)
    requires 0.0 <= x < n as real && k < n
    requires y == if x + k as real < n as real then x + k as real else x + k as real - n as real
    ensures 0 <= x.Floor < n && y.Floor == Wrapped(x.Floor + k, n)
  {
    FloorShift(x, k);
    FloorShift(x, k - n);
    assert x + (k - n) as real == x + k as real - n as real;
  }

  lemma SectorIsFloor(g: Grid, p: Polar)
    requires g.Valid() && Angular(p)
    ensures SectorOf(g, p) == (p.turn * g.sectors as real).Floor
  {
    BelowOne(p.turn, g.sectors as real, p.turn * g.sectors as real);
  }

  lemma SectorTurned(g: Grid, p: Polar, k: nat)
    requires g.Valid() && k < g.sectors && Angular(p)
    ensures Angular(Turned(g, p, k))
    ensures 0 <= SectorOf(g, p) < g.sectors
    ensures SectorOf(g, Turned(g, p, k)) == Wrapped(SectorOf(g, p) + k, g.sectors)
  {
    PositionTurned(g, p, k);
    SectorIsFloor(g, p);
    SectorIsFloor(g, Turned(g, p, k));
    FloorWrapped(p.turn * g.sectors as real, g.sectors, k, Turned(g, p, k).turn * g.sectors as real);
  }

  lemma TurnedFalls(g: Grid, p: Polar, k: nat, s: nat, ring: int)
    requires g.Valid() && k < g.sectors && s < g.sectors && Angular(p)
    ensures FallsInto(g, Turned(g, p, k), Wrapped(s + k, g.sectors), ring) <==> FallsInto(g, p, s, ring)
  {
    SectorTurned(g, p, k);
  }

  lemma {:induction false} LevelTurned(g: Grid, points: seq<Polar>, k: nat, s: nat, ring: int)
    requires g.Valid() && k < g.sectors && s < g.sectors && forall i :: 0 <= i < |points| ==> Angular(points[i])
    ensures Level(g, TurnedAll(g, points, k), Wrapped(s + k, g.sectors), ring) == Level(g, points, s, ring)
  {
    if points != [] {
      var front, p := points[..|points| - 1], points[|points| - 1];
      LevelTurned(g, front, k, s, ring);
      TurnedFalls(g, p, k, s, ring);
      var t := TurnedAll(g, points, k);
      assert t[..|t| - 1] == TurnedAll(g, front, k);
    }
  }

  // A turn by whole sectors rotates the descriptor.
  lemma DescriptorTurned(g: Grid, points: seq<Polar>, k: nat)
    requires g.Valid() && k < g.sectors && forall i :: 0 <= i < |points| ==> Angular(points[i])
    ensures Rotated(DescriptorOf(g, TurnedAll(g, points, k)), k) == DescriptorOf(g, points)
  {
    var d := DescriptorOf(g, TurnedAll(g, points, k));
    forall s | 0 <= s < g.sectors ensures Rotated(d, k)[s] == ColumnOf(g, points, s) {
      RotatedAt(d, k, s);
      forall r | 0 <= r < g.rings ensures Rotated(d, k)[s][r] == Level(g, points, s, r) {
        LevelTurned(g, points, k, s, r);
      }
    }
  }

  // A place seen again after a turn by whole sectors: the ring keys are equal, and the distance is 0 unless
  // the descriptor is empty.
  lemma TurnedPlaceIsRecognised(norm: Norm, g: Grid, points: seq<Polar>, k: nat)
    requires IsNorm(norm) && g.Valid() && k < g.sectors && forall i :: 0 <= i < |points| ==> Angular(points[i])
    ensures var d, t := DescriptorOf(g, points), DescriptorOf(g, TurnedAll(g, points, k));
            && RingKey(t, g.rings) == RingKey(d, g.rings)
            && Distance(norm, t, d, g.rings) == if Dense(norm, t) then 0.0 else 1.0
  {
    DescriptorTurned(g, points, k);
    DescriptorIsNonnegative(g, TurnedAll(g, points, k));
    var t := DescriptorOf(g, TurnedAll(g, points, k));
    RingKeyIgnoresShift(t, g.rings, k);
    SelfDistance(norm, t, g.rings, k);
  }

  // Between the descriptors of any two clouds the distance lies between 0 and 1.
  lemma CloudDistanceRange(norm: Norm, g: Grid, points: seq<Polar>, others: seq<Polar>)
    requires IsNorm(norm) && g.Valid()
    ensures 0.0 <= Distance(norm, DescriptorOf(g, points), DescriptorOf(g, others), g.rings) <= 1.0
  {
    DescriptorIsNonnegative(g, points);
    DescriptorIsNonnegative(g, others);
    DistanceRange(norm, DescriptorOf(g, points), DescriptorOf(g, others), g.rings);
  }
}
