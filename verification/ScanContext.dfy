// Scan Context place descriptors: how a cloud becomes a matrix of heights, and the distance between two
// matrices, the least mean cosine distance over all cyclic shifts of the sectors.
module ScanContext {
  import opened Basics
  import opened Matrices

  // The columns of a descriptor, one per sector; a column holds one height per ring.
  type Descriptor = seq<Vector>

  // The length of a column. The square root behind it is a parameter.
  type Norm = Vector -> real

  const EMPTY_BELOW: real := 0.000001

  ghost predicate IsNorm(norm: Norm) {
    forall v: Vector {:trigger norm(v)} :: norm(v) >= 0.0 && norm(v) * norm(v) == Dot(v, v)
  }

  ghost predicate Shaped(d: Descriptor, rings: nat) {
    forall i :: 0 <= i < |d| ==> |d[i]| == rings
  }

  // Two descriptors that can be compared.
  ghost predicate Alike(q: Descriptor, c: Descriptor, rings: nat) {
    |q| == |c| && Shaped(q, rings) && Shaped(c, rings)
  }

  // ---------------------------------------------------------------- cyclic shifts

  function Rotated<T>(s: seq<T>, k: nat): (r: seq<T>)
    requires k <= |s|
    ensures |r| == |s|
  {
    s[k..] + s[..k]
  }

  // An index that may have run past the end once.
  function Wrapped(x: nat, n: nat): (r: nat)
    requires x < 2 * n
    ensures r < n
  {
    if x < n then x else x - n
  }

  lemma WrappedIsRemainder(x: nat, n: nat)
    requires x < 2 * n
    ensures Wrapped(x, n) == x % n
  {
    var q := x / n;
    assert x == n * q + x % n;
    if q >= 2 {
      AtLeastTwice(n, q);
    }
  }

  lemma AtLeastTwice(n: nat, q: nat)
    requires q >= 2
    ensures n * q >= 2 * n
  {
  }

  lemma RotatedAt<T>(s: seq<T>, k: nat, i: nat)
    requires k <= |s| && i < |s|
    ensures Rotated(s, k)[i] == s[Wrapped(i + k, |s|)]
  {
  }

  lemma RotatedTwice<T>(s: seq<T>, a: nat, b: nat)
    requires a < |s| && b <= |s|
    ensures Rotated(Rotated(s, a), b) == Rotated(s, Wrapped(a + b, |s|))
  {
    var c := Wrapped(a + b, |s|);
    forall i | 0 <= i < |s| ensures Rotated(Rotated(s, a), b)[i] == Rotated(s, c)[i] {
      RotatedAt(Rotated(s, a), b, i);
      RotatedAt(s, a, Wrapped(i + b, |s|));
      RotatedAt(s, c, i);
    }
  }

  // ---------------------------------------------------------------- the distance

  // The cosine of two columns; nothing if one of them is (nearly) empty.
  function Cosine(norm: Norm, a: Vector, b: Vector): Option<real>
    requires |a| == |b|
  {
    var d := norm(a) * norm(b);
    if d < EMPTY_BELOW then None else Some(Dot(a, b) / d)
  }

  function Cosines(norm: Norm, q: Descriptor, c: Descriptor): (r: seq<Option<real>>)
    requires |q| == |c| && forall i :: 0 <= i < |q| ==> |q[i]| == |c[i]|
    ensures |r| == |q| && forall i :: 0 <= i < |q| ==> r[i] == Cosine(norm, q[i], c[i])
  {
    seq(|q|, i requires 0 <= i < |q| => Cosine(norm, q[i], c[i]))
  }

  function Total(ts: seq<Option<real>>): real {
    if ts == [] then 0.0
    else Total(ts[..|ts| - 1]) + if ts[|ts| - 1].Some? then ts[|ts| - 1].value else 0.0
  }

  function Count(ts: seq<Option<real>>): nat {
    if ts == [] then 0 else Count(ts[..|ts| - 1]) + if ts[|ts| - 1].Some? then 1 else 0
  }

  // One minus the mean of the cosines there are.
  function Spread(ts: seq<Option<real>>): Option<real> {
    if Count(ts) == 0 then None else Some(1.0 - Total(ts) / Count(ts) as real)
  }

  function ShiftDistance(norm: Norm, q: Descriptor, c: Descriptor, rings: nat, shift: nat): Option<real>
    requires Alike(q, c, rings) && shift <= |q|
  {
    RotatedShape(c, rings, shift);
    Spread(Cosines(norm, q, Rotated(c, shift)))
  }

  lemma RotatedShape(d: Descriptor, rings: nat, k: nat)
    requires Shaped(d, rings) && k <= |d|
    ensures Shaped(Rotated(d, k), rings)
  {
  }

  // How far the cosines there are lie above m, all together.
  function CosineExcess(ts: seq<Option<real>>, m: real): real {
    if ts == [] then 0.0 else (if ts[0].Some? then ts[0].value - m else 0.0) + CosineExcess(ts[1..], m)
  }

  lemma {:induction false} CosineExcessIs(ts: seq<Option<real>>, m: real)
    ensures CosineExcess(ts, m) == Beyond(Total(ts), Count(ts) as real, m)
    decreases |ts|
  {
    if ts != [] {
      CosineExcessIs(ts[1..], m);
      assert ts == [ts[0]] + ts[1..];
      TotalJoin([ts[0]], ts[1..]);
      assert Total([ts[0]]) == Total([ts[0]][..0]) + (if ts[0].Some? then ts[0].value else 0.0);
      assert Count([ts[0]]) == Count([ts[0]][..0]) + (if ts[0].Some? then 1 else 0);
      if ts[0].Some? {
        BeyondOneMore(Total(ts[1..]), Count(ts[1..]) as real, ts[0].value, m);
      }
    }
  }

  // A shift has a distance d exactly when some two columns that meet are not empty, and 1 - d is then the mean of the
  // cosines of those that are not: they lie above and below it by as much.
  lemma ShiftDistanceIsMean(norm: Norm, q: Descriptor, c: Descriptor, rings: nat, shift: nat)
    requires Alike(q, c, rings) && shift < |q|
    ensures Shaped(Rotated(c, shift), rings)
    ensures var ts, d := Cosines(norm, q, Rotated(c, shift)), ShiftDistance(norm, q, c, rings, shift);
            && (d.Some? <==> exists i :: 0 <= i < |q| && ts[i].Some?)
            && (d.Some? ==> CosineExcess(ts, 1.0 - d.value) == 0.0)
  {
    RotatedShape(c, rings, shift);
    var ts, d := Cosines(norm, q, Rotated(c, shift)), ShiftDistance(norm, q, c, rings, shift);
    SomeIsCounted(ts);
    if d.Some? {
      CosineExcessIs(ts, 1.0 - d.value);
      BeyondTheMean(Total(ts), Count(ts) as real, 1.0 - d.value);
    }
  }

  lemma {:induction false} SomeIsCounted(ts: seq<Option<real>>)
    ensures Count(ts) > 0 <==> exists i :: 0 <= i < |ts| && ts[i].Some?
  {
    if ts != [] {
      var front := ts[..|ts| - 1];
      SomeIsCounted(front);
      if j :| 0 <= j < |front| && front[j].Some? {
        assert ts[j].Some?;
      }
    }
  }

  // The cosine of two columns, if neither is nearly empty.
  lemma CosineIs(norm: Norm, a: Vector, b: Vector)
    requires |a| == |b|
    ensures Cosine(norm, a, b).Some? <==> norm(a) * norm(b) >= 0.000001
    ensures Cosine(norm, a, b).Some? ==> norm(a) * norm(b) * Cosine(norm, a, b).value == Dot(a, b)
  {
    if norm(a) * norm(b) >= EMPTY_BELOW {
      TimesQuotient(norm(a) * norm(b), Dot(a, b));
    }
  }

  // The least distance over the first n shifts, and never more than 1.
  function BestOf(norm: Norm, q: Descriptor, c: Descriptor, rings: nat, n: nat): real
    requires Alike(q, c, rings) && n <= |q|
  {
    if n == 0 then 1.0
    else
      Lesser(BestOf(norm, q, c, rings, n - 1), ShiftDistance(norm, q, c, rings, n - 1))
  }

  function Lesser(best: real, d: Option<real>): real {
    if d.Some? && d.value < best then d.value else best
  }

  function Distance(norm: Norm, q: Descriptor, c: Descriptor, rings: nat): real
    requires Alike(q, c, rings)
  {
    BestOf(norm, q, c, rings, |q|)
  }

  function ShiftedColumn(c: Descriptor, sector: nat, shift: nat): (r: Vector)
    requires sector < |c| && shift < |c|
    ensures r == c[Wrapped(sector + shift, |c|)]
  {
    WrappedIsRemainder(sector + shift, |c|);
    c[(sector + shift) % |c|]
  }

  // The double loop: running sums over the sectors inside a running minimum over the shifts.
  method ScanContextDistance(norm: Norm, q: Descriptor, c: Descriptor, rings: nat) returns (best: real)
    requires Alike(q, c, rings)
    ensures best == Distance(norm, q, c, rings)
  {
    best := 1.0;
    var shift := 0;
    while shift < |q|
      invariant 0 <= shift <= |q| && best == BestOf(norm, q, c, rings, shift)
    {
      var d := MeanDistance(norm, q, c, rings, shift);
      best := Lesser(best, d);
      shift := shift + 1;
    }
  }

  method MeanDistance(norm: Norm, q: Descriptor, c: Descriptor, rings: nat, shift: nat) returns (d: Option<real>)
    requires Alike(q, c, rings) && shift < |q|
    ensures d == ShiftDistance(norm, q, c, rings, shift)
  {
    var sum, valid := SumCosines(norm, q, c, rings, shift);
    d := if valid == 0 then None else Some(1.0 - sum / valid as real);
  }

  // What one more sector adds to the sums.
  lemma SumsGrow(norm: Norm, q: Descriptor, c: Descriptor, rings: nat, shift: nat, sector: nat)
    requires Alike(q, c, rings) && shift < |q| && sector < |q|
    ensures Shaped(Rotated(c, shift), rings)
    ensures var ts, t := Cosines(norm, q, Rotated(c, shift)), Cosine(norm, q[sector], ShiftedColumn(c, sector, shift));
            && Total(ts[..sector + 1]) == Total(ts[..sector]) + (if t.Some? then t.value else 0.0)
            && Count(ts[..sector + 1]) == Count(ts[..sector]) + (if t.Some? then 1 else 0)
  {
    CosineAt(norm, q, c, rings, shift, sector);
    OneMoreCosine(Cosines(norm, q, Rotated(c, shift)), sector);
  }

  lemma CosineAt(norm: Norm, q: Descriptor, c: Descriptor, rings: nat, shift: nat, sector: nat)
    requires Alike(q, c, rings) && shift < |q| && sector < |q|
    ensures Shaped(Rotated(c, shift), rings)
    ensures Cosines(norm, q, Rotated(c, shift))[sector] == Cosine(norm, q[sector], ShiftedColumn(c, sector, shift))
  {
    RotatedShape(c, rings, shift);
    RotatedAt(c, shift, sector);
  }

  lemma OneMoreCosine(ts: seq<Option<real>>, k: nat)
    requires k < |ts|
    ensures Total(ts[..k + 1]) == Total(ts[..k]) + if ts[k].Some? then ts[k].value else 0.0
    ensures Count(ts[..k + 1]) == Count(ts[..k]) + if ts[k].Some? then 1 else 0
  {
    assert ts[..k + 1][..k] == ts[..k];
  }

  // Two columns, one of which may be empty.
  method CosineOf(norm: Norm, a: Vector, b: Vector) returns (cosine: Option<real>)
    requires |a| == |b|
    ensures cosine == Cosine(norm, a, b)
  {
    var denominator := norm(a) * norm(b);
    if denominator < EMPTY_BELOW {
      return None;
    }
    cosine := Some(Dot(a, b) / denominator);
  }

  method SumCosines(norm: Norm, q: Descriptor, c: Descriptor, rings: nat, shift: nat) returns (sum: real, valid: nat)
    requires Alike(q, c, rings) && shift < |q|
    ensures Shaped(Rotated(c, shift), rings)
    ensures sum == Total(Cosines(norm, q, Rotated(c, shift))) && valid == Count(Cosines(norm, q, Rotated(c, shift)))
  {
    RotatedShape(c, rings, shift);
    sum, valid := 0.0, 0;
    ghost var ts := Cosines(norm, q, Rotated(c, shift));
    var sector := 0;
    while sector < |q|
      invariant 0 <= sector <= |q| && sum == Total(ts[..sector]) && valid == Count(ts[..sector])
    {
      SumsGrow(norm, q, c, rings, shift, sector);
      var cosine := CosineOf(norm, q[sector], ShiftedColumn(c, sector, shift));
      if cosine.Some? {
        sum, valid := sum + cosine.value, valid + 1;
      }
      sector := sector + 1;
    }
    assert ts[..sector] == ts;
  }

  // ---------------------------------------------------------------- the least distance

  // b is at most 1 and at most the distance at each of the first n shifts, and it is one of these.
  ghost predicate IsLeastOf(norm: Norm, q: Descriptor, c: Descriptor, rings: nat, n: nat, b: real)
    requires Alike(q, c, rings) && n <= |q|
  {
    && b <= 1.0
    && (forall s :: 0 <= s < n ==> NoCloser(b, ShiftDistance(norm, q, c, rings, s)))
    && (b == 1.0 || exists s :: 0 <= s < n && ShiftDistance(norm, q, c, rings, s) == Some(b))
  }

  predicate NoCloser(b: real, d: Option<real>) {
    d.Some? ==> b <= d.value
  }

  lemma OneMoreShift(norm: Norm, q: Descriptor, c: Descriptor, rings: nat, n: nat, b: real)
    requires Alike(q, c, rings) && n < |q| && IsLeastOf(norm, q, c, rings, n, b)
    ensures IsLeastOf(norm, q, c, rings, n + 1, Lesser(b, ShiftDistance(norm, q, c, rings, n)))
  {
    var d := ShiftDistance(norm, q, c, rings, n);
    if Lesser(b, d) == b && b != 1.0 {
      var s :| 0 <= s < n && ShiftDistance(norm, q, c, rings, s) == Some(b);
      assert 0 <= s < n + 1;
    }
  }

  lemma {:induction false} BestIsLeast(norm: Norm, q: Descriptor, c: Descriptor, rings: nat, n: nat)
    requires Alike(q, c, rings) && n <= |q|
    ensures IsLeastOf(norm, q, c, rings, n, BestOf(norm, q, c, rings, n))
  {
    if n > 0 {
      BestIsLeast(norm, q, c, rings, n - 1);
      OneMoreShift(norm, q, c, rings, n - 1, BestOf(norm, q, c, rings, n - 1));
    }
  }

  // Every shift of one pair has its equal among the shifts of the other.
  ghost predicate Covered(norm: Norm, q: Descriptor, c: Descriptor, q': Descriptor, c': Descriptor, rings: nat)
    requires Alike(q, c, rings) && Alike(q', c', rings) && |q| == |q'|
  {
    forall s :: 0 <= s < |q| ==> Occurs(norm, q', c', rings, ShiftDistance(norm, q, c, rings, s))
  }

  // Some shift has this distance.
  ghost predicate Occurs(norm: Norm, q: Descriptor, c: Descriptor, rings: nat, d: Option<real>)
    requires Alike(q, c, rings)
  {
    exists t :: 0 <= t < |q| && ShiftDistance(norm, q, c, rings, t) == d
  }

  lemma DistanceAtMost(norm: Norm, q: Descriptor, c: Descriptor, rings: nat, d: real)
    requires Alike(q, c, rings) && Occurs(norm, q, c, rings, Some(d))
    ensures Distance(norm, q, c, rings) <= d
  {
    BestIsLeast(norm, q, c, rings, |q|);
  }

  lemma CoveredIsNoCloser(norm: Norm, q: Descriptor, c: Descriptor, q': Descriptor, c': Descriptor, rings: nat)
    requires Alike(q, c, rings) && Alike(q', c', rings) && |q| == |q'| && Covered(norm, q, c, q', c', rings)
    ensures Distance(norm, q', c', rings) <= Distance(norm, q, c, rings)
  {
    BestIsLeast(norm, q, c, rings, |q|);
    var b := Distance(norm, q, c, rings);
    if b == 1.0 {
      BestIsLeast(norm, q', c', rings, |q|);
    } else {
      var s :| 0 <= s < |q| && ShiftDistance(norm, q, c, rings, s) == Some(b);
      assert Occurs(norm, q', c', rings, ShiftDistance(norm, q, c, rings, s));
      DistanceAtMost(norm, q', c', rings, b);
    }
  }

  // ---------------------------------------------------------------- shifts do not matter

  lemma {:induction false} TotalJoin(a: seq<Option<real>>, b: seq<Option<real>>)
    ensures Total(a + b) == Total(a) + Total(b) && Count(a + b) == Count(a) + Count(b)
  {
    if b == [] {
      assert a + b == a;
    } else {
      assert (a + b)[..|a + b| - 1] == a + b[..|b| - 1];
      TotalJoin(a, b[..|b| - 1]);
    }
  }

  lemma SpreadOfRotated(ts: seq<Option<real>>, k: nat)
    requires k <= |ts|
    ensures Spread(Rotated(ts, k)) == Spread(ts)
  {
    TotalJoin(ts[k..], ts[..k]);
    TotalJoin(ts[..k], ts[k..]);
    assert ts[..k] + ts[k..] == ts;
  }

  // Shifting both descriptors by the same amount does not change the distance at one shift.
  lemma BothRotated(norm: Norm, q: Descriptor, c: Descriptor, rings: nat, k: nat)
    requires Alike(q, c, rings) && k <= |q|
    ensures Alike(Rotated(q, k), Rotated(c, k), rings)
    ensures Spread(Cosines(norm, Rotated(q, k), Rotated(c, k))) == Spread(Cosines(norm, q, c))
  {
    RotatedShape(q, rings, k);
    RotatedShape(c, rings, k);
    assert Cosines(norm, Rotated(q, k), Rotated(c, k)) == Rotated(Cosines(norm, q, c), k);
    SpreadOfRotated(Cosines(norm, q, c), k);
  }

  lemma ShiftOfRotatedCandidate(norm: Norm, q: Descriptor, c: Descriptor, rings: nat, k: nat, s: nat)
    requires Alike(q, c, rings) && k < |q| && s < |q|
    ensures Alike(q, Rotated(c, k), rings)
    ensures ShiftDistance(norm, q, Rotated(c, k), rings, s) == ShiftDistance(norm, q, c, rings, Wrapped(k + s, |q|))
  {
    RotatedShape(c, rings, k);
    RotatedTwice(c, k, s);
  }

  lemma RotatedShiftsOccur(norm: Norm, q: Descriptor, c: Descriptor, rings: nat, k: nat, s: nat)
    requires Alike(q, c, rings) && k < |q| && s < |q|
    ensures Alike(q, Rotated(c, k), rings)
    ensures Occurs(norm, q, c, rings, ShiftDistance(norm, q, Rotated(c, k), rings, s))
    ensures Occurs(norm, q, Rotated(c, k), rings, ShiftDistance(norm, q, c, rings, s))
  {
    ShiftOfRotatedCandidate(norm, q, c, rings, k, s);
    var t := Wrapped(s + |q| - k, |q|);
    assert Wrapped(k + t, |q|) == s;
    ShiftOfRotatedCandidate(norm, q, c, rings, k, t);
  }

  lemma RotatedIsNoCloser(norm: Norm, q: Descriptor, c: Descriptor, rings: nat, k: nat)
    requires Alike(q, c, rings) && k < |q|
    ensures Alike(q, Rotated(c, k), rings)
    ensures Distance(norm, q, Rotated(c, k), rings) <= Distance(norm, q, c, rings)
  {
    RotatedShape(c, rings, k);
    forall s | 0 <= s < |q| ensures Occurs(norm, q, Rotated(c, k), rings, ShiftDistance(norm, q, c, rings, s)) {
      RotatedShiftsOccur(norm, q, c, rings, k, s);
    }
    CoveredIsNoCloser(norm, q, c, q, Rotated(c, k), rings);
  }

  lemma RotatedIsNoFarther(norm: Norm, q: Descriptor, c: Descriptor, rings: nat, k: nat)
    requires Alike(q, c, rings) && k < |q|
    ensures Alike(q, Rotated(c, k), rings)
    ensures Distance(norm, q, c, rings) <= Distance(norm, q, Rotated(c, k), rings)
  {
    RotatedShape(c, rings, k);
    forall s | 0 <= s < |q| ensures Occurs(norm, q, c, rings, ShiftDistance(norm, q, Rotated(c, k), rings, s)) {
      RotatedShiftsOccur(norm, q, c, rings, k, s);
    }
    CoveredIsNoCloser(norm, q, Rotated(c, k), q, c, rings);
  }

  // Rotating the candidate by whole sectors leaves the distance as it was.
  lemma CandidateShiftInvariant(norm: Norm, q: Descriptor, c: Descriptor, rings: nat, k: nat)
    requires Alike(q, c, rings) && k < |q|
    ensures Alike(q, Rotated(c, k), rings)
    ensures Distance(norm, q, Rotated(c, k), rings) == Distance(norm, q, c, rings)
  {
    RotatedIsNoCloser(norm, q, c, rings, k);
    RotatedIsNoFarther(norm, q, c, rings, k);
  }

  lemma CosineCommutes(norm: Norm, a: Vector, b: Vector)
    requires |a| == |b|
    ensures Cosine(norm, a, b) == Cosine(norm, b, a)
  {
    DotCommutes(a, b);
    assert norm(a) * norm(b) == norm(b) * norm(a);
  }

  lemma CosinesCommute(norm: Norm, q: Descriptor, c: Descriptor, rings: nat)
    requires Alike(q, c, rings)
    ensures Cosines(norm, q, c) == Cosines(norm, c, q)
  {
    forall i | 0 <= i < |q| ensures Cosine(norm, q[i], c[i]) == Cosine(norm, c[i], q[i]) {
      CosineCommutes(norm, q[i], c[i]);
    }
  }

  lemma ShiftOfSwapped(norm: Norm, q: Descriptor, c: Descriptor, rings: nat, s: nat)
    requires Alike(q, c, rings) && s < |q|
    ensures ShiftDistance(norm, q, c, rings, s) == ShiftDistance(norm, c, q, rings, Wrapped(|q| - s, |q|))
  {
    var n := |q|;
    RotatedShape(c, rings, s);
    RotatedBack(c, s);
    RotatedAll(q, n - s);
    var c' := Rotated(c, s);
    BothRotated(norm, q, c', rings, n - s);
    RotatedShape(q, rings, n - s);
    CosinesCommute(norm, Rotated(q, n - s), c, rings);
  }

  lemma RotatedBack<T>(s: seq<T>, k: nat)
    requires k < |s|
    ensures Rotated(Rotated(s, k), |s| - k) == s
  {
  }

  lemma RotatedAll<T>(s: seq<T>, k: nat)
    requires 0 < k <= |s|
    ensures Rotated(s, k) == Rotated(s, Wrapped(k, |s|))
  {
  }

  // The distance is symmetric.
  lemma DistanceIsSymmetric(norm: Norm, q: Descriptor, c: Descriptor, rings: nat)
    requires Alike(q, c, rings)
    ensures Distance(norm, q, c, rings) == Distance(norm, c, q, rings)
  {
    forall s | 0 <= s < |q|
      ensures Occurs(norm, c, q, rings, ShiftDistance(norm, q, c, rings, s))
      ensures Occurs(norm, q, c, rings, ShiftDistance(norm, c, q, rings, s))
    {
      ShiftOfSwapped(norm, q, c, rings, s);
      ShiftOfSwapped(norm, c, q, rings, s);
    }
    CoveredIsNoCloser(norm, q, c, c, q, rings);
    CoveredIsNoCloser(norm, c, q, q, c, rings);
  }

  // Rotating either descriptor, or both by different amounts, leaves the distance as it was.
  lemma DistanceIgnoresShifts(norm: Norm, q: Descriptor, c: Descriptor, rings: nat, j: nat, k: nat)
    requires Alike(q, c, rings) && j < |q| && k < |q|
    ensures Alike(Rotated(q, j), Rotated(c, k), rings)
    ensures Distance(norm, Rotated(q, j), Rotated(c, k), rings) == Distance(norm, q, c, rings)
  {
    RotatedShape(q, rings, j);
    RotatedShape(c, rings, k);
    CandidateShiftInvariant(norm, q, c, rings, k);
    DistanceIsSymmetric(norm, q, Rotated(c, k), rings);
    CandidateShiftInvariant(norm, Rotated(c, k), q, rings, j);
    DistanceIsSymmetric(norm, Rotated(c, k), Rotated(q, j), rings);
  }

  // ---------------------------------------------------------------- range

  lemma {:induction false} SelfDotIsNonnegative(a: Vector)
    ensures Dot(a, a) >= 0.0
  {
    if a != [] {
      SelfDotIsNonnegative(a[..|a| - 1]);
      var x := a[|a| - 1];
      assert x * x >= 0.0;
    }
  }

  function Mixed(na: real, nb: real, s: real, t: real): real {
    nb * s - na * t
  }

  // The vector nb a - na b.
  function MixedVector(na: real, nb: real, a: Vector, b: Vector): (w: Vector)
    requires |a| == |b|
    ensures |w| == |a|
  {
    Minus(Times(nb, a), Times(na, b))
  }

  lemma DotMinusRight(c: Vector, u: Vector, v: Vector)
    requires |c| == |u| == |v|
    ensures Dot(c, Minus(u, v)) == Dot(c, u) - Dot(c, v)
  {
    DotCommutes(c, Minus(u, v));
    DotMinus(u, v, c);
    DotCommutes(u, c);
    DotCommutes(v, c);
  }

  lemma {:induction false} DotTimesRight(c: Vector, s: real, a: Vector)
    requires |c| == |a|
    ensures Dot(c, Times(s, a)) == s * Dot(c, a)
    decreases |a|
  {
    if a != [] {
      var n := |a| - 1;
      assert Times(s, a)[..n] == Times(s, a[..n]) by {
        forall k | 0 <= k < n ensures Times(s, a)[..n][k] == Times(s, a[..n])[k] {
          assert a[..n][k] == a[k];
        }
      }
      DotTimesRight(c[..n], s, a[..n]);
      DistributeRight(s, Dot(c[..n], a[..n]), c[n], a[n]);
    }
  }

  lemma DistributeRight(s: real, d: real, x: real, y: real)
    ensures s * (d + x * y) == s * d + x * (s * y)
  {
  }

  lemma MixedDot(na: real, nb: real, a: Vector, b: Vector, c: Vector)
    requires |a| == |b| == |c|
    ensures Dot(c, MixedVector(na, nb, a, b)) == Mixed(na, nb, Dot(c, a), Dot(c, b))
  {
    DotMinusRight(c, Times(nb, a), Times(na, b));
    DotTimesRight(c, nb, a);
    DotTimesRight(c, na, b);
  }

  // The square of nb a - na b, in terms of the three products.
  function Squared(na: real, nb: real, aa: real, bb: real, ab: real): real {
    Mixed(na, nb, Mixed(na, nb, aa, ab), Mixed(na, nb, ab, bb))
  }

  lemma SquaredBound(na: real, nb: real, ab: real)
    requires na * nb > 0.0 && Squared(na, nb, na * na, nb * nb, ab) >= 0.0
    ensures ab <= na * nb
  {
    var p := na * nb;
    assert nb * (nb * (na * na) - na * ab) == p * p - p * ab;
    assert na * (nb * ab - na * (nb * nb)) == p * ab - p * p;
    FactorSign(p, p - ab);
  }

  lemma FactorSign(p: real, t: real)
    requires p > 0.0 && 2.0 * (p * t) >= 0.0
    ensures t >= 0.0
  {
  }

  lemma SquaredIsNonnegative(a: Vector, b: Vector, na: real, nb: real)
    requires |a| == |b|
    ensures Squared(na, nb, Dot(a, a), Dot(b, b), Dot(a, b)) >= 0.0
  {
    var w := MixedVector(na, nb, a, b);
    SelfDotIsNonnegative(w);
    MixedDot(na, nb, a, b, w);
    MixedDot(na, nb, a, b, a);
    MixedDot(na, nb, a, b, b);
    DotCommutes(w, a);
    DotCommutes(w, b);
    DotCommutes(b, a);
  }

  lemma CauchySchwarz(norm: Norm, a: Vector, b: Vector)
    requires IsNorm(norm) && |a| == |b| && norm(a) * norm(b) > 0.0
    ensures Dot(a, b) <= norm(a) * norm(b)
  {
    SquaredIsNonnegative(a, b, norm(a), norm(b));
    SquaredBound(norm(a), norm(b), Dot(a, b));
  }

  ghost predicate NonnegativeVector(a: Vector) {
    forall i :: 0 <= i < |a| ==> a[i] >= 0.0
  }

  ghost predicate NonnegativeColumns(d: Descriptor) {
    forall i :: 0 <= i < |d| ==> NonnegativeVector(d[i])
  }

  lemma {:induction false} NonnegativeDot(a: Vector, b: Vector)
    requires |a| == |b| && NonnegativeVector(a) && NonnegativeVector(b)
    ensures Dot(a, b) >= 0.0
  {
    if a != [] {
      NonnegativeDot(a[..|a| - 1], b[..|b| - 1]);
      assert a[|a| - 1] * b[|b| - 1] >= 0.0;
    }
  }

  lemma UnitQuotient(x: real, d: real)
    requires 0.0 <= x <= d && d > 0.0
    ensures 0.0 <= x / d <= 1.0
  {
    assert (x / d) * d == x;
  }

  ghost predicate UnitRange(ts: seq<Option<real>>) {
    forall i :: 0 <= i < |ts| && ts[i].Some? ==> 0.0 <= ts[i].value <= 1.0
  }

  lemma CosineRange(norm: Norm, a: Vector, b: Vector)
    requires IsNorm(norm) && |a| == |b| && NonnegativeVector(a) && NonnegativeVector(b)
    ensures Cosine(norm, a, b).Some? ==> 0.0 <= Cosine(norm, a, b).value <= 1.0
  {
    if Cosine(norm, a, b).Some? {
      NonnegativeDot(a, b);
      CauchySchwarz(norm, a, b);
      UnitQuotient(Dot(a, b), norm(a) * norm(b));
    }
  }

  lemma {:induction false} TotalRange(ts: seq<Option<real>>)
    requires UnitRange(ts)
    ensures 0.0 <= Total(ts) <= Count(ts) as real
  {
    if ts != [] {
      TotalRange(ts[..|ts| - 1]);
    }
  }

  lemma SpreadRange(ts: seq<Option<real>>)
    requires UnitRange(ts)
    ensures Spread(ts).Some? ==> 0.0 <= Spread(ts).value <= 1.0
  {
    TotalRange(ts);
    if Count(ts) > 0 {
      UnitQuotient(Total(ts), Count(ts) as real);
    }
  }

  // Between nonnegative descriptors the distance lies between 0 and 1.
  lemma DistanceRange(norm: Norm, q: Descriptor, c: Descriptor, rings: nat)
    requires IsNorm(norm) && Alike(q, c, rings) && NonnegativeColumns(q) && NonnegativeColumns(c)
    ensures 0.0 <= Distance(norm, q, c, rings) <= 1.0
  {
    BestIsLeast(norm, q, c, rings, |q|);
    forall s | 0 <= s < |q| && ShiftDistance(norm, q, c, rings, s).Some?
      ensures ShiftDistance(norm, q, c, rings, s).value >= 0.0
    {
      RotatedShape(c, rings, s);
      var c' := Rotated(c, s);
      assert NonnegativeColumns(c');
      CosinesRange(norm, q, c', rings);
      SpreadRange(Cosines(norm, q, c'));
    }
  }

  lemma CosinesRange(norm: Norm, q: Descriptor, c: Descriptor, rings: nat)
    requires IsNorm(norm) && Alike(q, c, rings) && NonnegativeColumns(q) && NonnegativeColumns(c)
    ensures UnitRange(Cosines(norm, q, c))
  {
    forall i | 0 <= i < |q| ensures Cosine(norm, q[i], c[i]).Some? ==> 0.0 <= Cosine(norm, q[i], c[i]).value <= 1.0 {
      CosineRange(norm, q[i], c[i]);
    }
  }

  // ---------------------------------------------------------------- a place and itself

  // Some column is long enough to be compared.
  ghost predicate Dense(norm: Norm, d: Descriptor) {
    exists i :: 0 <= i < |d| && norm(d[i]) * norm(d[i]) >= EMPTY_BELOW
  }

  lemma {:induction false} AllOnes(ts: seq<Option<real>>)
    requires forall i :: 0 <= i < |ts| && ts[i].Some? ==> ts[i].value == 1.0
    ensures Total(ts) == Count(ts) as real
    ensures Count(ts) > 0 <==> exists i :: 0 <= i < |ts| && ts[i].Some?
  {
    if ts != [] {
      var front := ts[..|ts| - 1];
      AllOnes(front);
      if i :| 0 <= i < |ts| && ts[i].Some? {
        assert i < |front| ==> front[i].Some?;
      }
      if j :| 0 <= j < |front| && front[j].Some? {
        assert ts[j].Some?;
      }
    }
  }

  lemma SelfCosine(norm: Norm, a: Vector)
    requires IsNorm(norm)
    ensures Cosine(norm, a, a) == if norm(a) * norm(a) < EMPTY_BELOW then None else Some(1.0)
  {
    assert norm(a) * norm(a) == Dot(a, a);
    if norm(a) * norm(a) >= EMPTY_BELOW {
      OverItself(Dot(a, a));
    }
  }

  lemma OverItself(x: real)
    requires x > 0.0
    ensures x / x == 1.0
  {
  }

  lemma ShortTimesShort(x: real, y: real, e: real)
    requires x >= 0.0 && y >= 0.0 && x * x < e && y * y < e
    ensures x * y < e
  {
    if x <= y {
      assert x * y <= y * y;
    } else {
      assert x * y <= x * x;
    }
  }

  lemma UnshiftedSelf(norm: Norm, d: Descriptor, rings: nat)
    requires IsNorm(norm) && Shaped(d, rings) && Dense(norm, d)
    ensures ShiftDistance(norm, d, d, rings, 0) == Some(0.0)
  {
    assert Rotated(d, 0) == d;
    var ts := Cosines(norm, d, d);
    forall i | 0 <= i < |d|
      ensures ts[i] == if norm(d[i]) * norm(d[i]) < EMPTY_BELOW then None else Some(1.0)
    {
      SelfCosine(norm, d[i]);
    }
    var i :| 0 <= i < |d| && norm(d[i]) * norm(d[i]) >= EMPTY_BELOW;
    assert ts[i].Some?;
    AllOnes(ts);
    OverItself(Count(ts) as real);
  }

  lemma SparseCosines(norm: Norm, d: Descriptor, c: Descriptor, rings: nat)
    requires IsNorm(norm) && Alike(d, c, rings) && !Dense(norm, d) && !Dense(norm, c)
    ensures Spread(Cosines(norm, d, c)) == None
  {
    var ts := Cosines(norm, d, c);
    forall i | 0 <= i < |d| ensures ts[i] == None {
      ShortTimesShort(norm(d[i]), norm(c[i]), EMPTY_BELOW);
    }
    AllOnes(ts);
  }

  lemma RotatedDensity(norm: Norm, d: Descriptor, k: nat)
    requires k <= |d| && Dense(norm, Rotated(d, k))
    ensures Dense(norm, d)
  {
    var r := Rotated(d, k);
    var i :| 0 <= i < |r| && norm(r[i]) * norm(r[i]) >= EMPTY_BELOW;
    RotatedAt(d, k, i);
  }

  lemma SparseIsFar(norm: Norm, d: Descriptor, rings: nat)
    requires IsNorm(norm) && Shaped(d, rings) && !Dense(norm, d)
    ensures Distance(norm, d, d, rings) == 1.0
  {
    BestIsLeast(norm, d, d, rings, |d|);
    forall s | 0 <= s < |d| ensures ShiftDistance(norm, d, d, rings, s) == None {
      RotatedShape(d, rings, s);
      if Dense(norm, Rotated(d, s)) {
        RotatedDensity(norm, d, s);
      }
      SparseCosines(norm, d, Rotated(d, s), rings);
    }
  }

  // A nonnegative descriptor is at distance 0 from every rotation of itself if some column is not empty, and
  // at distance 1 otherwise.
  lemma SelfDistance(norm: Norm, d: Descriptor, rings: nat, k: nat)
    requires IsNorm(norm) && Shaped(d, rings) && NonnegativeColumns(d) && k < |d|
    ensures Alike(d, Rotated(d, k), rings)
    ensures Distance(norm, d, Rotated(d, k), rings) == if Dense(norm, d) then 0.0 else 1.0
  {
    CandidateShiftInvariant(norm, d, d, rings, k);
    if Dense(norm, d) {
      UnshiftedSelf(norm, d, rings);
      BestIsLeast(norm, d, d, rings, |d|);
      DistanceRange(norm, d, d, rings);
    } else {
      SparseIsFar(norm, d, rings);
    }
  }
}
