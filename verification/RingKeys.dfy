// What a ring key is: the mean of each ring over the sectors.
module RingKeys {
  import opened Basics
  import opened ScanContext
  import opened ScanCloud

  // How far the entries of a ring lie above m, all together.
  function Excess(d: Descriptor, ring: nat, m: real): real
    requires forall i :: 0 <= i < |d| ==> ring < |d[i]|
  {
    if d == [] then 0.0 else (d[0][ring] - m) + Excess(d[1..], ring, m)
  }

  lemma {:induction false} ExcessIs(d: Descriptor, ring: nat, m: real)
    requires forall i :: 0 <= i < |d| ==> ring < |d[i]|
    ensures Excess(d, ring, m) == Beyond(RowTotal(d, ring), |d| as real, m)
  {
    if d != [] {
      ExcessIs(d[1..], ring, m);
      assert d == [d[0]] + d[1..];
      RowTotalJoin([d[0]], d[1..], ring);
      assert RowTotal([d[0]], ring) == RowTotal([d[0]][..0], ring) + d[0][ring];
      BeyondOneMore(RowTotal(d[1..], ring), |d[1..]| as real, d[0][ring], m);
    }
  }

  // The entries of every ring lie above and below its key by as much.
  lemma DeviationsCancel(d: Descriptor, rings: nat, k: nat)
    requires Shaped(d, rings) && d != [] && k < rings
    ensures Excess(d, k, RingKey(d, rings)[k]) == 0.0
  {
    ExcessIs(d, k, RingKey(d, rings)[k]);
    BeyondTheMean(RowTotal(d, k), |d| as real, 0.0);
  }

  lemma {:induction false} ExcessSign(d: Descriptor, ring: nat, m: real)
    requires forall i :: 0 <= i < |d| ==> ring < |d[i]|
    ensures (forall i :: 0 <= i < |d| ==> d[i][ring] >= m) ==> Excess(d, ring, m) >= 0.0
    ensures (forall i :: 0 <= i < |d| ==> d[i][ring] <= m) ==> Excess(d, ring, m) <= 0.0
  {
    if d != [] {
      ExcessSign(d[1..], ring, m);
    }
  }

  // Each key lies between the least and the greatest entry of its ring.
  lemma KeyIsBetween(d: Descriptor, rings: nat, k: nat, low: real, high: real)
    requires Shaped(d, rings) && d != [] && k < rings && forall i :: 0 <= i < |d| ==> low <= d[i][k] <= high
    ensures low <= RingKey(d, rings)[k] <= high
  {
    ExcessSign(d, k, low);
    ExcessSign(d, k, high);
    ExcessIs(d, k, low);
    ExcessIs(d, k, high);
    BeyondTheMean(RowTotal(d, k), |d| as real, low);
    BeyondTheMean(RowTotal(d, k), |d| as real, high);
  }

  // One entry of a ring changed by x.
  function Raised(d: Descriptor, s: nat, k: nat, x: real): Descriptor
    requires s < |d| && k < |d[s]|
  {
    d[s := d[s][k := d[s][k] + x]]
  }

  lemma RowTotalRaised(d: Descriptor, rings: nat, s: nat, k: nat, x: real, j: nat)
    requires Shaped(d, rings) && s < |d| && k < rings && j < rings
    ensures Shaped(Raised(d, s, k, x), rings)
    ensures RowTotal(Raised(d, s, k, x), j) == RowTotal(d, j) + if j == k then x else 0.0
  {
    var e := Raised(d, s, k, x);
    assert e == d[..s] + [e[s]] + d[s + 1..] && d == d[..s] + [d[s]] + d[s + 1..];
    RowTotalJoin(d[..s] + [e[s]], d[s + 1..], j);
    RowTotalJoin(d[..s], [e[s]], j);
    RowTotalJoin(d[..s] + [d[s]], d[s + 1..], j);
    RowTotalJoin(d[..s], [d[s]], j);
    assert RowTotal([e[s]], j) == RowTotal([e[s]][..0], j) + e[s][j];
    assert RowTotal([d[s]], j) == RowTotal([d[s]][..0], j) + d[s][j];
  }

  // It moves the key of its ring by its share, and no other key.
  lemma KeyMovesByShare(d: Descriptor, rings: nat, s: nat, k: nat, x: real, j: nat)
    requires Shaped(d, rings) && s < |d| && k < rings && j < rings
    ensures Shaped(Raised(d, s, k, x), rings)
    ensures RingKey(Raised(d, s, k, x), rings)[j] == RingKey(d, rings)[j] + if j == k then x / |d| as real else 0.0
  {
    RowTotalRaised(d, rings, s, k, x, j);
    if j == k {
      SumOfQuotients(RowTotal(d, j), x, |d| as real);
    }
  }

  lemma SumOfQuotients(a: real, b: real, n: real)
    requires n > 0.0
    ensures (a + b) / n == a / n + b / n
  {
  }
}
