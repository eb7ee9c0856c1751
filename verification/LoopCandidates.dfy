// Which earlier keyframe a new one may close a loop with: the nearest ring keys are short-listed, and the
// descriptor nearest to the query wins if it is near enough.
module LoopCandidates {
  import opened Basics
  import opened Matrices
  import opened ScanContext
  import opened ScanCloud

  datatype Entry = Entry(descriptor: Descriptor, ringKey: Vector)

  datatype Search = Search(norm: Norm, grid: Grid, excludeRecent: nat, threshold: real) {
    ghost predicate Valid() {
      IsNorm(norm) && grid.Valid()
    }

    ghost predicate Fits(e: Entry) {
      |e.descriptor| == grid.sectors && Shaped(e.descriptor, grid.rings) && |e.ringKey| == grid.rings
    }

    ghost predicate FitsAll(database: seq<Entry>) {
      forall i :: 0 <= i < |database| ==> Fits(database[i])
    }
  }

  const SHORTLIST: nat := 10

  function EntryOf(g: Grid, points: seq<Polar>): Entry
    requires g.Valid()
  {
    Entry(DescriptorOf(g, points), RingKey(DescriptorOf(g, points), g.rings))
  }

  // ---------------------------------------------------------------- the short list

  function KeyDistances(s: Search, query: Entry, database: seq<Entry>): (r: seq<real>)
    requires s.Fits(query) && s.FitsAll(database)
    ensures |r| == |database|
    ensures forall i :: 0 <= i < |r| ==> r[i] == s.norm(Minus(query.ringKey, database[i].ringKey))
  {
    seq(|database|, i requires 0 <= i < |database| => s.norm(Minus(query.ringKey, database[i].ringKey)))
  }

  // The first `size` places of a partial sort: distinct, in order, and none left out is nearer.
  ghost predicate IsShortlist(d: seq<real>, list: seq<nat>, size: nat) {
    && |list| == size
    && (forall k :: 0 <= k < size ==> list[k] < |d|)
    && (forall j, k :: 0 <= j < k < size ==> list[j] != list[k] && d[list[j]] <= d[list[k]])
    && (forall i, k :: 0 <= i < |d| && i !in list && 0 <= k < size ==> d[list[k]] <= d[i])
  }

  // A nearest place that is not on the list yet.
  method NearestOutside(d: seq<real>, list: seq<nat>) returns (best: nat)
    requires exists i :: 0 <= i < |d| && i !in list
    ensures best < |d| && best !in list && forall i :: 0 <= i < |d| && i !in list ==> d[best] <= d[i]
  {
    best := |d|;
    var i := 0;
    while i < |d|
      invariant 0 <= i <= |d| && best <= |d| && (best == |d| <==> forall j :: 0 <= j < i ==> j in list)
      invariant best < |d| ==> best !in list && forall j :: 0 <= j < i && j !in list ==> d[best] <= d[j]
    {
      if i !in list && (best == |d| || d[i] < d[best]) {
        best := i;
      }
      i := i + 1;
    }
  }

  ghost predicate Distinct(list: seq<nat>) {
    forall j, k :: 0 <= j < k < |list| ==> list[j] != list[k]
  }

  ghost function Below(n: nat): (r: set<nat>)
    ensures |r| == n && forall i: nat :: i in r <==> i < n
  {
    if n == 0 then {} else Below(n - 1) + {n - 1}
  }

  ghost function Members(list: seq<nat>): (r: set<nat>)
    ensures |r| <= |list| && forall i :: i in r <==> i in list
  {
    if list == [] then {}
    else
      assert list == list[..|list| - 1] + [list[|list| - 1]];
      Members(list[..|list| - 1]) + {list[|list| - 1]}
  }

  lemma {:induction false} DistinctMembers(list: seq<nat>)
    requires Distinct(list)
    ensures |Members(list)| == |list|
  {
    if list != [] {
      DistinctMembers(list[..|list| - 1]);
    }
  }

  lemma {:induction false} SubsetIsSmaller(a: set<nat>, b: set<nat>)
    requires a <= b
    ensures |a| <= |b|
  {
    if x :| x in a {
      SubsetIsSmaller(a - {x}, b - {x});
    }
  }

  lemma SomePlaceIsLeft(list: seq<nat>, n: nat)
    requires |list| < n
    ensures exists i :: 0 <= i < n && i !in list
  {
    if forall i :: 0 <= i < n ==> i in list {
      SubsetIsSmaller(Below(n), Members(list));
      assert false;
    }
  }

  // A list of n distinct numbers below n holds them all.
  lemma FullListHoldsAll(list: seq<nat>, n: nat, i: nat)
    requires |list| == n && i < n && Distinct(list) && forall k :: 0 <= k < n ==> list[k] < n
    ensures i in list
  {
    if i !in list {
      DistinctMembers(list);
      SubsetIsSmaller(Members(list), Below(n) - {i});
      assert false;
    }
  }

  method PartialSort(d: seq<real>, size: nat) returns (list: seq<nat>)
    requires size <= |d|
    ensures IsShortlist(d, list, size)
  {
    list := [];
    while |list| < size
      invariant |list| <= size && IsShortlist(d, list, |list|)
    {
      SomePlaceIsLeft(list, |d|);
      var best := NearestOutside(d, list);
      list := list + [best];
    }
  }

  // ---------------------------------------------------------------- the candidate

  function ContextDistance(s: Search, query: Entry, e: Entry): real
    requires s.Fits(query) && s.Fits(e)
  {
    Distance(s.norm, query.descriptor, e.descriptor, s.grid.rings)
  }

  function Shorter(n: nat): nat {
    if n < SHORTLIST then n else SHORTLIST
  }

  // c is a nearest descriptor on some short list of the eligible frames.
  ghost predicate IsCandidate(s: Search, query: Entry, eligible: seq<Entry>, c: nat) {
    && s.Fits(query) && s.FitsAll(eligible) && c < |eligible|
    && exists list: seq<nat> ::
         && IsShortlist(KeyDistances(s, query, eligible), list, Shorter(|eligible|)) && c in list
         && forall k :: 0 <= k < |list| ==>
              ContextDistance(s, query, eligible[c]) <= ContextDistance(s, query, eligible[list[k]])
  }

  predicate EnoughFrames(s: Search, current: nat, database: seq<Entry>) {
    current > s.excludeRecent && |database| > s.excludeRecent
  }

  // c is a frame the search may propose for the query of frame number `current`.
  ghost predicate Proposed(s: Search, current: nat, database: seq<Entry>, query: Entry, c: nat)
    requires current <= |database|
  {
    && EnoughFrames(s, current, database) && s.FitsAll(database)
    && IsCandidate(s, query, database[..current - s.excludeRecent], c)
  }

  predicate NearEnough(s: Search, query: Entry, e: Entry)
    requires s.Fits(query) && s.Fits(e)
  {
    ContextDistance(s, query, e) < s.threshold
  }

  method DistanceTo(s: Search, query: Entry, e: Entry) returns (d: real)
    requires s.Fits(query) && s.Fits(e)
    ensures d == ContextDistance(s, query, e)
  {
    d := ScanContextDistance(s.norm, query.descriptor, e.descriptor, s.grid.rings);
  }

  // best is nearest among the first n places of the list.
  ghost predicate IsNearestOf(s: Search, query: Entry, database: seq<Entry>, list: seq<nat>, n: nat, best: nat,
                              distance: real)
    requires s.Fits(query) && s.FitsAll(database) && n <= |list| && forall k :: 0 <= k < |list| ==> list[k] < |database|
  {
    && best in list && distance == ContextDistance(s, query, database[best])
    && forall k :: 0 <= k < n ==> distance <= ContextDistance(s, query, database[list[k]])
  }

  method NearestOnList(s: Search, query: Entry, database: seq<Entry>, list: seq<nat>)
    returns (best: nat, distance: real)
    requires s.Fits(query) && s.FitsAll(database) && list != [] && forall k :: 0 <= k < |list| ==> list[k] < |database|
    ensures IsNearestOf(s, query, database, list, |list|, best, distance)
  {
    best := list[0];
    distance := DistanceTo(s, query, database[list[0]]);
    var rank := 1;
    while rank < |list|
      invariant 1 <= rank <= |list| && IsNearestOf(s, query, database, list, rank, best, distance)
    {
      best, distance := NearerOf(s, query, database, list, rank, best, distance);
      rank := rank + 1;
    }
  }

  method NearerOf(s: Search, query: Entry, database: seq<Entry>, list: seq<nat>, rank: nat, best: nat, distance: real)
    returns (best': nat, distance': real)
    requires s.Fits(query) && s.FitsAll(database) && rank < |list| && forall k :: 0 <= k < |list| ==>
             list[k] < |database|
    requires IsNearestOf(s, query, database, list, rank, best, distance)
    ensures IsNearestOf(s, query, database, list, rank + 1, best', distance')
  {
    var index := list[rank];
    var d := DistanceTo(s, query, database[index]);
    if d < distance {
      best', distance' := index, d;
    } else {
      best', distance' := best, distance;
    }
  }

  method DetectLoopCandidate(s: Search, query: Entry, current: nat, database: seq<Entry>)
    returns (found: bool, candidate: nat, distance: real)
    requires s.Valid() && s.Fits(query) && s.FitsAll(database) && current <= |database|
    ensures !EnoughFrames(s, current, database) ==> !found
    ensures EnoughFrames(s, current, database) ==>
              && candidate + s.excludeRecent < current
              && Proposed(s, current, database, query, candidate)
              && distance == ContextDistance(s, query, database[candidate])
              && (found <==> NearEnough(s, query, database[candidate]))
  {
    found, candidate, distance := false, 0, 1.0;
    if current <= s.excludeRecent || |database| <= s.excludeRecent {
      return;
    }
    candidate, distance := NearestEligible(s, query, database[..current - s.excludeRecent]);
    EligibleIsRecorded(s, query, current, database, candidate);
    found := distance < s.threshold;
  }

  lemma EligibleIsRecorded(s: Search, query: Entry, current: nat, database: seq<Entry>, c: nat)
    requires s.Fits(query) && s.FitsAll(database) && s.excludeRecent < current <= |database|
    requires IsCandidate(s, query, database[..current - s.excludeRecent], c)
    ensures Proposed(s, current, database, query, c) && c + s.excludeRecent < current
    ensures database[..current - s.excludeRecent][c] == database[c]
  {
  }

  method NearestEligible(s: Search, query: Entry, eligible: seq<Entry>) returns (c: nat, distance: real)
    requires s.Fits(query) && s.FitsAll(eligible) && eligible != []
    ensures IsCandidate(s, query, eligible, c) && distance == ContextDistance(s, query, eligible[c])
  {
    var list := PartialSort(KeyDistances(s, query, eligible), Shorter(|eligible|));
    c, distance := NearestOnList(s, query, eligible, list);
  }

  // ---------------------------------------------------------------- what is certain to be found

  // With no more frames than the short list holds, the candidate is nearest of all.
  lemma SmallDatabaseIsSearchedWhole(s: Search, query: Entry, eligible: seq<Entry>, c: nat, i: nat)
    requires s.Valid() && IsCandidate(s, query, eligible, c) && i < |eligible| <= SHORTLIST
    ensures ContextDistance(s, query, eligible[c]) <= ContextDistance(s, query, eligible[i])
  {
    var list: seq<nat> :| IsShortlist(KeyDistances(s, query, eligible), list, Shorter(|eligible|)) && c in list
      && forall k :: 0 <= k < |list| ==>
           ContextDistance(s, query, eligible[c]) <= ContextDistance(s, query, eligible[list[k]]);
    FullListHoldsAll(list, |eligible|, i);
    var k :| 0 <= k < |list| && list[k] == i;
  }

  // The other places that are no further than place i.
  ghost function NoFurther(d: seq<real>, i: nat): set<nat>
    requires i < |d|
  {
    set j: nat | j < |d| && j != i && d[j] <= d[i]
  }

  // A list without i holds only places that are no further.
  lemma LeftOutByNearer(d: seq<real>, list: seq<nat>, size: nat, i: nat)
    requires i < |d| && i !in list && IsShortlist(d, list, size)
    ensures size <= |NoFurther(d, i)|
  {
    DistinctMembers(list);
    forall j | j in Members(list) ensures j in NoFurther(d, i) {
      var k :| 0 <= k < size && list[k] == j;
    }
    SubsetIsSmaller(Members(list), NoFurther(d, i));
  }

  // One more place of the list, other than i.
  lemma NextWithout(d: seq<real>, list: seq<nat>, i: nat) returns (best: nat)
    requires i < |d| && |list| < |NoFurther(d, i)|
    ensures best < |d| && best != i && best !in list && d[best] <= d[i]
    ensures forall j :: 0 <= j < |d| && j != i && j !in list ==> d[best] <= d[j]
  {
    var free := NoFurther(d, i) - Members(list);
    if free == {} {
      SubsetIsSmaller(NoFurther(d, i), Members(list));
    }
    var some :| some in free;
    best := NearestOther(d, list, i, |d|, some);
  }

  lemma {:induction false} NearestOther(d: seq<real>, list: seq<nat>, i: nat, n: nat, some: nat) returns (best: nat)
    requires n <= |d| && some < |d| && some != i && some !in list
    ensures best < |d| && best != i && best !in list && d[best] <= d[some]
    ensures forall j :: 0 <= j < n && j != i && j !in list ==> d[best] <= d[j]
  {
    if n == 0 {
      best := some;
    } else {
      best := NearestOther(d, list, i, n - 1, some);
      if n - 1 != i && n - 1 !in list && d[n - 1] < d[best] {
        best := n - 1;
      }
    }
  }

  // A short list that does without i.
  lemma {:induction false} ListWithout(d: seq<real>, i: nat, size: nat) returns (list: seq<nat>)
    requires i < |d| && size <= |NoFurther(d, i)|
    ensures IsShortlist(d, list, size) && i !in list
    ensures forall k :: 0 <= k < size ==> d[list[k]] <= d[i]
  {
    if size == 0 {
      list := [];
    } else {
      var front := ListWithout(d, i, size - 1);
      var best := NextWithout(d, front, i);
      list := front + [best];
      ListGrows(d, front, i, best, size);
    }
  }

  lemma ListGrows(d: seq<real>, front: seq<nat>, i: nat, best: nat, size: nat)
    requires i < |d| && size > 0 && IsShortlist(d, front, size - 1) && i !in front
    requires best < |d| && best != i && best !in front && d[best] <= d[i]
    requires forall j :: 0 <= j < |d| && j != i && j !in front ==> d[best] <= d[j]
    ensures IsShortlist(d, front + [best], size) && i !in front + [best]
  {
    var list := front + [best];
    forall j, k | 0 <= j < k < size ensures list[j] != list[k] && d[list[j]] <= d[list[k]] {
      assert list[j] == front[j] && front[j] in front;
    }
    forall j, k | 0 <= j < |d| && j !in list && 0 <= k < size ensures d[list[k]] <= d[j] {
      assert j !in front && j != best;
    }
  }

  // A place is on every short list exactly when fewer other places are no further than the list is long.
  lemma ListedIff(d: seq<real>, i: nat, size: nat)
    requires i < |d|
    ensures (forall list: seq<nat> :: IsShortlist(d, list, size) ==> i in list) <==> |NoFurther(d, i)| < size
  {
    if |NoFurther(d, i)| < size {
      forall list: seq<nat> | IsShortlist(d, list, size) ensures i in list {
        if i !in list {
          LeftOutByNearer(d, list, size, i);
        }
      }
    } else {
      var list := ListWithout(d, i, size);
      assert IsShortlist(d, list, size);
    }
  }

  lemma {:induction false} DotOfZeros(v: Vector)
    requires forall i :: 0 <= i < |v| ==> v[i] == 0.0
    ensures Dot(v, v) == 0.0
  {
    if v != [] {
      DotOfZeros(v[..|v| - 1]);
    }
  }

  lemma {:induction false} ZeroDotIsZero(v: Vector)
    requires Dot(v, v) == 0.0
    ensures forall i :: 0 <= i < |v| ==> v[i] == 0.0
  {
    if v != [] {
      var front, x := v[..|v| - 1], v[|v| - 1];
      SelfDotIsNonnegative(front);
      assert x * x >= 0.0;
      ZeroDotIsZero(front);
      SquareZero(x, x * x);
      forall i | 0 <= i < |v| ensures v[i] == 0.0 {
        assert i < |front| ==> front[i] == 0.0;
      }
    }
  }

  // s is the square of x.
  lemma SquareZero(x: real, s: real)
    requires s == x * x
    ensures s == 0.0 <==> x == 0.0
  {
    if x != 0.0 {
      SquareIsPositive(x, s);
      assert s != 0.0;
    }
  }

  lemma SquareIsPositive(x: real, s: real)
    requires s == x * x && x != 0.0
    ensures s > 0.0
  {
    if x > 0.0 {
      PositiveProduct(x, x, s);
    } else {
      PositiveProduct(-x, -x, s);
    }
  }

  // Two keys are at distance 0 exactly when they are equal.
  lemma KeyDistanceZero(norm: Norm, a: Vector, b: Vector)
    requires IsNorm(norm) && |a| == |b|
    ensures norm(Minus(a, b)) == 0.0 <==> a == b
  {
    var m := Minus(a, b);
    assert norm(m) * norm(m) == Dot(m, m);
    assert forall i :: 0 <= i < |a| ==> m[i] == a[i] - b[i];
    if a == b {
      DotOfZeros(m);
      SquareZero(norm(m), Dot(m, m));
    }
    if norm(m) == 0.0 {
      ZeroDotIsZero(m);
      forall i | 0 <= i < |a| ensures a[i] == b[i] {
        assert m[i] == 0.0;
      }
    }
  }

  // The other eligible frames with the ring key of frame i.
  ghost function Sharing(eligible: seq<Entry>, i: nat): set<nat>
    requires i < |eligible|
  {
    set j: nat | j < |eligible| && j != i && eligible[j].ringKey == eligible[i].ringKey
  }

  lemma SharingIsSmaller(eligible: seq<Entry>, i: nat)
    requires i < |eligible|
    ensures |Sharing(eligible, i)| < |eligible|
  {
    SubsetIsSmaller(Sharing(eligible, i), Below(|eligible|) - {i});
  }

  // Frames at distance 0 from the query are those that share its key.
  lemma SharingIsNoFurther(s: Search, query: Entry, eligible: seq<Entry>, i: nat)
    requires s.Valid() && s.Fits(query) && s.FitsAll(eligible) && i < |eligible|
    requires query.ringKey == eligible[i].ringKey
    ensures NoFurther(KeyDistances(s, query, eligible), i) == Sharing(eligible, i)
  {
    var d := KeyDistances(s, query, eligible);
    KeyDistanceZero(s.norm, query.ringKey, eligible[i].ringKey);
    forall j: nat | j < |eligible| ensures d[j] <= d[i] <==> eligible[j].ringKey == eligible[i].ringKey {
      KeyDistanceZero(s.norm, query.ringKey, eligible[j].ringKey);
    }
  }

  // A frame with the query's ring key is on every short list exactly when at most nine others share it.
  lemma RevisitIsListedIff(s: Search, query: Entry, eligible: seq<Entry>, i: nat)
    requires s.Valid() && s.Fits(query) && s.FitsAll(eligible) && i < |eligible|
    requires query.ringKey == eligible[i].ringKey
    ensures (forall list: seq<nat> ::
               IsShortlist(KeyDistances(s, query, eligible), list, Shorter(|eligible|)) ==> i in list)
            <==> |Sharing(eligible, i)| < SHORTLIST
  {
    SharingIsNoFurther(s, query, eligible, i);
    SharingIsSmaller(eligible, i);
    ListedIff(KeyDistances(s, query, eligible), i, Shorter(|eligible|));
  }

  // A place seen before, from any heading a whole number of sectors away, is certain to be proposed, as long as
  // its descriptor is not empty and at most nine other eligible frames have the same ring key.
  lemma RevisitIsProposed(s: Search, points: seq<Polar>, turn: nat, eligible: seq<Entry>, i: nat, c: nat)
    requires s.Valid() && s.threshold > 0.0 && turn < s.grid.sectors && i < |eligible|
    requires forall k :: 0 <= k < |points| ==> Angular(points[k])
    requires eligible[i] == EntryOf(s.grid, points)
    requires |Sharing(eligible, i)| < SHORTLIST
    requires IsCandidate(s, EntryOf(s.grid, TurnedAll(s.grid, points, turn)), eligible, c)
    requires Dense(s.norm, DescriptorOf(s.grid, TurnedAll(s.grid, points, turn)))
    ensures ContextDistance(s, EntryOf(s.grid, TurnedAll(s.grid, points, turn)), eligible[c]) < s.threshold
  {
    var query := EntryOf(s.grid, TurnedAll(s.grid, points, turn));
    TurnedPlaceIsRecognised(s.norm, s.grid, points, turn);
    RevisitIsListedIff(s, query, eligible, i);
    CandidateIsNoWorse(s, query, eligible, c, i);
    assert ContextDistance(s, query, eligible[i]) == 0.0;
  }

  // The candidate is no further than a frame that is on every short list.
  lemma CandidateIsNoWorse(s: Search, query: Entry, eligible: seq<Entry>, c: nat, i: nat)
    requires IsCandidate(s, query, eligible, c) && i < |eligible|
    requires forall list: seq<nat> ::
               IsShortlist(KeyDistances(s, query, eligible), list, Shorter(|eligible|)) ==> i in list
    ensures ContextDistance(s, query, eligible[c]) <= ContextDistance(s, query, eligible[i])
  {
    var list: seq<nat> :| IsShortlist(KeyDistances(s, query, eligible), list, Shorter(|eligible|)) && c in list
      && forall k :: 0 <= k < |list| ==>
           ContextDistance(s, query, eligible[c]) <= ContextDistance(s, query, eligible[list[k]]);
    var k :| 0 <= k < |list| && list[k] == i;
  }

  // Frame i is more than `excludeRecent` before the current one.
  predicate LongBefore(s: Search, i: nat, current: nat) {
    i + s.excludeRecent < current
  }

  // The frames long before the current one that share the ring key of frame i.
  ghost function SharingBefore(s: Search, database: seq<Entry>, current: nat, i: nat): set<nat>
    requires i < |database|
  {
    set j: nat | j < |database| && LongBefore(s, j, current) && j != i && database[j].ringKey == database[i].ringKey
  }

  lemma SameSharing(s: Search, database: seq<Entry>, current: nat, i: nat, eligible: seq<Entry>)
    requires s.excludeRecent < current <= |database| && eligible == database[..current - s.excludeRecent]
    requires LongBefore(s, i, current)
    ensures Sharing(eligible, i) == SharingBefore(s, database, current, i)
  {
  }

  // In terms of the whole database: a place seen again is proposed if at most nine other frames long before the current
  // one have the same ring key.
  lemma RevisitIsAccepted(s: Search, points: seq<Polar>, turn: nat, current: nat, database: seq<Entry>, i: nat, c: nat)
    requires s.Valid() && s.threshold > 0.0 && turn < s.grid.sectors && current <= |database|
    requires forall k :: 0 <= k < |points| ==> Angular(points[k])
    requires LongBefore(s, i, current) && database[i] == EntryOf(s.grid, points)
    requires |SharingBefore(s, database, current, i)| < SHORTLIST
    requires Dense(s.norm, DescriptorOf(s.grid, TurnedAll(s.grid, points, turn)))
    requires Proposed(s, current, database, EntryOf(s.grid, TurnedAll(s.grid, points, turn)), c)
    ensures EnoughFrames(s, current, database) && LongBefore(s, c, current)
    ensures NearEnough(s, EntryOf(s.grid, TurnedAll(s.grid, points, turn)), database[c])
  {
    var eligible := database[..current - s.excludeRecent];
    SameSharing(s, database, current, i, eligible);
    RevisitIsProposed(s, points, turn, eligible, i, c);
  }

  // The search gives up exactly when no frame is that long before the current one.
  lemma EnoughIffEligible(s: Search, current: nat, database: seq<Entry>)
    requires current <= |database|
    ensures EnoughFrames(s, current, database) <==> exists i: nat :: i < |database| && LongBefore(s, i, current)
  {
    if EnoughFrames(s, current, database) {
      assert LongBefore(s, 0, current);
    }
  }
}
