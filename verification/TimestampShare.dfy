// The shared-memory timestamp: the lidar driver publishes under a sequence lock, the camera driver reads
// without blocking it. Every atomic load and store of either process is one step, and a run is any
// interleaving of such steps.
module TimestampShare {

  // Where UpdateSharedTimestamp is. `Clearing` is the second store of the writer's initial reset.
  datatype Writer =
    | Clearing
    | Idle
    | Loaded(sequence: int, timestamp: int)
    | Announced(sequence: int, timestamp: int)
    | Stored(sequence: int, timestamp: int)

  // Where the reader is: before its initial load, at the start of an attempt, or inside one.
  datatype Reader =
    | Unmapped
    | Attempting(attempt: nat)
    | HaveBefore(attempt: nat, before: int)
    | HaveValue(attempt: nat, before: int, value: int)

  datatype Delivery = Delivery(sequence: int, value: int, missed: int)

  datatype State = State(
    high: int, low: int,
    writer: Writer, reader: Reader,
    lastSharedSequence: int, hasMatched: bool,
    // what the writer has finished publishing, and what the reader has returned
    published: seq<int>, delivered: seq<Delivery>)

  datatype Action =
    | ClearLow | Begin(timestamp: int) | Announce | Store | Finish
    | Map | LoadBefore | LoadValue | LoadAfter

  const ATTEMPTS: nat := 8

  // The writer has just stored 0 to `high`; whatever a previous driver left in `low` is still there.
  function Initial(stale: int): State {
    State(0, stale, Clearing, Unmapped, 0, false, [], [])
  }

  function WriterStep(s: State, a: Action): State {
    match a
    case ClearLow => if s.writer.Clearing? then s.(low := 0, writer := Idle) else s
    case Begin(timestamp) =>
      if s.writer.Idle? then s.(writer := Loaded(if s.high % 2 == 1 then s.high + 1 else s.high, timestamp)) else s
    case Announce =>
      if s.writer.Loaded?
      then s.(high := s.writer.sequence + 1, writer := Announced(s.writer.sequence, s.writer.timestamp))
      else s
    case Store =>
      if s.writer.Announced?
      then s.(low := s.writer.timestamp, writer := Stored(s.writer.sequence, s.writer.timestamp))
      else s
    case Finish =>
      if s.writer.Stored? then
        s.(high := s.writer.sequence + 2, writer := Idle, published := s.published + [s.writer.timestamp])
      else s
    case _ => s
  }

  // A failed attempt; after the last one ReadSharedTimestamp returns false and is called again later.
  function NextAttempt(s: State, attempt: nat): State {
    s.(reader := Attempting(if attempt + 1 < ATTEMPTS then attempt + 1 else 0))
  }

  // What WaitForNextSharedTimestamp warns about (0 when it does not).
  function Reported(s: State, sequence: int): int {
    if s.hasMatched && s.lastSharedSequence != 0 && sequence > s.lastSharedSequence + 2
    then (sequence - s.lastSharedSequence) / 2 - 1
    else 0
  }

  // A consistent read: returned unless its sequence is the last one returned.
  function Accept(s: State, sequence: int, value: int): State {
    if sequence != s.lastSharedSequence then
      s.(lastSharedSequence := sequence, hasMatched := true, reader := Attempting(0),
         delivered := s.delivered + [Delivery(sequence, value, Reported(s, sequence))])
    else s.(reader := Attempting(0))
  }

  function ReaderStep(s: State, a: Action): State {
    match a
    case Map =>
      if s.reader.Unmapped? then
        s.(lastSharedSequence := if s.high % 2 == 1 then s.high - 1 else s.high,
           hasMatched := false, reader := Attempting(0))
      else s
    case LoadBefore =>
      if s.reader.Attempting? then
        if s.high == 0 || s.high % 2 == 1 then NextAttempt(s, s.reader.attempt)
        else s.(reader := HaveBefore(s.reader.attempt, s.high))
      else s
    case LoadValue =>
      if s.reader.HaveBefore? then s.(reader := HaveValue(s.reader.attempt, s.reader.before, s.low)) else s
    case LoadAfter =>
      if s.reader.HaveValue? then
        if s.reader.before == s.high && s.high % 2 == 0 && s.reader.value > 0 then Accept(s, s.high, s.reader.value)
        else NextAttempt(s, s.reader.attempt)
      else s
    case _ => s
  }

  predicate IsWriterAction(a: Action) {
    a.ClearLow? || a.Begin? || a.Announce? || a.Store? || a.Finish?
  }

  // An action that its process cannot take now leaves the state as it is.
  function Step(s: State, a: Action): State {
    if IsWriterAction(a) then WriterStep(s, a) else ReaderStep(s, a)
  }

  function Run(s: State, actions: seq<Action>): State {
    if actions == [] then s else Step(Run(s, actions[..|actions| - 1]), actions[|actions| - 1])
  }

  // ---------------------------------------------------------------- the invariant

  // `high` counts completed publications twice and is odd exactly while a store to `low` may happen.
  ghost predicate WriterInv(s: State) {
    var n := |s.published|;
    && (s.writer.Clearing? ==> s.high == 0 && n == 0)
    && (s.writer.Idle? ==> s.high == 2 * n)
    && (s.writer.Loaded? ==> s.high == s.writer.sequence == 2 * n)
    && (s.writer.Announced? ==> s.writer.sequence == 2 * n && s.high == 2 * n + 1)
    && (s.writer.Stored? ==> s.writer.sequence == 2 * n && s.high == 2 * n + 1 && s.low == s.writer.timestamp)
    && (s.high % 2 == 0 && n > 0 ==> s.low == s.published[n - 1])
  }

  // A sequence number the writer has finished.
  ghost predicate Finished(s: State, sequence: int) {
    sequence % 2 == 0 && 0 < sequence <= s.high
  }

  lemma FinishedIsPublished(s: State, sequence: int)
    requires WriterInv(s) && Finished(s, sequence)
    ensures 0 <= sequence / 2 - 1 < |s.published|
  {
  }

  // A pending read either sees `high` move on, or holds the value published under its sequence.
  ghost predicate ReaderInv(s: State) {
    && s.lastSharedSequence % 2 == 0 && 0 <= s.lastSharedSequence <= s.high
    && (s.reader.Unmapped? ==> s.lastSharedSequence == 0 && !s.hasMatched && s.delivered == [])
    && (s.reader.HaveBefore? ==> Finished(s, s.reader.before) && s.lastSharedSequence <= s.reader.before)
    && (s.reader.HaveValue? ==> Finished(s, s.reader.before) && s.lastSharedSequence <= s.reader.before)
    && (s.reader.HaveValue? && s.high == s.reader.before ==> s.reader.value == PublishedAt(s, s.reader.before))
  }

  // The timestamp published under a finished sequence number.
  function PublishedAt(s: State, sequence: int): int {
    if 0 <= sequence / 2 - 1 < |s.published| then s.published[sequence / 2 - 1] else 0
  }

  ghost predicate Genuine(s: State, d: Delivery) {
    Finished(s, d.sequence) && d.value == PublishedAt(s, d.sequence) && d.value > 0
  }

  ghost predicate DeliveryInv(s: State) {
    var n := |s.delivered|;
    && s.hasMatched == (n > 0)
    && (n > 0 ==> s.lastSharedSequence == s.delivered[n - 1].sequence)
    && (forall k :: 0 <= k < n ==> Genuine(s, s.delivered[k]))
    && (forall k :: 0 <= k < n - 1 ==>
          && s.delivered[k].sequence < s.delivered[k + 1].sequence
          && s.delivered[k + 1].missed == s.delivered[k + 1].sequence / 2 - s.delivered[k].sequence / 2 - 1)
    && (n > 0 ==> s.delivered[0].missed == 0)
  }

  ghost predicate Inv(s: State) {
    WriterInv(s) && ReaderInv(s) && DeliveryInv(s)
  }

  lemma WriterKeepsInv(s: State, a: Action)
    requires Inv(s)
    ensures Inv(WriterStep(s, a))
    ensures s.high <= WriterStep(s, a).high && s.published <= WriterStep(s, a).published
  {
    var t := WriterStep(s, a);
    forall k | 0 <= k < |s.delivered| ensures Genuine(t, s.delivered[k]) {
      assert Genuine(s, s.delivered[k]);
      FinishedIsPublished(s, s.delivered[k].sequence);
    }
  }

  lemma DeliveryKeepsInv(s: State, value: int)
    requires Inv(s) && Finished(s, s.high) && value > 0 && value == PublishedAt(s, s.high)
    requires s.lastSharedSequence != s.high && !s.reader.Unmapped?
    ensures Inv(Accept(s, s.high, value))
  {
    var t, n := Accept(s, s.high, value), |s.delivered|;
    assert t.delivered[n] == Delivery(s.high, value, Reported(s, s.high));
    forall k | 0 <= k < n + 1 ensures Genuine(t, t.delivered[k]) {
      assert k < n ==> Genuine(s, s.delivered[k]);
    }
    if n > 0 {
      assert Genuine(s, s.delivered[n - 1]);
      assert t.delivered[n - 1] == s.delivered[n - 1];
    }
  }

  // Nothing is delivered and nothing published.
  lemma SameDeliveries(s: State, t: State)
    requires DeliveryInv(s) && t.delivered == s.delivered && t.published == s.published
    requires t.lastSharedSequence == s.lastSharedSequence && t.hasMatched == s.hasMatched && t.high == s.high
    ensures DeliveryInv(t)
  {
    forall k | 0 <= k < |t.delivered| ensures Genuine(t, t.delivered[k]) {
      assert Genuine(s, s.delivered[k]);
    }
  }

  lemma MapKeepsInv(s: State)
    requires Inv(s)
    ensures Inv(ReaderStep(s, Map))
  {
  }

  lemma ReadKeepsInv(s: State, a: Action)
    requires Inv(s) && !a.Map? && ReaderStep(s, a).delivered == s.delivered
    ensures Inv(ReaderStep(s, a))
  {
    SameDeliveries(s, ReaderStep(s, a));
  }

  lemma ReaderKeepsInv(s: State, a: Action)
    requires Inv(s)
    ensures Inv(ReaderStep(s, a))
  {
    if a.Map? {
      MapKeepsInv(s);
    } else if ReaderStep(s, a).delivered != s.delivered {
      DeliveryKeepsInv(s, s.reader.value);
    } else {
      ReadKeepsInv(s, a);
    }
  }

  // Every state of every interleaving satisfies the invariant.
  lemma {:induction false} EveryRunKeepsInv(stale: int, actions: seq<Action>)
    ensures Inv(Run(Initial(stale), actions))
    decreases |actions|
  {
    if actions != [] {
      var front, last := actions[..|actions| - 1], actions[|actions| - 1];
      EveryRunKeepsInv(stale, front);
      if IsWriterAction(last) {
        WriterKeepsInv(Run(Initial(stale), front), last);
      } else {
        ReaderKeepsInv(Run(Initial(stale), front), last);
      }
    }
  }

  // ---------------------------------------------------------------- what the camera driver may rely on

  // In every run, each delivered pair is one the writer published under that sequence number, sequence
  // numbers strictly increase, and between two deliveries exactly the reported number of publications
  // was skipped.
  lemma DeliveriesAreGenuine(stale: int, actions: seq<Action>, k: nat)
    requires k < |Run(Initial(stale), actions).delivered|
    ensures var s := Run(Initial(stale), actions);
            var d := s.delivered[k];
            && d.sequence % 2 == 0 && 0 <= d.sequence / 2 - 1 < |s.published|
            && d.value == s.published[d.sequence / 2 - 1] && d.value > 0
            && (k > 0 ==> s.delivered[k - 1].sequence < d.sequence &&
                          d.missed == (d.sequence / 2 - 1) - (s.delivered[k - 1].sequence / 2 - 1) - 1)
  {
    EveryRunKeepsInv(stale, actions);
    var s := Run(Initial(stale), actions);
    assert Genuine(s, s.delivered[k]);
    FinishedIsPublished(s, s.delivered[k].sequence);
    if k > 0 {
      assert s.delivered[k - 1].sequence < s.delivered[k - 1 + 1].sequence;
    }
  }

  function TotalMissed(delivered: seq<Delivery>): int {
    if delivered == [] then 0 else TotalMissed(delivered[..|delivered| - 1]) + delivered[|delivered| - 1].missed
  }

  // Over a whole run: deliveries and reported misses together account for every publication from the
  // first delivered one to the last.
  lemma {:induction false} MissesAddUp(s: State, n: nat)
    requires Inv(s) && 0 < n <= |s.delivered|
    ensures n + TotalMissed(s.delivered[..n]) == s.delivered[n - 1].sequence / 2 - s.delivered[0].sequence / 2 + 1
  {
    assert s.delivered[..n][..n - 1] == s.delivered[..n - 1];
    if n > 1 {
      MissesAddUp(s, n - 1);
      assert s.delivered[n - 2].sequence < s.delivered[n - 2 + 1].sequence;
    } else {
      assert s.delivered[..n][..0] == [];
      assert TotalMissed(s.delivered[..1]) == TotalMissed([]) + s.delivered[0].missed;
    }
  }

  lemma RunAccountsForEveryPublication(stale: int, actions: seq<Action>)
    requires Run(Initial(stale), actions).delivered != []
    ensures var d := Run(Initial(stale), actions).delivered;
            |d| + TotalMissed(d) == d[|d| - 1].sequence / 2 - d[0].sequence / 2 + 1
  {
    EveryRunKeepsInv(stale, actions);
    var s := Run(Initial(stale), actions);
    MissesAddUp(s, |s.delivered|);
    assert s.delivered[..|s.delivered|] == s.delivered;
  }

  // A reader that is not disturbed gets the newest publication, if it is new to it and positive, in one
  // attempt.
  lemma UndisturbedReadDelivers(s: State)
    requires Inv(s) && s.writer.Idle? && s.reader.Attempting?
    requires s.published != [] && s.published[|s.published| - 1] > 0 && s.high != s.lastSharedSequence
    ensures var t := Run(s, [LoadBefore, LoadValue, LoadAfter]);
            && |t.delivered| == |s.delivered| + 1
            && t.delivered[|s.delivered|].value == s.published[|s.published| - 1]
            && t.lastSharedSequence == 2 * |s.published|
  {
    assert [LoadBefore, LoadValue, LoadAfter][..2] == [LoadBefore, LoadValue];
    assert [LoadBefore, LoadValue][..1] == [LoadBefore];
    assert [LoadBefore][..0] == [];
    assert Run(s, [LoadBefore]) == Step(Run(s, []), LoadBefore);
    assert Run(s, [LoadBefore, LoadValue]) == Step(Run(s, [LoadBefore]), LoadValue);
  }
}
