// A shift register over any group of words in which a step is linear and can be undone. The theorems
// about cyclic redundancy checks need no more than these laws, so the bit-vector arithmetic of the real
// register stays in the proof that it obeys them.
module LinearRegister {

  // `small(n, w)` says that only the lowest n bits of w may be set; `capacity` is the word length.
  datatype Machine<!R> = Machine(
    zero: R, one: R, xor: (R, R) -> R, shift: R -> R, unshift: R -> R, small: (nat, R) -> bool, capacity: nat)

  function BitWord<R>(m: Machine<R>, b: bool): R {
    if b then m.one else m.zero
  }

  ghost predicate Associates<R>(m: Machine<R>, a: R, b: R, c: R) {
    m.xor(m.xor(a, b), c) == m.xor(a, m.xor(b, c))
  }

  ghost predicate Commutes<R>(m: Machine<R>, a: R, b: R) {
    m.xor(a, b) == m.xor(b, a)
  }

  ghost predicate Group<R(!new)>(m: Machine<R>) {
    && (forall a, b, c :: Associates(m, a, b, c))
    && (forall a, b :: Commutes(m, a, b))
    && (forall a :: m.xor(a, m.zero) == a)
    && (forall a :: m.xor(a, a) == m.zero)
  }

  ghost predicate ShiftsLinearly<R(!new)>(m: Machine<R>) {
    forall a, b :: m.shift(m.xor(a, b)) == m.xor(m.shift(a), m.shift(b))
  }

  ghost predicate Undoes<R(!new)>(m: Machine<R>) {
    forall a :: m.unshift(m.shift(a)) == a
  }

  ghost predicate Redoes<R(!new)>(m: Machine<R>) {
    forall a :: m.shift(m.unshift(a)) == a
  }

  ghost predicate Linear<R(!new)>(m: Machine<R>) {
    ShiftsLinearly(m) && Undoes(m) && Redoes(m)
  }

  // Undoing a step moves a word that leaves room up by one bit, and the freed low bit is independent.
  ghost predicate Capacious<R(!new)>(m: Machine<R>) {
    && m.small(0, m.zero)
    && (forall n: nat, w, b :: n < m.capacity && m.small(n, w) ==>
          && m.small(n + 1, m.xor(BitWord(m, b), m.unshift(w)))
          && (m.xor(BitWord(m, b), m.unshift(w)) == m.zero ==> !b && w == m.zero))
  }

  ghost predicate Laws<R(!new)>(m: Machine<R>) {
    Group(m) && Linear(m) && Capacious(m)
  }

  // ---------------------------------------------------------------- shifting

  function ShiftBy<R>(m: Machine<R>, c: R, steps: nat): R
    decreases steps
  {
    if steps == 0 then c else ShiftBy(m, m.shift(c), steps - 1)
  }

  lemma {:induction false} ShiftByIsLinear<R(!new)>(m: Machine<R>, a: R, b: R, steps: nat)
    requires Laws(m)
    ensures ShiftBy(m, m.xor(a, b), steps) == m.xor(ShiftBy(m, a, steps), ShiftBy(m, b, steps))
    decreases steps
  {
    if steps > 0 {
      ShiftByIsLinear(m, m.shift(a), m.shift(b), steps - 1);
    }
  }

  lemma {:induction false} ShiftByIsInjective<R(!new)>(m: Machine<R>, a: R, b: R, steps: nat)
    requires Laws(m) && ShiftBy(m, a, steps) == ShiftBy(m, b, steps)
    ensures a == b
    decreases steps
  {
    if steps > 0 {
      ShiftByIsInjective(m, m.shift(a), m.shift(b), steps - 1);
      assert m.unshift(m.shift(a)) == m.unshift(m.shift(b));
    }
  }

  lemma ShiftZero<R(!new)>(m: Machine<R>)
    requires Laws(m)
    ensures m.shift(m.zero) == m.zero
  {
    var s := m.shift(m.zero);
    assert m.xor(m.zero, m.zero) == m.zero;
    assert s == m.xor(s, s);
  }

  lemma {:induction false} ShiftByZero<R(!new)>(m: Machine<R>, steps: nat)
    requires Laws(m)
    ensures ShiftBy(m, m.zero, steps) == m.zero
    decreases steps
  {
    ShiftZero(m);
    if steps > 0 {
      ShiftByZero(m, steps - 1);
    }
  }

  // ---------------------------------------------------------------- feeding a stream of bits

  function Feed<R>(m: Machine<R>, c: R, bits: seq<bool>): R
    decreases |bits|
  {
    if bits == [] then c else Feed(m, m.shift(m.xor(c, BitWord(m, bits[0]))), bits[1..])
  }

  lemma {:induction false} FeedConcat<R(!new)>(m: Machine<R>, c: R, a: seq<bool>, b: seq<bool>)
    ensures Feed(m, c, a + b) == Feed(m, Feed(m, c, a), b)
    decreases |a|
  {
    if a == [] {
      assert a + b == b;
    } else {
      assert (a + b)[1..] == a[1..] + b;
      FeedConcat(m, m.shift(m.xor(c, BitWord(m, a[0]))), a[1..], b);
    }
  }

  // Whatever was fed, the register before can be recovered.
  lemma {:induction false} FeedIsInjective<R(!new)>(m: Machine<R>, c: R, d: R, bits: seq<bool>)
    requires Laws(m) && Feed(m, c, bits) == Feed(m, d, bits)
    ensures c == d
    decreases |bits|
  {
    if bits != [] {
      var b := BitWord(m, bits[0]);
      var x, y := m.xor(c, b), m.xor(d, b);
      FeedIsInjective(m, m.shift(x), m.shift(y), bits[1..]);
      assert m.unshift(m.shift(x)) == m.unshift(m.shift(y));
      assert Associates(m, c, b, b) && Associates(m, d, b, b);
      assert m.xor(x, b) == c && m.xor(y, b) == d;
    }
  }

  function XorBits(a: seq<bool>, b: seq<bool>): (r: seq<bool>)
    requires |a| == |b|
    ensures |r| == |a|
  {
    seq(|a|, k requires 0 <= k < |a| => a[k] != b[k])
  }

  // Registers and streams may be combined by exclusive or.
  lemma {:induction false} FeedIsLinear<R(!new)>(m: Machine<R>, c: R, d: R, a: seq<bool>, b: seq<bool>)
    requires Laws(m) && |a| == |b|
    ensures Feed(m, m.xor(c, d), XorBits(a, b)) == m.xor(Feed(m, c, a), Feed(m, d, b))
    decreases |a|
  {
    if a != [] {
      var x, y := BitWord(m, a[0]), BitWord(m, b[0]);
      assert XorBits(a, b)[1..] == XorBits(a[1..], b[1..]);
      assert BitWord(m, a[0] != b[0]) == m.xor(x, y) by {
        assert Commutes(m, m.zero, m.one);
      }
      Shuffle(m, c, d, x, y);
      FeedIsLinear(m, m.shift(m.xor(c, x)), m.shift(m.xor(d, y)), a[1..], b[1..]);
    }
  }

  lemma Shuffle<R(!new)>(m: Machine<R>, c: R, d: R, x: R, y: R)
    requires Laws(m)
    ensures m.xor(m.xor(c, d), m.xor(x, y)) == m.xor(m.xor(c, x), m.xor(d, y))
  {
    assert Associates(m, c, d, m.xor(x, y)) && Associates(m, d, x, y) && Commutes(m, d, x);
    assert Associates(m, x, d, y) && Associates(m, c, x, m.xor(d, y));
  }

  lemma {:induction false} FeedZeros<R(!new)>(m: Machine<R>, bits: seq<bool>)
    requires Laws(m) && forall k :: 0 <= k < |bits| ==> !bits[k]
    ensures Feed(m, m.zero, bits) == m.zero
    decreases |bits|
  {
    ShiftZero(m);
    if bits != [] {
      assert m.xor(m.zero, m.zero) == m.zero;
      FeedZeros(m, bits[1..]);
    }
  }

  // The word that has the same effect as the stream when added before shifting.
  function Lift<R>(m: Machine<R>, bits: seq<bool>): R
    decreases |bits|
  {
    if bits == [] then m.zero else m.xor(BitWord(m, bits[0]), m.unshift(Lift(m, bits[1..])))
  }

  lemma {:induction false} FeedIsLiftedShift<R(!new)>(m: Machine<R>, c: R, bits: seq<bool>)
    requires Laws(m)
    ensures Feed(m, c, bits) == ShiftBy(m, m.xor(c, Lift(m, bits)), |bits|)
    decreases |bits|
  {
    if bits == [] {
      assert m.xor(c, m.zero) == c;
    } else {
      var b, w := BitWord(m, bits[0]), Lift(m, bits[1..]);
      FeedIsLiftedShift(m, m.shift(m.xor(c, b)), bits[1..]);
      assert Associates(m, c, b, m.unshift(w));
      assert m.shift(m.xor(m.xor(c, b), m.unshift(w))) == m.xor(m.shift(m.xor(c, b)), m.shift(m.unshift(w)));
      assert m.shift(m.unshift(w)) == w;
    }
  }

  lemma {:induction false} LiftIsSmall<R(!new)>(m: Machine<R>, bits: seq<bool>)
    requires Capacious(m) && |bits| <= m.capacity
    ensures m.small(|bits|, Lift(m, bits))
    ensures Lift(m, bits) == m.zero ==> forall k :: 0 <= k < |bits| ==> !bits[k]
    decreases |bits|
  {
    if bits != [] {
      LiftIsSmall(m, bits[1..]);
      assert m.small(|bits[1..]|, Lift(m, bits[1..]));
      if Lift(m, bits) == m.zero {
        forall k | 0 <= k < |bits| ensures !bits[k] {
          if k > 0 {
            assert !bits[1..][k - 1];
          }
        }
      }
    }
  }

  // Only the first `at` bits before, and everything from `at + span` on after, are certainly zero.
  ghost predicate ConfinedTo(bits: seq<bool>, at: nat, span: nat) {
    forall k :: 0 <= k < |bits| && !(at <= k < at + span) ==> !bits[k]
  }

  // A nonzero disturbance confined to as many bits as the register has never leaves the register at
  // zero, however long the stream around it.
  lemma BurstIsSeen<R(!new)>(m: Machine<R>, bits: seq<bool>, at: nat)
    requires Laws(m) && ConfinedTo(bits, at, m.capacity) && Feed(m, m.zero, bits) == m.zero
    ensures forall k :: 0 <= k < |bits| ==> !bits[k]
  {
    if at < |bits| {
      var end := if at + m.capacity < |bits| then at + m.capacity else |bits|;
      var before, burst, after := bits[..at], bits[at..end], bits[end..];
      assert bits == before + (burst + after);
      FeedConcat(m, m.zero, before, burst + after);
      FeedZeros(m, before);
      FeedConcat(m, m.zero, burst, after);
      FeedZeros(m, after);
      FeedIsInjective(m, Feed(m, m.zero, burst), m.zero, after);
      FeedIsLiftedShift(m, m.zero, burst);
      ShiftByZero(m, |burst|);
      ShiftByIsInjective(m, m.xor(m.zero, Lift(m, burst)), m.zero, |burst|);
      assert Commutes(m, m.zero, Lift(m, burst));
      LiftIsSmall(m, burst);
      forall k | 0 <= k < |bits| ensures !bits[k] {
        if at <= k < end {
          assert !burst[k - at];
        }
      }
    }
  }

  // ---------------------------------------------------------------- streams of encoded symbols

  // The bits of a sequence of symbols, `width` bits each.
  function Encode<B>(code: B -> seq<bool>, width: nat, symbols: seq<B>): (bits: seq<bool>)
    requires forall x :: x in symbols ==> |code(x)| == width
    ensures |bits| == width * |symbols|
  {
    if symbols == [] then []
    else Encode(code, width, symbols[..|symbols| - 1]) + code(symbols[|symbols| - 1])
  }

  lemma {:induction false} EncodeConcat<B>(code: B -> seq<bool>, width: nat, a: seq<B>, b: seq<B>)
    requires forall x :: x in a || x in b ==> |code(x)| == width
    ensures Encode(code, width, a + b) == Encode(code, width, a) + Encode(code, width, b)
    decreases |b|
  {
    if b == [] {
      assert a + b == a;
    } else {
      assert (a + b)[..|a + b| - 1] == a + b[..|b| - 1];
      EncodeConcat(code, width, a, b[..|b| - 1]);
    }
  }

  lemma EncodeOne<B>(code: B -> seq<bool>, width: nat, x: B)
    requires |code(x)| == width
    ensures Encode(code, width, [x]) == code(x)
  {
    assert [x][..0] == [];
    assert Encode(code, width, [x]) == [] + code(x);
  }

  // Symbol k occupies the bits from width * k on.
  lemma {:induction false} EncodedSymbol<B>(code: B -> seq<bool>, width: nat, symbols: seq<B>, k: nat, i: nat)
    requires forall x :: x in symbols ==> |code(x)| == width
    requires k < |symbols| && i < width
    ensures width * k + i < width * |symbols|
    ensures Encode(code, width, symbols)[width * k + i] == code(symbols[k])[i]
    decreases |symbols|
  {
    var front := symbols[..|symbols| - 1];
    if k < |front| {
      EncodedSymbol(code, width, front, k, i);
    }
    assert width * (|front| + 1) == width * |front| + width;
  }

  // If symbols are determined by their bits, so are their sequences.
  lemma EncodeIsInjective<B(!new)>(code: B -> seq<bool>, width: nat, f: seq<B>, g: seq<B>)
    requires forall x :: x in f || x in g ==> |code(x)| == width
    requires forall x, y :: code(x) == code(y) ==> x == y
    requires |f| == |g| && Encode(code, width, f) == Encode(code, width, g)
    ensures f == g
  {
    forall k | 0 <= k < |f| ensures f[k] == g[k] {
      forall i | 0 <= i < width ensures code(f[k])[i] == code(g[k])[i] {
        EncodedSymbol(code, width, f, k, i);
        EncodedSymbol(code, width, g, k, i);
      }
      assert code(f[k]) == code(g[k]);
    }
  }
}
