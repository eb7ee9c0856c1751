// The 32-bit cyclic redundancy check of CGI frames: the reflected polynomial of section 8 of RFC 1952,
// with initial value zero and no final complement.
module CgiCrc {
  import opened Basics
  import opened CrcWord
  import LR = LinearRegister

  const REGISTER: LR.Machine<Word> := LR.Machine(ZERO, ONE, Xor, Shift, Unshift, Small, 32)

  // ---------------------------------------------------------------- the register obeys the laws

  lemma RegisterIsGroup()
    ensures LR.Group(REGISTER)
  {
    forall a: Word, b: Word, c: Word ensures LR.Associates(REGISTER, a, b, c) {
      assert Xor(Xor(a, b), c) == Xor(a, Xor(b, c));
    }
    forall a: Word, b: Word ensures LR.Commutes(REGISTER, a, b) {
      assert Xor(a, b) == Xor(b, a);
    }
    forall a: Word ensures REGISTER.xor(a, REGISTER.zero) == a && REGISTER.xor(a, a) == REGISTER.zero {
      assert Xor(a, ZERO) == a && Xor(a, a) == ZERO;
    }
  }

  lemma RegisterIsLinear()
    ensures LR.Linear(REGISTER)
  {
    forall a: Word, b: Word
      ensures REGISTER.shift(REGISTER.xor(a, b)) == REGISTER.xor(REGISTER.shift(a), REGISTER.shift(b))
    {
      ShiftIsLinear(a, b);
    }
    forall a: Word ensures REGISTER.unshift(REGISTER.shift(a)) == a && REGISTER.shift(REGISTER.unshift(a)) == a {
      StepIsUndone(a);
      StepIsRedone(a);
    }
  }

  lemma RegisterIsCapacious()
    ensures LR.Capacious(REGISTER)
  {
    var m := REGISTER;
    forall n: nat, w: Word, b | n < m.capacity && m.small(n, w)
      ensures m.small(n + 1, m.xor(LR.BitWord(m, b), m.unshift(w)))
      ensures m.xor(LR.BitWord(m, b), m.unshift(w)) == m.zero ==> !b && w == m.zero
    {
      PushKeepsRoom(n, w, b);
    }
  }

  lemma RegisterObeysLaws()
    ensures LR.Laws(REGISTER)
  {
    RegisterIsGroup();
    RegisterIsLinear();
    RegisterIsCapacious();
  }

  // ---------------------------------------------------------------- bytes

  // The bits of a byte sequence, each byte lowest bit first.
  function StreamBits(bytes: seq<Byte>): (bits: seq<bool>)
    ensures |bits| == 8 * |bytes|
  {
    LR.Encode((b: Byte) => b, 8, bytes)
  }

  // The check value of a byte sequence: bit by bit from register `c`.
  function Crc(c: Word, bytes: seq<Byte>): Word {
    LR.Feed(REGISTER, c, StreamBits(bytes))
  }

  // Feeding up to 32 bits is adding them as a word, then shifting.
  lemma {:induction false} LiftIsWord(bits: seq<bool>)
    requires |bits| <= 32
    ensures LR.Lift(REGISTER, bits) == bits + Zeros(32 - |bits|)
    decreases |bits|
  {
    if bits != [] {
      LiftIsWord(bits[1..]);
      var w: Word := bits[1..] + Zeros(32 - |bits[1..]|);
      assert Unshift(w) == LeftOne(w, false);
      assert Xor(BitWord(bits[0]), LeftOne(w, false)) == LeftOne(w, bits[0]);
    } else {
      assert LR.Lift(REGISTER, bits) == ZERO;
    }
  }

  // The program's update: the eight-step value of the low byte, combined with the rest of the register.
  function ByteUpdate(c: Word, x: Byte): Word {
    Xor(And(RightShift(c, 8), LOW_THREE_BYTES), LR.ShiftBy(REGISTER, And(Xor(c, Promoted(x)), LOW_BYTE), 8))
  }

  lemma {:induction false} EvenWordIsShiftedOut(c: Word, steps: nat)
    requires steps <= 32 && forall k :: 0 <= k < steps ==> !c[k]
    ensures LR.ShiftBy(REGISTER, c, steps) == RightShift(c, steps)
    decreases steps
  {
    if steps > 0 {
      var d := RightShift(c, 1);
      assert Shift(c) == d;
      EvenWordIsShiftedOut(d, steps - 1);
      assert RightShift(d, steps - 1) == RightShift(c, steps);
    }
  }

  // The register with a byte added is a part that is only shifted out plus a part in the low byte.
  lemma SplitLowByte(c: Word, x: Byte, low: Word, high: Word)
    requires low == And(Xor(c, Promoted(x)), LOW_BYTE) && high == Zeros(8) + c[8..]
    ensures Xor(high, low) == Xor(c, Promoted(x))
    ensures RightShift(high, 8) == And(RightShift(c, 8), LOW_THREE_BYTES)
  {
    var sum, rest := Xor(c, Promoted(x)), And(RightShift(c, 8), LOW_THREE_BYTES);
    forall k | 0 <= k < 32 ensures Xor(high, low)[k] == sum[k] && RightShift(high, 8)[k] == rest[k] {
      MaskBits(k);
    }
  }

  lemma FeedByte(c: Word, x: Byte)
    ensures LR.Feed(REGISTER, c, x) == LR.ShiftBy(REGISTER, Xor(c, Promoted(x)), 8)
  {
    RegisterObeysLaws();
    LiftIsWord(x);
    LR.FeedIsLiftedShift(REGISTER, c, x);
  }

  lemma SumIsShifted(a: Word, b: Word, steps: nat)
    ensures LR.ShiftBy(REGISTER, Xor(a, b), steps) ==
            Xor(LR.ShiftBy(REGISTER, a, steps), LR.ShiftBy(REGISTER, b, steps))
  {
    RegisterObeysLaws();
    LR.ShiftByIsLinear(REGISTER, a, b, steps);
  }

  // The byte-wise update is eight bit-serial steps.
  lemma ByteUpdateIsEightSteps(c: Word, x: Byte)
    ensures ByteUpdate(c, x) == LR.Feed(REGISTER, c, x)
  {
    var low: Word := And(Xor(c, Promoted(x)), LOW_BYTE);
    var high: Word := Zeros(8) + c[8..];
    FeedByte(c, x);
    SplitLowByte(c, x, low, high);
    SumIsShifted(high, low, 8);
    EvenWordIsShiftedOut(high, 8);
  }

  lemma CrcConcat(c: Word, a: seq<Byte>, b: seq<Byte>)
    ensures Crc(c, a + b) == Crc(Crc(c, a), b)
  {
    LR.EncodeConcat((b: Byte) => b, 8, a, b);
    LR.FeedConcat(REGISTER, c, StreamBits(a), StreamBits(b));
  }

  lemma StreamOne(x: Byte)
    ensures StreamBits([x]) == x
  {
    LR.EncodeOne((b: Byte) => b, 8, x);
  }

  // ---------------------------------------------------------------- the program

  method ReturnCrc32Value(i: Word) returns (ulCRC: Word)
    ensures ulCRC == LR.ShiftBy(REGISTER, i, 8)
  {
    ulCRC := i;
    var j := 8;
    while j > 0
      invariant 0 <= j <= 8
      invariant LR.ShiftBy(REGISTER, ulCRC, j) == LR.ShiftBy(REGISTER, i, 8)
    {
      if ulCRC[0] {
        ulCRC := Xor(RightShift(ulCRC, 1), POLYNOMIAL);
      } else {
        ulCRC := RightShift(ulCRC, 1);
      }
      j := j - 1;
    }
  }

  // The body of the byte loop.
  method UpdateCrc(ulCRC: Word, x: Byte) returns (next: Word)
    ensures next == Crc(ulCRC, [x])
  {
    ByteUpdateIsEightSteps(ulCRC, x);
    StreamOne(x);
    var ulTemp1 := And(RightShift(ulCRC, 8), LOW_THREE_BYTES);
    var ulTemp2 := ReturnCrc32Value(And(Xor(ulCRC, Promoted(x)), LOW_BYTE));
    next := Xor(ulTemp1, ulTemp2);
  }

  // A null buffer gives 0; otherwise the register after the first ulCount bytes.
  method GetCrc32Value(ulCount: nat, ucBuffer: array?<Byte>, ulCRC: Word) returns (crc: Word)
    requires ucBuffer != null ==> ulCount <= ucBuffer.Length
    ensures crc == if ucBuffer == null then ZERO else Crc(ulCRC, ucBuffer[..ulCount])
  {
    if ucBuffer == null {
      return ZERO;
    }
    crc := ulCRC;
    var k := 0;
    while k < ulCount
      invariant 0 <= k <= ulCount
      invariant crc == Crc(ulCRC, ucBuffer[..k])
    {
      CrcConcat(ulCRC, ucBuffer[..k], [ucBuffer[k]]);
      assert ucBuffer[..k] + [ucBuffer[k]] == ucBuffer[..k + 1];
      crc := UpdateCrc(crc, ucBuffer[k]);
      k := k + 1;
    }
  }

  predicate Passes(frame: seq<Byte>)
    requires |frame| >= 4
  {
    var n := |frame|;
    Load32(frame[n - 4], frame[n - 3], frame[n - 2], frame[n - 1]) == Crc(ZERO, frame[..n - 4])
  }

  // 0 for a frame whose last four bytes are the check value of the bytes before them, else -1. The length is not
  // checked: `None` stands for reading at len - 4, which wraps to an index beyond the buffer, for fewer than four
  // bytes.
  method CheckCrc32(ucBuffer: array<Byte>, len: nat) returns (result: Option<int>)
    requires len <= ucBuffer.Length
    ensures result == if len < 4 then None else if Passes(ucBuffer[..len]) then Some(0) else Some(-1)
  {
    if len < 4 {
      return None;
    }
    var crcOrigin := Load32(ucBuffer[len - 4], ucBuffer[len - 3], ucBuffer[len - 2], ucBuffer[len - 1]);
    var crcResult := GetCrc32Value(len - 4, ucBuffer, ZERO);
    assert ucBuffer[..len][..len - 4] == ucBuffer[..len - 4];
    result := Some(if crcOrigin == crcResult then 0 else -1);
  }

  // ---------------------------------------------------------------- the residue

  // A register fed its own four bytes ends at zero.
  lemma OwnBytesGiveZero(b0: Byte, b1: Byte, b2: Byte, b3: Byte)
    ensures Crc(Load32(b0, b1, b2, b3), [b0, b1, b2, b3]) == ZERO
  {
    RegisterObeysLaws();
    var w := Load32(b0, b1, b2, b3);
    StreamOfFour(b0, b1, b2, b3);
    LR.FeedIsLiftedShift(REGISTER, w, w);
    LiftIsWord(w);
    assert w + Zeros(0) == w;
    LR.ShiftByZero(REGISTER, 32);
  }

  lemma StreamOfFour(b0: Byte, b1: Byte, b2: Byte, b3: Byte)
    ensures StreamBits([b0, b1, b2, b3]) == Load32(b0, b1, b2, b3)
  {
    var code := (b: Byte) => b;
    LR.EncodeConcat(code, 8, [b0], [b1]);
    LR.EncodeConcat(code, 8, [b2], [b3]);
    LR.EncodeConcat(code, 8, [b0] + [b1], [b2] + [b3]);
    StreamOne(b0);
    StreamOne(b1);
    StreamOne(b2);
    StreamOne(b3);
    assert ([b0] + [b1]) + ([b2] + [b3]) == [b0, b1, b2, b3];
    assert (b0 + b1) + (b2 + b3) == b0 + b1 + b2 + b3;
  }

  // A frame passes iff running the register over all of it, trailer included, leaves zero.
  lemma PassesIffZeroResidue(frame: seq<Byte>)
    requires |frame| >= 4
    ensures Passes(frame) <==> Crc(ZERO, frame) == ZERO
  {
    var n := |frame|;
    var body, tail := frame[..n - 4], [frame[n - 4], frame[n - 3], frame[n - 2], frame[n - 1]];
    assert frame == body + tail;
    var s, w := Crc(ZERO, body), Load32(tail[0], tail[1], tail[2], tail[3]);
    CrcConcat(ZERO, body, tail);
    OwnBytesGiveZero(tail[0], tail[1], tail[2], tail[3]);
    RegisterObeysLaws();
    if Crc(ZERO, frame) == ZERO {
      LR.FeedIsInjective(REGISTER, s, w, StreamBits(tail));
    }
  }

  // ---------------------------------------------------------------- error detection

  // The difference of two passing frames leaves the register at zero.
  lemma DifferenceHasZeroResidue(f: seq<Byte>, g: seq<Byte>)
    requires |f| == |g| >= 4 && Passes(f) && Passes(g)
    ensures LR.Feed(REGISTER, ZERO, LR.XorBits(StreamBits(f), StreamBits(g))) == ZERO
  {
    PassesIffZeroResidue(f);
    PassesIffZeroResidue(g);
    RegisterObeysLaws();
    LR.FeedIsLinear(REGISTER, ZERO, ZERO, StreamBits(f), StreamBits(g));
    assert Xor(ZERO, ZERO) == ZERO;
  }

  lemma BurstMovesRegister(bits: seq<bool>, at: nat)
    requires LR.Feed(REGISTER, ZERO, bits) == ZERO
    requires forall k :: 0 <= k < |bits| && !(at <= k < at + 32) ==> !bits[k]
    ensures forall k :: 0 <= k < |bits| ==> !bits[k]
  {
    RegisterObeysLaws();
    LR.BurstIsSeen(REGISTER, bits, at);
  }

  // Two frames of the same length that both pass and differ only within 32 consecutive bits are equal:
  // no error burst of up to 32 bits goes unnoticed, whatever the length and wherever it starts.
  lemma BurstsAreDetected(f: seq<Byte>, g: seq<Byte>, at: nat)
    requires |f| == |g| >= 4 && Passes(f) && Passes(g)
    requires forall k :: 0 <= k < 8 * |f| && !(at <= k < at + 32) ==> StreamBits(f)[k] == StreamBits(g)[k]
    ensures f == g
  {
    var a, b := StreamBits(f), StreamBits(g);
    DifferenceHasZeroResidue(f, g);
    BurstMovesRegister(LR.XorBits(a, b), at);
    EqualBitsEqualFrames(f, g);
  }

  lemma EqualBitsEqualFrames(f: seq<Byte>, g: seq<Byte>)
    requires |f| == |g|
    requires forall k :: 0 <= k < 8 * |f| ==> !LR.XorBits(StreamBits(f), StreamBits(g))[k]
    ensures f == g
  {
    var a, b := StreamBits(f), StreamBits(g);
    forall k | 0 <= k < |a| ensures a[k] == b[k] {
      assert !LR.XorBits(a, b)[k];
    }
    LR.EncodeIsInjective((b: Byte) => b, 8, f, g);
  }

  // In whole bytes: two passing frames never differ only within four consecutive bytes.
  lemma FourByteErrorsAreDetected(f: seq<Byte>, g: seq<Byte>, at: nat)
    requires |f| == |g| >= 4 && Passes(f) && Passes(g)
    requires forall k :: 0 <= k < |f| && !(at <= k < at + 4) ==> f[k] == g[k]
    ensures f == g
  {
    forall k | 0 <= k < 8 * |f| && !(8 * at <= k < 8 * at + 32) ensures StreamBits(f)[k] == StreamBits(g)[k] {
      assert !(at <= k / 8 < at + 4);
      SameByteSameBit(f, g, k);
    }
    BurstsAreDetected(f, g, 8 * at);
  }

  lemma SameByteSameBit(f: seq<Byte>, g: seq<Byte>, k: nat)
    requires |f| == |g| && k < 8 * |f| && f[k / 8] == g[k / 8]
    ensures StreamBits(f)[k] == StreamBits(g)[k]
  {
    assert k == 8 * (k / 8) + k % 8;
    LR.EncodedSymbol((b: Byte) => b, 8, f, k / 8, k % 8);
    LR.EncodedSymbol((b: Byte) => b, 8, g, k / 8, k % 8);
  }
}
