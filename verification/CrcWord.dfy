// Unsigned 32-bit words and bytes as their bits, lowest first, with the C operators the frame check uses.
module CrcWord {
  type Word = w: seq<bool> | |w| == 32 witness Zeros(32)
  type Byte = b: seq<bool> | |b| == 8 witness Zeros(8)

  function Zeros(n: nat): (z: seq<bool>)
    ensures |z| == n && forall k :: 0 <= k < n ==> !z[k]
  {
    if n == 0 then [] else Zeros(n - 1) + [false]
  }

  // Bit k of a number.
  function Bit(n: nat, k: nat): bool {
    if k == 0 then n % 2 == 1 else Bit(n / 2, k - 1)
  }

  function Constant(n: nat): Word {
    seq(32, k requires 0 <= k < 32 => Bit(n, k))
  }

  const ZERO: Word := Zeros(32)
  const ONE: Word := [true] + Zeros(31)
  const POLYNOMIAL: Word := Constant(0xEDB8_8320)

  function Xor(a: Word, b: Word): Word {
    seq(32, k requires 0 <= k < 32 => a[k] != b[k])
  }

  function And(a: Word, b: Word): Word {
    seq(32, k requires 0 <= k < 32 => a[k] && b[k])
  }

  function RightShift(a: Word, n: nat): Word
    requires n <= 32
  {
    a[n..] + Zeros(n)
  }

  // An unsigned char promoted to unsigned int.
  function Promoted(b: Byte): Word {
    b + Zeros(24)
  }

  // Four bytes read through an unsigned int pointer on a little-endian machine.
  function Load32(b0: Byte, b1: Byte, b2: Byte, b3: Byte): Word {
    b0 + b1 + b2 + b3
  }

  // 0xFF and 0x00FFFFFF.
  const LOW_BYTE: Word := Constant(0xFF)
  const LOW_THREE_BYTES: Word := Constant(0x00FF_FFFF)

  function Ones(n: nat): nat {
    if n == 0 then 0 else 2 * Ones(n - 1) + 1
  }

  lemma OnesHalve(n: nat)
    requires n > 0
    ensures Ones(n) % 2 == 1 && Ones(n) / 2 == Ones(n - 1)
  {
  }

  lemma {:induction false} OnesBits(n: nat, k: nat)
    ensures Bit(Ones(n), k) == (k < n)
    decreases k
  {
    var rest := if n > 0 then n - 1 else 0;
    if n > 0 {
      OnesHalve(n);
    }
    if k > 0 {
      assert Bit(Ones(n), k) == Bit(Ones(rest), k - 1);
      OnesBits(rest, k - 1);
    }
  }

  lemma EightOnes(n: nat)
    ensures Ones(n + 8) == 256 * Ones(n) + 255
  {
    assert Ones(n + 4) == 16 * Ones(n) + 15 by {
      assert Ones(n + 2) == 4 * Ones(n) + 3;
    }
    assert Ones(n + 6) == 4 * Ones(n + 4) + 3;
  }

  lemma MaskValues()
    ensures Ones(8) == 0xFF && Ones(24) == 0x00FF_FFFF
  {
    assert Ones(0) == 0;
    EightOnes(0);
    EightOnes(8);
    EightOnes(16);
  }

  lemma MaskBits(k: nat)
    requires k < 32
    ensures LOW_BYTE[k] == (k < 8) && LOW_THREE_BYTES[k] == (k < 24)
  {
    OnesBits(8, k);
    OnesBits(24, k);
    MaskValues();
  }

  // ---------------------------------------------------------------- one step of the shift register

  function Shift(c: Word): Word {
    if c[0] then Xor(RightShift(c, 1), POLYNOMIAL) else RightShift(c, 1)
  }

  function LeftOne(c: Word, low: bool): Word {
    [low] + c[..31]
  }

  // The top bit of the polynomial tells which branch a step took, so a step can be undone.
  function Unshift(c: Word): Word {
    if c[31] then LeftOne(Xor(c, POLYNOMIAL), true) else LeftOne(c, false)
  }

  // The number whose bits these are, lowest first.
  function Number(bits: seq<bool>): nat {
    if bits == [] then 0 else (if bits[0] then 1 else 0) + 2 * Number(bits[1..])
  }

  lemma {:induction false} BitOfNumber(bits: seq<bool>, k: nat)
    ensures Bit(Number(bits), k) == (k < |bits| && bits[k])
    decreases k
  {
    if bits == [] {
      BitOfZero(k);
    } else if k > 0 {
      BitOfNumber(bits[1..], k - 1);
    }
  }

  lemma {:induction false} BitOfZero(k: nat)
    ensures !Bit(0, k)
  {
    if k > 0 {
      BitOfZero(k - 1);
    }
  }

  lemma FirstBit(w: Word, j: nat)
    requires j < 32
    ensures Number(w[j..]) == (if w[j] then 1 else 0) + 2 * Number(w[j + 1..])
  {
    assert w[j..][0] == w[j] && w[j..][1..] == w[j + 1..];
  }

  // Four bits are one hexadecimal digit.
  lemma Digit(w: Word, j: nat, above: nat, digit: nat)
    requires j <= 28 && Number(w[j + 4..]) == above
    requires digit ==
             (if w[j] then 1 else 0) + (if w[j + 1] then 2 else 0) + (if w[j + 2] then 4 else 0) +
             (if w[j + 3] then 8 else 0)
    ensures Number(w[j..]) == 16 * above + digit
  {
    FirstBit(w, j);
    FirstBit(w, j + 1);
    FirstBit(w, j + 2);
    FirstBit(w, j + 3);
  }

  // The powers of x^32 + x^26 + x^23 + x^22 + x^16 + x^12 + x^11 + x^10 + x^8 + x^7 + x^5 + x^4 + x^2 + x + 1 but the
  // first, which a register does not hold.
  predicate IsPower(e: int) {
    e == 26 || e == 23 || e == 22 || e == 16 || e == 12 || e == 11 || e == 10 || e == 8 || e == 7 || e == 5 || e == 4 ||
    e == 2 || e == 1 || e == 0
  }

  // These powers, the highest in the lowest bit.
  function Reflected(): Word {
    seq(32, k requires 0 <= k < 32 => IsPower(31 - k))
  }

  lemma ReflectedNumber()
    ensures Number(Reflected()) == 0xEDB8_8320
  {
    var w := Reflected();
    assert w[32..] == [];
    Digit(w, 28, 0, 0xE);
    Digit(w, 24, 0xE, 0xD);
    Digit(w, 20, 0xED, 0xB);
    Digit(w, 16, 0xEDB, 8);
    Digit(w, 12, 0xEDB8, 8);
    Digit(w, 8, 0xE_DB88, 3);
    Digit(w, 4, 0xED_B883, 2);
    Digit(w, 0, 0xEDB_8832, 0);
    assert w[0..] == w;
  }

  lemma PolynomialIsReflected(e: nat)
    requires e < 32
    ensures POLYNOMIAL[31 - e] <==> IsPower(e)
  {
    ReflectedNumber();
    BitOfNumber(Reflected(), 31 - e);
  }

  lemma TopOfPolynomial()
    ensures POLYNOMIAL[31]
  {
    PolynomialIsReflected(0);
  }

  lemma StepIsUndone(c: Word)
    ensures Unshift(Shift(c)) == c
  {
    TopOfPolynomial();
    var s := Shift(c);
    assert s[31] == c[0];
    forall k | 0 < k < 32 ensures Unshift(s)[k] == c[k] {
      assert RightShift(c, 1)[k - 1] == c[k];
    }
  }

  lemma StepIsRedone(c: Word)
    ensures Shift(Unshift(c)) == c
  {
    TopOfPolynomial();
  }

  lemma ShiftIsLinear(a: Word, b: Word)
    ensures Shift(Xor(a, b)) == Xor(Shift(a), Shift(b))
  {
  }

  // Only the lowest n bits may be set.
  predicate Small(n: nat, w: Word) {
    forall k :: n <= k < 32 ==> !w[k]
  }

  function BitWord(b: bool): Word {
    if b then ONE else ZERO
  }

  // Undoing a step on a word of n < 32 bits moves it up by one, and the freed low bit is independent.
  lemma PushKeepsRoom(n: nat, w: Word, b: bool)
    requires n < 32 && Small(n, w)
    ensures Small(n + 1, Xor(BitWord(b), Unshift(w)))
    ensures Xor(BitWord(b), Unshift(w)) == ZERO ==> !b && w == ZERO
  {
    var r := Xor(BitWord(b), Unshift(w));
    assert r == LeftOne(w, b);
    if r == ZERO {
      assert !r[0];
      forall k | 0 <= k < 32 ensures !w[k] {
        if k < 31 {
          assert !r[k + 1];
        }
      }
      assert w == ZERO;
    }
  }
}
