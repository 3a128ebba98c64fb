// ECMAScript's 32-bit integer operators on numbers (section 13.9 and 13.12 of ECMA-262).
module JsBits {

  const TWO32 := 0x1_0000_0000

  function ToUint32(x: int): (u: nat)
    ensures u < TWO32
  { x % TWO32 }

  function ToInt32(x: int): int {
    var u := ToUint32(x);
    if u >= 0x8000_0000 then u - TWO32 else u
  }

  /** 2^k, for the shift counts that occur. */
  function TwoTo(k: nat): (p: nat)
    requires k <= 12
    ensures p > 0
  {
    if k == 0 then 1 else 2 * TwoTo(k - 1)
  }

  function BitOr(a: nat, b: nat): nat {
    if a == 0 && b == 0 then 0
    else (if a % 2 == 1 || b % 2 == 1 then 1 else 0) + 2 * BitOr(a / 2, b / 2)
  }

  function BitAnd(a: nat, b: nat): nat {
    if a == 0 || b == 0 then 0
    else (if a % 2 == 1 && b % 2 == 1 then 1 else 0) + 2 * BitAnd(a / 2, b / 2)
  }

  /** `x << k`, `x | y`, `x & y`, `x >>> k`, `x >> k`. */
  function Shl(x: int, k: nat): int
    requires k <= 12
  { ToInt32(ToUint32(x) * TwoTo(k)) }

  function Or(x: int, y: int): int { ToInt32(BitOr(ToUint32(x), ToUint32(y))) }

  function And(x: int, y: int): int { ToInt32(BitAnd(ToUint32(x), ToUint32(y))) }

  function UnsignedShr(x: int, k: nat): int { Halved(ToUint32(x), k) }

  function SignedShr(x: int, k: nat): int { Halved(ToInt32(x), k) }

  /** Moved `k` places right, rounding down: the sign is kept. */
  function Halved(x: int, k: nat): (y: int)
    ensures x >= 0 ==> y >= 0
    decreases k
  {
    if k == 0 then x else Halved(x / 2, k - 1)
  }

  lemma {:induction false} HalvedTwice(x: int, i: nat, j: nat)
    ensures Halved(x, i + j) == Halved(Halved(x, i), j)
    decreases i
  {
    if i > 0 { HalvedTwice(x / 2, i - 1, j); }
  }

  lemma HalvedFive(x: int)
    ensures Halved(x, 5) == x / 32
  {
    var a := x / 2;
    var b := a / 2;
    var c := b / 2;
    var d := c / 2;
    assert Halved(x, 5) == Halved(a, 4) == Halved(b, 3) == Halved(c, 2) == Halved(d, 1) == Halved(d / 2, 0);
  }

  lemma HalvedEight(x: int, b: int)
    requires 0 <= b < 256
    ensures Halved(x * 256 + b, 8) == x
  {
    assert (x * 256 + b) / 2 == x * 128 + b / 2;
    assert (x * 128 + b / 2) / 2 == x * 64 + b / 2 / 2;
    assert (x * 64 + b / 2 / 2) / 2 == x * 32 + b / 2 / 2 / 2;
    HalvedTwice(x * 256 + b, 3, 5);
    HalvedFive(x * 32 + b / 2 / 2 / 2);
    assert Halved(x * 256 + b, 3) == Halved(x * 128 + b / 2, 2) == Halved(x * 64 + b / 2 / 2, 1);
    assert Halved(x * 64 + b / 2 / 2, 1) == Halved(x * 32 + b / 2 / 2 / 2, 0);
  }

  /** 32 * 2^k */
  function FiveBitsAt(k: nat): int { if k == 0 then 32 else 2 * FiveBitsAt(k - 1) }

  /** The five bits at place `k` do not see what lies above them. */
  lemma {:induction false} HigherBitsIrrelevant(x: int, y: int, w: int, k: nat)
    requires x == y + w * FiveBitsAt(k)
    ensures Halved(x, k) % 32 == Halved(y, k) % 32
    decreases k
  {
    if k == 0 {
      ModOfMultiple(y, w);
    } else {
      var step := w * FiveBitsAt(k - 1);
      TwiceOf(w, FiveBitsAt(k - 1));
      HalfOfSum(y, step);
      HigherBitsIrrelevant(x / 2, y / 2, w, k - 1);
    }
  }

  lemma TwiceOf(a: int, b: int)
    ensures a * (2 * b) == 2 * (a * b)
  {}

  lemma HalfOfSum(y: int, t: int)
    ensures (y + 2 * t) / 2 == y / 2 + t
  {}

  /** Or-ing a byte into eight clear bits adds it. */
  lemma {:induction false} OrIntoClearBits(a: nat, b: nat, k: nat)
    requires k <= 12 && b < TwoTo(k)
    ensures BitOr(a * TwoTo(k), b) == a * TwoTo(k) + b
  {
    if k == 0 {
      OrZero(a);
    } else {
      var p := TwoTo(k - 1);
      assert a * TwoTo(k) == 2 * (a * p);
      assert (a * TwoTo(k)) % 2 == 0 && (a * TwoTo(k)) / 2 == a * p;
      OrIntoClearBits(a, b / 2, k - 1);
    }
  }

  lemma {:induction false} OrZero(a: nat)
    ensures BitOr(a, 0) == a
  {
    if a != 0 { OrZero(a / 2); }
  }

  lemma AndLow(a: nat, m: nat, half: nat, mask: nat)
    requires half == a / 2 && m == 2 * mask + 1
    ensures BitAnd(a, m) == a % 2 + 2 * BitAnd(half, mask)
  {}

  lemma AndOne(a: nat)
    ensures BitAnd(a, 1) == a % 2
  {
    AndLow(a, 1, a / 2, 0);
  }

  lemma AndThree(a: nat)
    ensures BitAnd(a, 3) == a % 4
  {
    hide BitAnd;
    AndLow(a, 3, a / 2, 1);
    AndOne(a / 2);
  }

  lemma AndSeven(a: nat)
    ensures BitAnd(a, 7) == a % 8
  {
    hide BitAnd;
    AndLow(a, 7, a / 2, 3);
    AndThree(a / 2);
  }

  lemma AndFifteen(a: nat)
    ensures BitAnd(a, 15) == a % 16
  {
    hide BitAnd;
    AndLow(a, 15, a / 2, 7);
    AndSeven(a / 2);
  }

  /** Masking with 31 keeps the five low bits. */
  lemma AndThirtyOne(a: nat)
    ensures BitAnd(a, 31) == a % 32
  {
    hide BitAnd;
    AndLow(a, 31, a / 2, 15);
    AndFifteen(a / 2);
  }

  lemma AndThirtyOneOf(x: int)
    ensures And(x, 31) == x % 32
  {
    var u := ToUint32(x);
    AndThirtyOne(u);
    ModOfMultiple(u, x / TWO32 * 0x800_0000);
    assert x == u + 32 * (x / TWO32 * 0x800_0000);
  }

  lemma ModOfMultiple(u: int, m: int)
    ensures (u + 32 * m) % 32 == u % 32
  {}

  lemma SignedKeepsBits(y: int)
    ensures ToUint32(ToInt32(y)) == ToUint32(y)
  {}

  /** Eight places up, only the low 24 bits survive in 32. */
  lemma EightUp(u: nat)
    ensures (u * 256) % TWO32 == u % 0x100_0000 * 256
  {
    var q, low := u / 0x100_0000, u % 0x100_0000;
    assert u * 256 == q * TWO32 + low * 256;
    RemainderIs(u * 256, q, low * 256);
  }

  lemma RemainderIs(n: int, q: int, r: int)
    requires n == q * TWO32 + r && 0 <= r < TWO32
    ensures n % TWO32 == r
  {}

  lemma ShiftedUp(x: int)
    ensures ToUint32(Shl(x, 8)) == ToUint32(x) % 0x100_0000 * 256
  {
    assert TwoTo(4) == 16 && TwoTo(8) == 256;
    EightUp(ToUint32(x));
    SignedKeepsBits(ToUint32(x) * 256);
  }

  lemma OrByte(low: nat, b: nat)
    requires b < 256
    ensures BitOr(low * 256, b) == low * 256 + b
  {
    assert TwoTo(4) == 16 && TwoTo(8) == 256;
    OrIntoClearBits(low, b, 8);
  }

  lemma SmallSurvives(y: nat)
    requires y < TWO32
    ensures ToUint32(ToInt32(y)) == y
  {
    SignedKeepsBits(y);
    RemainderIs(y, 0, y);
  }

  lemma ByteOred(low: nat, b: int)
    requires low < 0x100_0000 && 0 <= b < 256
    ensures ToUint32(ToInt32(BitOr(low * 256, b))) == low * 256 + b
  {
    var y := BitOr(low * 256, b);
    OrByte(low, b);
    SmallSurvives(y);
  }

  /** `(x << 8) | b` shifts a byte in, modulo 2^32. */
  lemma ShiftByteIn(x: int, b: int)
    requires 0 <= b < 256
    ensures ToUint32(Or(Shl(x, 8), b)) == (ToUint32(x) * 256 + b) % TWO32
  {
    hide BitOr, TwoTo;
    var u := ToUint32(x);
    var low, q := u % 0x100_0000, u / 0x100_0000;
    ShiftedUp(x);
    ByteOred(low, b);
    RemainderIs(b, 0, b);
    assert u * 256 + b == q * TWO32 + (low * 256 + b);
    RemainderIs(u * 256 + b, q, low * 256 + b);
  }
}
