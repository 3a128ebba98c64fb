// ULID generation: packages/core/src/identifier.ts and its twin in packages/web/lib/client-crypto.ts.
module Ulid {
  import opened Prelude
  import opened Text
  import opened Numerals
  import opened JsBits
  import opened Identifier
  import opened Utf8

  /** "0123456789ABCDEFGHJKMNPQRSTVWXYZ" */
  const CROCKFORD := T("0123456789") + T("ABCDEFGH") + T("JK") + T("MN") + T("PQRST") + T("VWXYZ")

  datatype UlidError = InvalidIdentifier

  const TIME_LIMIT := 0x1_0000_0000_0000  // 2^48

  /** The Crockford character of a digit, without the table. */
  function Crock(d: nat): Unit
    requires d < 32
  {
    if d < 10 then '0' as int + d
    else if d < 18 then 'A' as int + (d - 10)
    else if d < 20 then 'J' as int + (d - 18)
    else if d < 22 then 'M' as int + (d - 20)
    else if d < 27 then 'P' as int + (d - 22)
    else 'V' as int + (d - 27)
  }

  lemma CrockfordTable(d: nat)
    requires d < 32
    ensures |CROCKFORD| == 32 && CROCKFORD[d] == Crock(d)
  {}

  /** Digits spelled in the Crockford alphabet. */
  function Spell(ds: Text): (t: Text)
    requires forall i :: 0 <= i < |ds| ==> ds[i] < 32
    ensures |t| == |ds| && forall i :: 0 <= i < |t| ==> t[i] == Crock(ds[i])
  {
    seq(|ds|, i requires 0 <= i < |ds| => Crock(ds[i]))
  }

  /** The number ten random bytes spell, big-endian. */
  function Random(bytes: Bytes): nat { ValueOf(bytes, 256) }

  /** 10 base-32 digits of the time, then 16 of the random number. */
  function UlidText(now: nat, bytes: Bytes): (t: Text)
    ensures |t| == 26
  {
    Spell(Base32Digits(now, 10)) + Spell(Base32Digits(Random(bytes), 16))
  }

  // ---------------------------------------------------------------- the bit-packing loop

  /** `digits` base-32 digits have been written from the first bytes, whose value is `value`; `left` bits are
      pending. */
  ghost predicate Packed(buffer: int, value: nat, left: nat, digits: nat, written: Text) {
    && left <= 12
    && ToUint32(buffer) == value % TWO32
    && written == Spell(Base32Digits(Halved(value, left), digits))
  }

  lemma ByteIn(buffer: int, value: nat, left: nat, digits: nat, written: Text, b: Byte)
    requires Packed(buffer, value, left, digits, written) && left < 5
    ensures Packed(Or(Shl(buffer, 8), b), value * 256 + b, left + 8, digits, written)
  {
    ByteInWord(buffer, value, b);
    ByteAbove(value, left, b);
  }

  lemma NothingPacked()
    ensures Packed(0, Random([]), 0, 0, [])
  {}

  lemma AllPacked(buffer: int, value: nat, digits: nat, written: Text)
    requires Packed(buffer, value, 0, digits, written)
    ensures written == Spell(Base32Digits(value, digits))
  {}

  lemma OneMoreByte(rnd: Bytes, i: nat)
    requires i < |rnd|
    ensures Random(rnd[..i + 1]) == Random(rnd[..i]) * 256 + rnd[i]
  {
    assert rnd[..i + 1][..i] == rnd[..i];
  }

  lemma ByteAbove(value: nat, left: nat, b: Byte)
    ensures Halved(value * 256 + b, left + 8) == Halved(value, left)
  {
    HalvedEight(value, b);
    HalvedTwice(value * 256 + b, 8, left);
  }

  lemma ByteInWord(buffer: int, value: nat, b: Byte)
    requires ToUint32(buffer) == value % TWO32
    ensures ToUint32(Or(Shl(buffer, 8), b)) == (value * 256 + b) % TWO32
  {
    ShiftByteIn(buffer, b);
    var q, low := value / TWO32, value % TWO32;
    assert value * 256 + b == low * 256 + b + q * 256 * TWO32;
    SameRemainder(low * 256 + b, q * 256);
  }

  lemma SameRemainder(n: nat, q: int)
    ensures (n + q * TWO32) % TWO32 == n % TWO32
  {
    RemainderIs(n + q * TWO32, n / TWO32 + q, n % TWO32);
  }

  /** Five bits at a low place of the buffer are those of the value, shifted signed or unsigned. */
  lemma LowBits(x: int, value: nat, left: nat)
    requires left <= 7 && ToUint32(x) == value % TWO32
    ensures And(UnsignedShr(x, left), 31) == Halved(value, left) % 32
    ensures And(SignedShr(x, left), 31) == Halved(value, left) % 32
  {
    AndThirtyOneOf(UnsignedShr(x, left));
    AndThirtyOneOf(SignedShr(x, left));
    var u := ToUint32(x);
    assert value == u + value / TWO32 * TWO32;
    WordsAbove(value, u, value / TWO32, left);
    if u >= 0x8000_0000 { WordsAbove(u - TWO32, u, -1, left); }
  }

  lemma WordsAbove(x: int, y: int, q: int, left: nat)
    requires left <= 7 && x == y + q * TWO32
    ensures Halved(x, left) % 32 == Halved(y, left) % 32
  {
    var w := PlacesAbove(left);
    assert q * w * FiveBitsAt(left) == q * (w * FiveBitsAt(left));
    HigherBitsIrrelevant(x, y, q * w, left);
  }

  /** 2^32 is a multiple of 2^(5 + left). */
  function PlacesAbove(left: nat): (w: int)
    requires left <= 7
    ensures w * FiveBitsAt(left) == TWO32
  {
    if left == 0 then 0x800_0000 else PlacesAbove(left - 1) / 2
  }

  lemma DigitOut(buffer: int, value: nat, left: nat, digits: nat, written: Text)
    requires Packed(buffer, value, left, digits, written) && 5 <= left
    ensures 0 <= And(UnsignedShr(buffer, left - 5), 31) < 32
    ensures And(SignedShr(buffer, left - 5), 31) == And(UnsignedShr(buffer, left - 5), 31)
    ensures Packed(buffer, value, left - 5, digits + 1, written + [CROCKFORD[And(UnsignedShr(buffer, left - 5), 31)]])
  {
    LowBits(buffer, value, left - 5);
    var rest := Halved(value, left - 5);
    HalvedTwice(value, left - 5, 5);
    HalvedFive(rest);
    SpellOneMore(rest, digits);
  }

  lemma SpellOneMore(n: nat, digits: nat)
    ensures Spell(Base32Digits(n, digits + 1)) == Spell(Base32Digits(n / 32, digits)) + [CROCKFORD[n % 32]]
  {
    CrockfordTable(n % 32);
    assert Base32Digits(n, digits + 1) == Base32Digits(n / 32, digits) + [n % 32];
  }

  // ---------------------------------------------------------------- core's generator

  /** `generateUlid` for a time, None being any number that is no integer, and ten random bytes. */
  method GenerateUlid(now: Option<int>, rnd: Bytes) returns (r: Result<Text, UlidError>)
    requires |rnd| == 10
    ensures r == if now.Some? && 0 <= now.value < TIME_LIMIT then Ok(UlidText(now.value, rnd))
                 else Err(InvalidIdentifier)
  {
    if now.None? || now.value < 0 || now.value > 0xffff_ffff_ffff { return Err(InvalidIdentifier); }
    var t: nat := now.value;
    var time := new Unit[10];
    var i := 9;
    while i >= 0
      invariant -1 <= i <= 9
      invariant Spell(Base32Digits(now.value, 10)) == Spell(Base32Digits(t, i + 1)) + time[i + 1..]
    {
      SpellOneMore(t, i);
      CrockfordTable(t % 32);
      ghost var done := time[i + 1..];
      time[i] := CROCKFORD[t % 32];
      assert time[i..] == [CROCKFORD[t % 32]] + done;
      t := t / 32;
      i := i - 1;
    }
    var rand := PackRandom(rnd);
    assert Spell(Base32Digits(t, 0)) + time[..] == time[..];
    r := Ok(time[..] + rand[..]);
  }

  /** The random half of `generateUlid`: ten bytes into sixteen characters through one 32-bit buffer. */
  method PackRandom(rnd: Bytes) returns (rand: array<Unit>)
    requires |rnd| == 10
    ensures rand.Length == 16 && fresh(rand)
    ensures rand[..] == Spell(Base32Digits(Random(rnd), 16))
  {
    hide Or, Shl, Packed, Random, Spell, Base32Digits;
    rand := new Unit[16];
    var bitBuf, bitCount, idx := 0, 0, 0;
    assert rand[..0] == [] && rnd[..0] == [];
    NothingPacked();
    for i := 0 to 10
      invariant bitCount < 5 && 8 * i == 5 * idx + bitCount
      invariant Packed(bitBuf, Random(rnd[..i]), bitCount, idx, rand[..idx])
    {
      OneMoreByte(rnd, i);
      ByteIn(bitBuf, Random(rnd[..i]), bitCount, idx, rand[..idx], rnd[i]);
      bitBuf := Or(Shl(bitBuf, 8), rnd[i]);
      bitCount := bitCount + 8;
      bitCount, idx := DrainInto(rand, bitBuf, bitCount, idx, Random(rnd[..i + 1]));
    }
    assert rnd[..10] == rnd && rand[..16] == rand[..];
    AllPacked(bitBuf, Random(rnd), 16, rand[..]);
  }

  /** The inner loop: whole groups of five bits leave the buffer. */
  method DrainInto(rand: array<Unit>, bitBuf: int, pending: nat, start: nat, ghost value: nat)
    returns (bitCount: nat, idx: nat)
    requires 5 * start + pending <= 5 * rand.Length + 4
    requires Packed(bitBuf, value, pending, start, rand[..start])
    modifies rand
    ensures bitCount < 5 && idx <= rand.Length && 5 * idx + bitCount == 5 * start + pending
    ensures Packed(bitBuf, value, bitCount, idx, rand[..idx])
  {
    bitCount, idx := pending, start;
    while bitCount >= 5
      invariant idx <= rand.Length && 5 * idx + bitCount == 5 * start + pending
      invariant Packed(bitBuf, value, bitCount, idx, rand[..idx])
    {
      DigitOut(bitBuf, value, bitCount, idx, rand[..idx]);
      bitCount := bitCount - 5;
      ghost var written := rand[..idx];
      rand[idx] := CROCKFORD[And(UnsignedShr(bitBuf, bitCount), 31)];
      assert rand[..idx + 1] == written + [rand[idx]];
      idx := idx + 1;
    }
  }

  // ---------------------------------------------------------------- the browser's encoder

  /** `encodeUlid`: string building, `t & 0x1f` on times wider than 32 bits, and a signed right shift. */
  method EncodeUlid(time: nat, random: Bytes) returns (ulid: Text)
    requires |random| >= 10
    ensures ulid == UlidText(time, random[..10])
  {
    var ts: Text := [];
    var t := time;
    for i := 0 to 10
      invariant Spell(Base32Digits(time, 10)) == Spell(Base32Digits(t, 10 - i)) + ts
    {
      AndThirtyOneOf(t);
      SpellOneMore(t, 9 - i);
      CrockfordTable(t % 32);
      var c := CROCKFORD[And(t, 0x1f)];
      assert Spell(Base32Digits(t / 32, 9 - i)) + [c] + ts == Spell(Base32Digits(t / 32, 9 - i)) + ([c] + ts);
      ts := [c] + ts;
      t := t / 32;
    }
    assert Spell(Base32Digits(t, 0)) + ts == ts;
    var rnd := EncodeRandom(random[..10]);
    ulid := ts + rnd;
  }

  method EncodeRandom(bits: Bytes) returns (rnd: Text)
    requires |bits| == 10
    ensures rnd == Spell(Base32Digits(Random(bits), 16))
  {
    hide Or, Shl, Packed, Random, Spell, Base32Digits;
    rnd := [];
    var buffer, bitsInBuffer := 0, 0;
    assert bits[..0] == [];
    NothingPacked();
    for i := 0 to 10
      invariant bitsInBuffer < 5 && 8 * i == 5 * |rnd| + bitsInBuffer
      invariant Packed(buffer, Random(bits[..i]), bitsInBuffer, |rnd|, rnd)
    {
      OneMoreByte(bits, i);
      ByteIn(buffer, Random(bits[..i]), bitsInBuffer, |rnd|, rnd, bits[i]);
      buffer := Or(Shl(buffer, 8), bits[i]);
      bitsInBuffer := bitsInBuffer + 8;
      bitsInBuffer, rnd := DrainText(buffer, bitsInBuffer, rnd, Random(bits[..i + 1]));
    }
    assert bits[..10] == bits;
    AllPacked(buffer, Random(bits), 16, rnd);
  }

  method DrainText(buffer: int, pending: nat, start: Text, ghost value: nat) returns (bitsInBuffer: nat, rnd: Text)
    requires Packed(buffer, value, pending, |start|, start)
    ensures bitsInBuffer < 5 && 5 * |rnd| + bitsInBuffer == 5 * |start| + pending
    ensures Packed(buffer, value, bitsInBuffer, |rnd|, rnd)
  {
    bitsInBuffer, rnd := pending, start;
    while bitsInBuffer >= 5
      invariant 5 * |rnd| + bitsInBuffer == 5 * |start| + pending
      invariant Packed(buffer, value, bitsInBuffer, |rnd|, rnd)
    {
      DigitOut(buffer, value, bitsInBuffer, |rnd|, rnd);
      bitsInBuffer := bitsInBuffer - 5;
      rnd := rnd + [CROCKFORD[And(SignedShr(buffer, bitsInBuffer), 0x1f)]];
    }
  }

  // ---------------------------------------------------------------- what the text is good for

  lemma CrockRises(a: nat, b: nat)
    requires a < 32 && b < 32
    ensures Crock(a) < Crock(b) <==> a < b
    ensures IsCrockford(Crock(a))
    ensures a < 8 ==> '0' as int <= Crock(a) <= '7' as int
  {}

  lemma SpellOrder(a: Text, b: Text)
    requires |a| == |b| && forall i :: 0 <= i < |a| ==> a[i] < 32 && b[i] < 32
    ensures Less(Spell(a), Spell(b)) <==> ValueOf(a, 32) < ValueOf(b, 32)
    ensures Spell(a) == Spell(b) <==> ValueOf(a, 32) == ValueOf(b, 32)
  {
    forall i, j | 0 <= i < |a| && 0 <= j < |b|
      ensures (a[i] < b[j] <==> Spell(a)[i] < Spell(b)[j]) && (a[i] == b[j] <==> Spell(a)[i] == Spell(b)[j])
    { CrockRises(a[i], b[j]); CrockRises(b[j], a[i]); }
    LessOfRenamed(a, b, Spell(a), Spell(b));
    OrderOfDigits(a, b, 32);
    if Spell(a) == Spell(b) {
      assert forall i :: 0 <= i < |a| ==> Spell(a)[i] == Spell(b)[i];
      assert a == b;
    }
  }

  lemma Pow32()
    ensures Pow(32, 10) == 0x4_0000_0000_0000 && Pow(32, 9) == 0x2000_0000_0000
    ensures Pow(32, 16) == 0x1_0000_0000_0000_0000_0000
    ensures Pow(256, 10) == 0x1_0000_0000_0000_0000_0000
  {
    assert Pow(32, 3) == 0x8000;
    assert Pow(32, 6) == 0x4000_0000;
    assert Pow(32, 13) == 0x2_0000_0000_0000_0000;
    assert Pow(256, 4) == 0x1_0000_0000;
    assert Pow(256, 7) == 0x100_0000_0000_0000;
  }

  lemma {:induction false} LessOfConcat(a: Text, x: Text, b: Text, y: Text)
    requires |a| == |b| && Less(a, b)
    ensures Less(a + x, b + y)
  {
    if a[0] == b[0] {
      assert (a + x)[1..] == a[1..] + x && (b + y)[1..] == b[1..] + y;
      LessOfConcat(a[1..], x, b[1..], y);
    }
  }

  /** Every generated ULID matches `ULID_REGEX`. */
  lemma UlidIsValid(now: nat, rnd: Bytes)
    requires now < TIME_LIMIT
    ensures IsUlid(UlidText(now, rnd))
  {
    var t := UlidText(now, rnd);
    var time, rest := Base32Digits(now, 10), Base32Digits(Random(rnd), 16);
    Pow32();
    ValueOfBase32Digits(now, 10);
    if time[0] >= 8 { LeadingDigit(time); }
    CrockRises(time[0], 0);
    forall i | 0 <= i < 26 ensures IsCrockford(t[i]) {
      CrockRises(if i < 10 then time[i] else rest[i - 10], 0);
    }
  }

  lemma {:induction false} LeadingDigit(ds: Text)
    requires ds != [] && ds[0] >= 8
    ensures ValueOf(ds, 32) >= 8 * Pow(32, |ds| - 1)
  {
    var front := ds[..|ds| - 1];
    if front != [] { LeadingDigit(front); }
  }

  /** ULIDs sort by time: a later time gives a greater text whatever the random bytes are. */
  lemma UlidsSortByTime(t1: nat, rnd1: Bytes, t2: nat, rnd2: Bytes)
    requires t1 < t2 < TIME_LIMIT
    ensures Less(UlidText(t1, rnd1), UlidText(t2, rnd2))
  {
    Pow32();
    ValueOfBase32Digits(t1, 10);
    ValueOfBase32Digits(t2, 10);
    var a, b := Base32Digits(t1, 10), Base32Digits(t2, 10);
    SpellOrder(a, b);
    LessOfConcat(Spell(a), Spell(Base32Digits(Random(rnd1), 16)), Spell(b), Spell(Base32Digits(Random(rnd2), 16)));
  }

  /** Time and random bytes can both be recovered: different inputs give different ULIDs. */
  lemma UlidIsInvertible(t1: nat, rnd1: Bytes, t2: nat, rnd2: Bytes)
    requires t1 < TIME_LIMIT && t2 < TIME_LIMIT && |rnd1| == |rnd2| == 10
    requires UlidText(t1, rnd1) == UlidText(t2, rnd2)
    ensures t1 == t2 && rnd1 == rnd2
  {
    Pow32();
    ValueOfBase32Digits(t1, 10);
    ValueOfBase32Digits(t2, 10);
    ValueBelowPow(rnd1, 256);
    ValueBelowPow(rnd2, 256);
    ValueOfBase32Digits(Random(rnd1), 16);
    ValueOfBase32Digits(Random(rnd2), 16);
    assert UlidText(t1, rnd1)[..10] == Spell(Base32Digits(t1, 10));
    assert UlidText(t2, rnd2)[..10] == Spell(Base32Digits(t2, 10));
    assert UlidText(t1, rnd1)[10..] == Spell(Base32Digits(Random(rnd1), 16));
    assert UlidText(t2, rnd2)[10..] == Spell(Base32Digits(Random(rnd2), 16));
    SpellOrder(Base32Digits(t1, 10), Base32Digits(t2, 10));
    SpellOrder(Base32Digits(Random(rnd1), 16), Base32Digits(Random(rnd2), 16));
    OrderOfDigits(rnd1, rnd2, 256);
  }

  // ---------------------------------------------------------------- every text of the pattern is a ULID

  /** The digit a Crockford character stands for. */
  function DigitOf(u: Unit): (d: nat)
    requires IsCrockford(u)
    ensures d < 32 && Crock(d) == u
  {
    if u <= '9' as int then u - '0' as int
    else if u <= 'H' as int then u - 'A' as int + 10
    else if u <= 'K' as int then u - 'J' as int + 18
    else if u <= 'N' as int then u - 'M' as int + 20
    else if u <= 'T' as int then u - 'P' as int + 22
    else u - 'V' as int + 27
  }

  function Unspell(t: Text): (ds: Text)
    requires forall i :: 0 <= i < |t| ==> IsCrockford(t[i])
    ensures |ds| == |t| && forall i :: 0 <= i < |ds| ==> ds[i] < 32 && Crock(ds[i]) == t[i]
  {
    seq(|t|, i requires 0 <= i < |t| => DigitOf(t[i]))
  }

  lemma SpellUnspells(t: Text)
    requires forall i :: 0 <= i < |t| ==> IsCrockford(t[i])
    ensures Spell(Unspell(t)) == t
  {}

  /** The `width` low-order octets of `n`. */
  function Octets(n: nat, width: nat): (bs: Bytes)
    ensures |bs| == width
  {
    if width == 0 then [] else Octets(n / 256, width - 1) + [n % 256]
  }

  lemma {:induction false} ValueOfOctets(n: nat, width: nat)
    requires n < Pow(256, width)
    ensures ValueOf(Octets(n, width), 256) == n
  {
    if width > 0 {
      ValueOfOctets(n / 256, width - 1);
      assert Octets(n, width)[..width - 1] == Octets(n / 256, width - 1);
    }
  }

  /** Base-32 digits are those of the number they denote. */
  lemma DigitsOfValue(ds: Text)
    requires forall i :: 0 <= i < |ds| ==> ds[i] < 32
    ensures Base32Digits(ValueOf(ds, 32), |ds|) == ds
  {
    ValueBelowPow(ds, 32);
    ValueOfBase32Digits(ValueOf(ds, 32), |ds|);
    OrderOfDigits(Base32Digits(ValueOf(ds, 32), |ds|), ds, 32);
  }

  lemma {:induction false} LeadingDigitBelow(ds: Text, d: nat)
    requires ds != [] && ds[0] < d && forall i :: 0 <= i < |ds| ==> ds[i] < 32
    ensures ValueOf(ds, 32) < d * Pow(32, |ds| - 1)
  {
    var front := ds[..|ds| - 1];
    if front != [] {
      LeadingDigitBelow(front, d);
      OneMorePlace(ValueOf(front, 32), ds[|ds| - 1], d, Pow(32, |front| - 1));
    }
  }

  lemma OneMorePlace(v: nat, last: nat, d: nat, q: nat)
    requires v < d * q && last < 32
    ensures v * 32 + last < d * (q * 32)
  {
    assert d * (q * 32) == d * q * 32;
  }

  /** Every text that matches `ULID_REGEX` is the ULID of some time below 2^48 and some ten bytes, so the pattern
      accepts exactly the generator's range. */
  lemma UlidIsGenerated(t: Text) returns (now: nat, rnd: Bytes)
    requires IsUlid(t)
    ensures now < TIME_LIMIT && |rnd| == 10 && UlidText(now, rnd) == t
  {
    hide Base32Digits, ValueOf, Pow, Spell, Octets, Crock;
    var time, rest := t[..10], t[10..];
    AllCrockford(t);
    var a, b := Unspell(time), Unspell(rest);
    LeadingDigits(t);
    Pow32();
    LeadingDigitBelow(a, 8);
    ValueBelowPow(b, 32);
    now, rnd := ValueOf(a, 32), Octets(ValueOf(b, 32), 10);
    ValueOfOctets(ValueOf(b, 32), 10);
    DigitsOfValue(a);
    DigitsOfValue(b);
    SpellUnspells(time);
    SpellUnspells(rest);
    assert time + rest == t;
  }

  lemma AllCrockford(t: Text)
    requires IsUlid(t)
    ensures forall i :: 0 <= i < |t| ==> IsCrockford(t[i])
  {}

  lemma LeadingDigits(t: Text)
    requires IsUlid(t) && forall i :: 0 <= i < 10 ==> IsCrockford(t[..10][i])
    ensures Unspell(t[..10])[0] < 8
  {
    assert t[..10][0] == t[0];
  }
}
