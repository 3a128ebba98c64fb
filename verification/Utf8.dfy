// TextEncoder: UTF-16 text to UTF-8 bytes. A lone surrogate is encoded as U+FFFD.
module Utf8 {
  import opened Prelude
  import opened Text

  type Byte = i: int | 0 <= i < 0x100
  type Bytes = seq<Byte>

  /** Every surrogate is half of a pair. */
  predicate WellFormed(t: Text) {
    t == []
    || (!IsSurrogate(t[0]) && WellFormed(t[1..]))
    || (|t| >= 2 && IsLead(t[0]) && IsTrail(t[1]) && WellFormed(t[2..]))
  }

  /** How many units the first code point takes. */
  function CodePointLength(t: Text): (n: nat)
    requires t != []
    ensures 0 < n <= |t|
  {
    if |t| >= 2 && IsLead(t[0]) && IsTrail(t[1]) then 2 else 1
  }

  function EncodeUnit(u: Unit): Bytes {
    if u < 0x80 then [u]
    else if u < 0x800 then [0xC0 + u / 64, 0x80 + u % 64]
    else [0xE0 + u / 64 / 64, 0x80 + u / 64 % 64, 0x80 + u % 64]
  }

  function EncodePair(lead: Unit, trail: Unit): Bytes
    requires IsLead(lead) && IsTrail(trail)
  {
    var c := 0x10000 + (lead - 0xD800) * 1024 + (trail - 0xDC00);
    [0xF0 + c / 64 / 64 / 64, 0x80 + c / 64 / 64 % 64, 0x80 + c / 64 % 64, 0x80 + c % 64]
  }

  function EncodeFirst(t: Text): (bs: Bytes)
    requires t != []
  {
    if CodePointLength(t) == 2 then EncodePair(t[0], t[1])
    else if IsSurrogate(t[0]) then EncodeUnit(0xFFFD)
    else EncodeUnit(t[0])
  }

  function Encode(t: Text): Bytes {
    if t == [] then [] else EncodeFirst(t) + Encode(t[CodePointLength(t)..])
  }

  // ---------------------------------------------------------------- strict decoding

  predicate IsContinuation(b: Byte) { 0x80 <= b < 0xC0 }

  function One(u: Unit): Text { [u] }

  function PairOf(c: int): Text
    requires 0x10000 <= c < 0x110000
  {
    [0xD800 + (c - 0x10000) / 1024, 0xDC00 + (c - 0x10000) % 1024]
  }

  /** The code point spelled by a leading byte with its marker removed and continuation bytes. */
  function Assemble(lead: int, continuation: Bytes): int {
    if continuation == [] then lead
    else
      var low: int := continuation[|continuation| - 1];
      Assemble(lead, continuation[..|continuation| - 1]) * 64 + (low - 0x80)
  }

  predicate Continues(bs: Bytes, n: nat) {
    |bs| >= n && forall i :: 1 <= i < n ==> IsContinuation(bs[i])
  }

  /** The code point at the front as text, and how many bytes it takes; None for bytes that are not UTF-8. */
  function DecodeFirst(bs: Bytes): (r: Option<(Text, nat)>)
    requires bs != []
    ensures r.Some? ==> 0 < r.value.1 <= |bs| && r.value.0 != []
  {
    if bs[0] < 0x80 then Some((One(bs[0]), 1))
    else if 0xC0 <= bs[0] < 0xE0 && Continues(bs, 2) then
      var c := Assemble(bs[0] - 0xC0, bs[1..2]);
      if 0x80 <= c < 0x800 then Some((One(c), 2)) else None
    else if 0xE0 <= bs[0] < 0xF0 && Continues(bs, 3) then
      var c := Assemble(bs[0] - 0xE0, bs[1..3]);
      if 0x800 <= c < 0x10000 && !IsSurrogate(c) then Some((One(c), 3)) else None
    else if 0xF0 <= bs[0] < 0xF8 && Continues(bs, 4) then
      var c := Assemble(bs[0] - 0xF0, bs[1..4]);
      if 0x10000 <= c < 0x110000 then Some((PairOf(c), 4)) else None
    else None
  }

  function Decode(bs: Bytes): Option<Text> {
    if bs == [] then Some([])
    else
      match DecodeFirst(bs)
      case None => None
      case Some((t, n)) =>
        match Decode(bs[n..]) case Some(rest) => Some(t + rest) case None => None
  }

  lemma AssembleOne(lead: int, a: Byte)
    ensures Assemble(lead, [a]) == lead * 64 + (a - 0x80)
  {
    assert [a][..0] == [];
  }

  lemma AssembleTwo(lead: int, a: Byte, b: Byte)
    ensures Assemble(lead, [a, b]) == (lead * 64 + (a - 0x80)) * 64 + (b - 0x80)
  {
    assert [a, b][..1] == [a];
    AssembleOne(lead, a);
  }

  lemma AssembleThree(lead: int, a: Byte, b: Byte, c: Byte)
    ensures Assemble(lead, [a, b, c]) == ((lead * 64 + (a - 0x80)) * 64 + (b - 0x80)) * 64 + (c - 0x80)
  {
    assert [a, b, c][..2] == [a, b];
    AssembleTwo(lead, a, b);
  }

  lemma UnitDecodes(u: Unit, rest: Bytes)
    requires !IsSurrogate(u)
    ensures DecodeFirst(EncodeUnit(u) + rest) == Some(([u], |EncodeUnit(u)|))
  {
    var e := EncodeUnit(u);
    var bs := e + rest;
    assert bs[..|e|] == e;
    if 0x80 <= u < 0x800 {
      AssembleOne(u / 64, e[1]);
      assert bs[1..2] == [e[1]];
    } else if u >= 0x800 {
      AssembleTwo(u / 64 / 64, e[1], e[2]);
      assert bs[1..3] == [e[1], e[2]];
    }
  }

  lemma PairDecodes(lead: Unit, trail: Unit, rest: Bytes)
    requires IsLead(lead) && IsTrail(trail)
    ensures DecodeFirst(EncodePair(lead, trail) + rest) == Some(([lead, trail], 4))
  {
    var e := EncodePair(lead, trail);
    var c := 0x10000 + (lead - 0xD800) * 1024 + (trail - 0xDC00);
    var bs := e + rest;
    AssembleThree(c / 64 / 64 / 64, e[1], e[2], e[3]);
    assert bs[1..4] == [e[1], e[2], e[3]];
    PairOfRecovers(lead, trail);
  }

  lemma PairOfRecovers(lead: Unit, trail: Unit)
    requires IsLead(lead) && IsTrail(trail)
    ensures 0x10000 <= 0x10000 + (lead - 0xD800) * 1024 + (trail - 0xDC00) < 0x110000
    ensures PairOf(0x10000 + (lead - 0xD800) * 1024 + (trail - 0xDC00)) == [lead, trail]
  {}

  /** Well-formed text survives encoding and strict decoding. */
  lemma {:induction false} DecodeOfEncode(t: Text)
    requires WellFormed(t)
    ensures Decode(Encode(t)) == Some(t)
  {
    if t != [] {
      var n := CodePointLength(t);
      FirstDecodes(t, Encode(t[n..]));
      DecodeOfEncode(t[n..]);
      assert t == t[..n] + t[n..];
    }
  }

  lemma FirstDecodes(t: Text, rest: Bytes)
    requires WellFormed(t) && t != []
    ensures DecodeFirst(EncodeFirst(t) + rest) == Some((t[..CodePointLength(t)], |EncodeFirst(t)|))
    ensures (EncodeFirst(t) + rest)[|EncodeFirst(t)|..] == rest
  {
    if CodePointLength(t) == 2 {
      PairDecodes(t[0], t[1], rest);
      assert t[..2] == [t[0], t[1]];
    } else {
      UnitDecodes(t[0], rest);
      assert t[..1] == [t[0]];
    }
  }

  lemma {:induction false} WellFormedConcat(a: Text, b: Text)
    requires WellFormed(a) && WellFormed(b)
    ensures WellFormed(a + b)
  {
    if a == [] {
      assert a + b == b;
    } else {
      var n := CodePointLength(a);
      assert (a + b)[n..] == a[n..] + b;
      assert (a + b)[0] == a[0];
      if n == 2 { assert (a + b)[1] == a[1]; }
      WellFormedConcat(a[n..], b);
    }
  }

  lemma {:induction false} NoSurrogatesWellFormed(t: Text)
    requires forall i :: 0 <= i < |t| ==> !IsSurrogate(t[i])
    ensures WellFormed(t)
  {
    if t != [] { NoSurrogatesWellFormed(t[1..]); }
  }

  // ---------------------------------------------------------------- only encodings decode

  /** A code point on its own. */
  predicate IsOne(t: Text) { t != [] && WellFormed(t) && CodePointLength(t) == |t| }

  lemma UnitIsOne(u: Unit)
    requires !IsSurrogate(u)
    ensures IsOne([u]) && EncodeFirst([u]) == EncodeUnit(u)
  {
    assert [u][1..] == [];
  }

  lemma PairIsOne(lead: Unit, trail: Unit)
    requires IsLead(lead) && IsTrail(trail)
    ensures IsOne([lead, trail]) && EncodeFirst([lead, trail]) == EncodePair(lead, trail)
  {
    assert [lead, trail][2..] == [];
  }

  /** The first code point decoded is one, and encodes to the bytes it was read from. */
  lemma FirstEncodes(bs: Bytes)
    requires bs != [] && DecodeFirst(bs).Some?
    ensures IsOne(DecodeFirst(bs).value.0) && EncodeFirst(DecodeFirst(bs).value.0) == bs[..DecodeFirst(bs).value.1]
  {
    hide Assemble, IsOne, EncodeFirst, EncodePair, PairOf;
    if bs[0] < 0x80 {
      assert bs[..1] == [bs[0]];
      UnitIsOne(bs[0]);
    } else if bs[0] < 0xE0 {
      assert bs[1..2] == [bs[1]] && bs[..2] == [bs[0], bs[1]];
      AssembleOne(bs[0] - 0xC0, bs[1]);
      UnitIsOne((bs[0] as int - 0xC0) * 64 + (bs[1] as int - 0x80));
    } else if bs[0] < 0xF0 {
      assert bs[1..3] == [bs[1], bs[2]] && bs[..3] == [bs[0], bs[1], bs[2]];
      AssembleTwo(bs[0] - 0xE0, bs[1], bs[2]);
      ThreeBytes(bs[0], bs[1], bs[2]);
      UnitIsOne(((bs[0] as int - 0xE0) * 64 + (bs[1] as int - 0x80)) * 64 + (bs[2] as int - 0x80));
    } else {
      assert bs[1..4] == [bs[1], bs[2], bs[3]] && bs[..4] == [bs[0], bs[1], bs[2], bs[3]];
      AssembleThree(bs[0] - 0xF0, bs[1], bs[2], bs[3]);
      FourBytes(bs[0], bs[1], bs[2], bs[3]);
    }
  }

  /** Appending six bits and taking them off again. */
  lemma SixBits(high: nat, low: nat)
    requires low < 64
    ensures (high * 64 + low) / 64 == high && (high * 64 + low) % 64 == low
  {}

  lemma ThreeBytes(a: Byte, b: Byte, c: Byte)
    requires 0xE0 <= a < 0xF0 && IsContinuation(b) && IsContinuation(c)
    ensures var u := ((a - 0xE0) * 64 + (b - 0x80)) * 64 + (c - 0x80);
            u / 64 == (a - 0xE0) * 64 + (b - 0x80) && u % 64 == c - 0x80 && u / 64 / 64 == a - 0xE0
            && u / 64 % 64 == b - 0x80
  {
    SixBits(a - 0xE0, b - 0x80);
    SixBits((a - 0xE0) * 64 + (b - 0x80), c - 0x80);
  }

  lemma PairOfIs(c: int)
    requires 0x10000 <= c < 0x110000
    ensures var t := PairOf(c);
            IsLead(t[0]) && IsTrail(t[1]) && t == [t[0], t[1]]
            && 0x10000 + (t[0] as int - 0xD800) * 1024 + (t[1] as int - 0xDC00) == c
  {}

  lemma FourBytes(a: Byte, b: Byte, c: Byte, d: Byte)
    requires 0xF0 <= a < 0xF8 && IsContinuation(b) && IsContinuation(c) && IsContinuation(d)
    requires 0x10000 <= (((a - 0xF0) * 64 + (b - 0x80)) * 64 + (c - 0x80)) * 64 + (d - 0x80) < 0x110000
    ensures var t := PairOf((((a - 0xF0) * 64 + (b - 0x80)) * 64 + (c - 0x80)) * 64 + (d - 0x80));
            IsOne(t) && EncodeFirst(t) == [a, b, c, d]
  {
    hide PairOf, IsOne, EncodeFirst;
    var x := (a - 0xF0) * 64 + (b - 0x80);
    var y := x * 64 + (c - 0x80);
    SixBits(a - 0xF0, b - 0x80);
    SixBits(x, c - 0x80);
    SixBits(y, d - 0x80);
    var t := PairOf(y * 64 + (d - 0x80));
    PairOfIs(y * 64 + (d - 0x80));
    PairIsOne(t[0], t[1]);
    PairBytes(t[0], t[1], y * 64 + (d - 0x80));
  }

  lemma PairBytes(lead: Unit, trail: Unit, c: int)
    requires IsLead(lead) && IsTrail(trail) && 0x10000 + (lead - 0xD800) * 1024 + (trail - 0xDC00) == c
    ensures EncodePair(lead, trail)
         == [0xF0 + c / 64 / 64 / 64, 0x80 + c / 64 / 64 % 64, 0x80 + c / 64 % 64, 0x80 + c % 64]
  {}

  lemma EncodeAfter(t: Text, rest: Text)
    requires IsOne(t)
    ensures Encode(t + rest) == EncodeFirst(t) + Encode(rest)
  {
    assert (t + rest)[0] == t[0] && (|t| == 2 ==> (t + rest)[1] == t[1]);
    assert (t + rest)[|t|..] == rest;
  }

  /** Strict decoding accepts nothing but encodings of well-formed text: no overlong form, no surrogate, nothing cut
      off. */
  lemma {:induction false} EncodeOfDecode(bs: Bytes)
    requires Decode(bs).Some?
    ensures WellFormed(Decode(bs).value) && Encode(Decode(bs).value) == bs
  {
    hide DecodeFirst, EncodeFirst;
    if bs != [] {
      var (t, n) := DecodeFirst(bs).value;
      var rest := Decode(bs[n..]).value;
      FirstEncodes(bs);
      EncodeOfDecode(bs[n..]);
      WellFormedConcat(t, rest);
      EncodeAfter(t, rest);
      assert bs == bs[..n] + bs[n..];
    }
  }
}
