// String searching and percent-encoding (section 2.1 of RFC 3986, section 19.2.6 of ECMA-262).
module Uri {
  import opened Prelude
  import opened Text
  import opened Utf8

  // ---------------------------------------------------------------- searching

  /** `t.indexOf(u)` */
  function IndexOf(t: Text, u: Unit): (r: Option<nat>)
    ensures r.Some? ==> r.value < |t| && t[r.value] == u && u !in t[..r.value]
    ensures r.None? <==> u !in t
  {
    if t == [] then None
    else if t[0] == u then Some(0)
    else match IndexOf(t[1..], u) case Some(i) => Some(i + 1) case None => None
  }

  /** `t.indexOf("://")` */
  function SchemeEnd(t: Text): (r: Option<nat>)
    ensures r.Some? ==> r.value + 3 <= |t|
    ensures r.None? ==> forall i :: 0 <= i <= |t| ==> !StartsWith(t[i..], T("://"))
  {
    if StartsWith(t, T("://")) then Some(0)
    else if t == [] then None
    else
      match SchemeEnd(t[1..])
      case Some(i) => Some(i + 1)
      case None =>
        assert forall i :: 0 < i <= |t| ==> t[i..] == t[1..][i - 1..];
        None
  }

  /** What follows the last occurrence of `u`; the whole text if there is none. */
  function AfterLast(t: Text, u: Unit): (r: Text)
    ensures u !in r
  {
    match IndexOf(t, u) case None => t case Some(i) => AfterLast(t[i + 1..], u)
  }

  /** `t.split(u)` */
  function Split(t: Text, u: Unit): (r: seq<Text>)
    ensures r != []
  {
    match IndexOf(t, u) case None => [t] case Some(i) => [t[..i]] + Split(t[i + 1..], u)
  }

  lemma {:induction false} SplitSingle(t: Text, u: Unit)
    requires u !in t
    ensures Split(t, u) == [t]
  {}

  lemma {:induction false} IndexAfter(a: Text, u: Unit, b: Text)
    requires u !in a
    ensures IndexOf(a + [u] + b, u) == Some(|a|)
  {
    if a == [] {
      assert a + [u] + b == [u] + b;
    } else {
      assert (a + [u] + b)[1..] == a[1..] + [u] + b;
      IndexAfter(a[1..], u, b);
    }
  }

  lemma {:induction false} SchemeEndAfter(a: Text, b: Text)
    requires ':' as int !in a
    ensures SchemeEnd(a + T("://") + b) == Some(|a|)
  {
    var t := a + T("://") + b;
    if a == [] {
      assert t[..3] == T("://");
    } else {
      assert t[0] == a[0] && t[..3][0] == t[0];
      assert t[1..] == a[1..] + T("://") + b;
      SchemeEndAfter(a[1..], b);
    }
  }

  lemma {:induction false} NoColonNoScheme(t: Text)
    requires ':' as int !in t
    ensures SchemeEnd(t).None?
  {
    if t != [] {
      PrefixAt(t, T("://"), 0);
      NoColonNoScheme(t[1..]);
    }
  }

  lemma {:induction false} IndexAtMost(t: Text, u: Unit, k: nat)
    requires k < |t| && t[k] == u
    ensures IndexOf(t, u).Some? && IndexOf(t, u).value <= k
  {
    if t[0] != u { IndexAtMost(t[1..], u, k - 1); }
  }

  lemma {:induction false} AfterLastOf(a: Text, u: Unit, b: Text)
    requires u !in b
    ensures AfterLast(a + [u] + b, u) == b
    decreases |a|
  {
    var t := a + [u] + b;
    IndexAtMost(t, u, |a|);
    var i := IndexOf(t, u).value;
    if i < |a| {
      assert t[i + 1..] == a[i + 1..] + [u] + b;
      AfterLastOf(a[i + 1..], u, b);
    } else {
      assert t[i + 1..] == b;
    }
  }

  lemma SplitFirst(a: Text, u: Unit, b: Text)
    requires u !in a
    ensures Split(a + [u] + b, u) == [a] + Split(b, u)
  {
    IndexAfter(a, u, b);
    assert (a + [u] + b)[..|a|] == a && (a + [u] + b)[|a| + 1..] == b;
  }

  // ---------------------------------------------------------------- percent-encoding

  /** What `encodeURIComponent` leaves as it is. */
  predicate IsUnreserved(u: Unit) {
    || 'A' as int <= u <= 'Z' as int || 'a' as int <= u <= 'z' as int || '0' as int <= u <= '9' as int
    || u == '-' as int || u == '_' as int || u == '.' as int || u == '!' as int || u == '~' as int
    || u == '*' as int || u == '\'' as int || u == '(' as int || u == ')' as int
  }

  function UpperHexDigit(d: nat): Unit
    requires d < 16
  {
    if d < 10 then '0' as int + d else 'A' as int + (d - 10)
  }

  function PercentByte(b: Byte): (t: Text)
    ensures |t| == 3
  {
    ['%' as int, UpperHexDigit(b / 16), UpperHexDigit(b % 16)]
  }

  function PercentBytes(bs: Bytes): (t: Text)
    ensures |t| == 3 * |bs|
  {
    if bs == [] then [] else PercentByte(bs[0]) + PercentBytes(bs[1..])
  }

  /** `encodeURIComponent`; None where it throws, on a lone surrogate. */
  function EncodeComponent(t: Text): Option<Text> {
    if t == [] then Some([])
    else
      var n := CodePointLength(t);
      if n == 1 && IsSurrogate(t[0]) then None else
      match EncodeComponent(t[n..])
      case None => None
      case Some(rest) => Some((if IsUnreserved(t[0]) then [t[0]] else PercentBytes(EncodeFirst(t))) + rest)
  }

  function HexDigitValue(u: Unit): Option<nat> {
    if '0' as int <= u <= '9' as int then Some(u - '0' as int)
    else if 'a' as int <= u <= 'f' as int then Some(u - 'a' as int + 10)
    else if 'A' as int <= u <= 'F' as int then Some(u - 'A' as int + 10)
    else None
  }

  /** The byte a `%XX` at the front spells. */
  function EscapedByte(t: Text): (r: Option<Byte>)
    ensures r.Some? ==> |t| >= 3
  {
    if |t| < 3 || t[0] != '%' as int then None else
    match (HexDigitValue(t[1]), HexDigitValue(t[2]))
    case (Some(a), Some(b)) => if a < 16 && b < 16 then Some(a * 16 + b) else None
    case _ => None
  }

  /** `n` escapes in a row. */
  function EscapedBytes(t: Text, n: nat): (r: Option<Bytes>)
    ensures r.Some? ==> |r.value| == n && |t| >= 3 * n
  {
    if n == 0 then Some([]) else
    match EscapedByte(t)
    case None => None
    case Some(b) =>
      match EscapedBytes(t[3..], n - 1) case Some(bs) => Some([b] + bs) case None => None
  }

  /** How many octets a leading octet announces; 0 if it cannot lead. */
  function OctetCount(b: Byte): (n: nat)
    ensures n <= 4
  {
    if b < 0x80 then 1
    else if b < 0xC0 then 0
    else if b < 0xE0 then 2
    else if b < 0xF0 then 3
    else if b < 0xF8 then 4
    else 0
  }

  /** `decodeURIComponent`; None where it throws. */
  function DecodeComponent(t: Text): Option<Text> {
    if t == [] then Some([])
    else if t[0] != '%' as int then
      match DecodeComponent(t[1..]) case Some(rest) => Some([t[0]] + rest) case None => None
    else
      match EscapedByte(t)
      case None => None
      case Some(b) =>
        var n := OctetCount(b);
        if n == 0 then None else
        match EscapedBytes(t, n)
        case None => None
        case Some(octets) =>
          match DecodeFirst(octets)
          case None => None
          case Some((units, _)) =>
            match DecodeComponent(t[3 * n..]) case Some(rest) => Some(units + rest) case None => None
  }

  /** Text without a percent sign decodes to itself. */
  lemma {:induction false} DecodeWithoutPercent(t: Text)
    requires '%' as int !in t
    ensures DecodeComponent(t) == Some(t)
  {
    if t != [] {
      DecodeWithoutPercent(t[1..]);
      assert t == [t[0]] + t[1..];
    }
  }

  lemma {:induction false} EscapesReadBack(bs: Bytes, rest: Text)
    ensures EscapedBytes(PercentBytes(bs) + rest, |bs|) == Some(bs)
    ensures bs != [] ==>
              EscapedByte(PercentBytes(bs) + rest) == Some(bs[0]) && (PercentBytes(bs) + rest)[0] == '%' as int
  {
    if bs != [] {
      var t := PercentBytes(bs) + rest;
      assert t == PercentByte(bs[0]) + (PercentBytes(bs[1..]) + rest);
      assert t[3..] == PercentBytes(bs[1..]) + rest;
      EscapesReadBack(bs[1..], rest);
      assert bs[0] / 16 * 16 + bs[0] % 16 == bs[0];
      assert bs == [bs[0]] + bs[1..];
    }
  }

  lemma FirstOctetCounts(t: Text)
    requires t != [] && WellFormed(t)
    ensures OctetCount(EncodeFirst(t)[0]) == |EncodeFirst(t)|
  {}

  /** Decoding once undoes encoding once, for every text encoding accepts. */
  lemma {:induction false} DecodeOfEncodeComponent(t: Text)
    requires WellFormed(t)
    ensures EncodeComponent(t).Some? && DecodeComponent(EncodeComponent(t).value) == Some(t)
  {
    if t != [] {
      var n := CodePointLength(t);
      DecodeOfEncodeComponent(t[n..]);
      var rest := EncodeComponent(t[n..]).value;
      if IsUnreserved(t[0]) {
        assert ([t[0]] + rest)[1..] == rest;
        assert t == [t[0]] + t[1..];
      } else {
        var octets := EncodeFirst(t);
        EscapesReadBack(octets, rest);
        FirstOctetCounts(t);
        FirstDecodes(t, []);
        assert octets + [] == octets;
        assert (PercentBytes(octets) + rest)[3 * |octets|..] == rest;
        assert t == t[..n] + t[n..];
      }
    }
  }

  predicate IsEncodedUnit(u: Unit) { IsUnreserved(u) || u == '%' as int }

  lemma {:induction false} PercentBytesUnits(bs: Bytes)
    ensures forall i :: 0 <= i < |PercentBytes(bs)| ==> IsEncodedUnit(PercentBytes(bs)[i])
    ensures bs != [] ==> PercentBytes(bs)[0] == '%' as int
  {
    if bs != [] { PercentBytesUnits(bs[1..]); }
  }

  /** An encoded text holds unreserved units and percent signs only, and a percent sign if anything was escaped. */
  lemma {:induction false} EncodedUnitsOf(t: Text)
    requires EncodeComponent(t).Some?
    ensures forall i :: 0 <= i < |EncodeComponent(t).value| ==> IsEncodedUnit(EncodeComponent(t).value[i])
    ensures (exists i :: 0 <= i < |t| && !IsUnreserved(t[i])) ==> '%' as int in EncodeComponent(t).value
  {
    if t != [] {
      var n := CodePointLength(t);
      var rest := EncodeComponent(t[n..]).value;
      var first := if IsUnreserved(t[0]) then [t[0]] else PercentBytes(EncodeFirst(t));
      EncodedUnitsOf(t[n..]);
      PercentBytesUnits(EncodeFirst(t));
      assert EncodeComponent(t).value == first + rest;
      if IsUnreserved(t[0]) {
        forall i | 0 <= i < |t| && !IsUnreserved(t[i]) ensures '%' as int in first + rest {
          assert t[n..][i - n] == t[i];
        }
      } else {
        assert (first + rest)[0] == '%' as int;
      }
    }
  }
}
