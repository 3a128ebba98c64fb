// The client key of the limiter: `normalizeClientIp` of packages/web/lib/rate-limit.ts, on trimmed lower-case text.
module ClientIp {
  import opened Prelude
  import opened Text
  import opened Uri

  /** `t.indexOf("::")` */
  function IndexOfDouble(t: Text): (r: Option<nat>)
    ensures r.Some? ==> r.value + 2 <= |t|
  {
    if |t| < 2 then None
    else if t[0] == ':' as int && t[1] == ':' as int then Some(0)
    else match IndexOfDouble(t[1..]) case Some(i) => Some(i + 1) case None => None
  }

  /** `.filter(Boolean)` */
  function NonEmpty(ts: seq<Text>): seq<Text> {
    if ts == [] then [] else (if ts[0] == [] then [] else [ts[0]]) + NonEmpty(ts[1..])
  }

  function Hextets(t: Text): seq<Text> { NonEmpty(Split(t, ':' as int)) }

  function Join(ts: seq<Text>): Text {
    if ts == [] then [] else if |ts| == 1 then ts[0] else ts[0] + [':' as int] + Join(ts[1..])
  }

  function Zeros(n: int): (r: seq<Text>)
    ensures |r| == if n < 0 then 0 else n
    ensures forall i :: 0 <= i < |r| ==> r[i] == T("0")
  {
    if n <= 0 then [] else [T("0")] + Zeros(n - 1)
  }

  function FirstFour(ts: seq<Text>): seq<Text> { if |ts| < 4 then ts else ts[..4] }

  /** What precedes any zone id. */
  function Head(ip: Text): Text {
    match IndexOf(ip, '%' as int) case Some(i) => ip[..i] case None => ip
  }

  function FillIn(left: seq<Text>, right: seq<Text>): seq<Text> {
    left + Zeros(8 - |left| - |right|) + right
  }

  function UpToDouble(t: Text): Text {
    match IndexOfDouble(t) case Some(i) => t[..i] case None => t
  }

  /** The hextets an address spells, with a "::" filled in; further "::" are ignored. */
  function Expanded(head: Text): seq<Text> {
    match IndexOfDouble(head)
    case None => Hextets(head)
    case Some(i) => FillIn(Hextets(head[..i]), Hextets(UpToDouble(head[i + 2..])))
  }

  function Normalize(ip: Text): Text {
    if ':' as int !in ip then ip else Join(FirstFour(Expanded(Head(ip)))) + T("::/64")
  }

  /** An IPv4 address, or any text without a colon, is its own key, and no IPv6 address gets that key. */
  lemma Ipv4KeysAsItself(ip: Text, other: Text)
    requires ':' as int !in ip
    ensures Normalize(ip) == ip
    ensures Normalize(other) == ip ==> other == ip
  {
    if ':' as int in other {
      var t := Normalize(other);
      assert T("::/64")[0] == ':' as int && t[|t| - 5] == T("::/64")[0];
    }
  }

  // ---------------------------------------------------------------- spelling an address

  predicate IsHextet(h: Text) { h != [] && ':' as int !in h && '%' as int !in h }

  predicate AreHextets(hs: seq<Text>) { forall i :: 0 <= i < |hs| ==> IsHextet(hs[i]) }

  /** An address: eight hextets, with zeros from `i` to `j`. */
  predicate IsAddress(hs: seq<Text>, i: nat, j: nat) {
    |hs| == 8 && AreHextets(hs) && i <= j <= 8 && forall k :: i <= k < j ==> hs[k] == T("0")
  }

  /** The key of the /64 an address lies in. */
  function Prefix64(hs: seq<Text>): Text
    requires |hs| == 8
  {
    Join(hs[..4]) + T("::/64")
  }

  /** The spelling that leaves out the zeros from `i` to `j`. */
  function Compressed(hs: seq<Text>, i: nat, j: nat): Text
    requires i <= j <= |hs|
  {
    Join(hs[..i]) + [':' as int, ':' as int] + Join(hs[j..])
  }

  lemma OneHextet(h: Text)
    requires IsHextet(h)
    ensures Hextets(h) == [h]
  {
    SplitSingle(h, ':' as int);
    NonEmptyStep([h]);
  }

  lemma NoHextet()
    ensures Hextets([]) == []
  {
    SplitSingle([], ':' as int);
    NonEmptyStep([[]]);
  }

  lemma NonEmptyStep(ts: seq<Text>)
    requires ts != []
    ensures NonEmpty(ts) == (if ts[0] == [] then NonEmpty(ts[1..]) else [ts[0]] + NonEmpty(ts[1..]))
    ensures |ts| == 1 ==> NonEmpty(ts[1..]) == []
  {}

  lemma {:induction false} JoinSplits(hs: seq<Text>)
    requires AreHextets(hs)
    ensures Hextets(Join(hs)) == hs
  {
    if hs == [] {
      NoHextet();
    } else if |hs| == 1 {
      OneHextet(hs[0]);
    } else {
      var pieces := Split(Join(hs[1..]), ':' as int);
      SplitFirst(hs[0], ':' as int, Join(hs[1..]));
      JoinSplits(hs[1..]);
      NonEmptyStep([hs[0]] + pieces);
      assert ([hs[0]] + pieces)[1..] == pieces;
    }
  }

  /** Joined hextets contain no "::", begin and end with a hextet. */
  lemma {:induction false} JoinIsTight(hs: seq<Text>)
    requires AreHextets(hs)
    ensures IndexOfDouble(Join(hs)).None? && '%' as int !in Join(hs)
    ensures hs != [] ==> Join(hs) != [] && Join(hs)[0] != ':' as int && Join(hs)[|Join(hs)| - 1] != ':' as int
  {
    if |hs| == 1 {
      NoColonNoDouble(hs[0]);
    } else if |hs| > 1 {
      JoinIsTight(hs[1..]);
      DoubleNotIn(hs[0], Join(hs[1..]));
    }
  }

  lemma {:induction false} NoColonNoDouble(t: Text)
    requires ':' as int !in t
    ensures IndexOfDouble(t).None?
  {
    if t != [] { NoColonNoDouble(t[1..]); }
  }

  lemma {:induction false} DoubleNotIn(h: Text, rest: Text)
    requires ':' as int !in h && rest != [] && rest[0] != ':' as int && IndexOfDouble(rest).None?
    ensures IndexOfDouble(h + [':' as int] + rest).None?
  {
    var t := h + [':' as int] + rest;
    if h == [] {
      assert t[1..] == rest;
    } else {
      assert t[0] == h[0] && t[1..] == h[1..] + [':' as int] + rest;
      DoubleNotIn(h[1..], rest);
    }
  }

  lemma {:induction false} DoubleAfter(a: Text, b: Text)
    requires IndexOfDouble(a).None? && (a != [] ==> a[|a| - 1] != ':' as int)
    ensures IndexOfDouble(a + [':' as int, ':' as int] + b) == Some(|a|)
  {
    var t := a + [':' as int, ':' as int] + b;
    if a != [] {
      assert t[0] == a[0] && t[1..] == a[1..] + [':' as int, ':' as int] + b;
      if |a| > 1 { assert t[1] == a[1]; }
      DoubleAfter(a[1..], b);
    }
  }

  lemma ExpandedAround(a: Text, left: seq<Text>, b: Text, right: seq<Text>)
    requires IndexOfDouble(a).None? && (a != [] ==> a[|a| - 1] != ':' as int) && IndexOfDouble(b).None?
    requires Hextets(a) == left && Hextets(b) == right
    ensures Expanded(a + [':' as int, ':' as int] + b) == FillIn(left, right)
  {
    var t := a + [':' as int, ':' as int] + b;
    DoubleAfter(a, b);
    assert t[..|a|] == a && t[|a| + 2..] == b;
    assert UpToDouble(b) == b;
  }

  lemma ZerosBetween(hs: seq<Text>, i: nat, j: nat)
    requires i <= j <= |hs| == 8 && forall k :: i <= k < j ==> hs[k] == T("0")
    ensures FillIn(hs[..i], hs[j..]) == hs
  {
    assert hs[..i] + Zeros(j - i) + hs[j..] == hs;
  }

  lemma FullExpands(hs: seq<Text>)
    requires AreHextets(hs)
    ensures Expanded(Join(hs)) == hs
  {
    JoinIsTight(hs);
    JoinSplits(hs);
  }

  /** The compressed spelling expands to the same eight hextets. */
  lemma CompressedExpands(hs: seq<Text>, i: nat, j: nat)
    requires IsAddress(hs, i, j)
    ensures Expanded(Compressed(hs, i, j)) == hs
  {
    var left, right := hs[..i], hs[j..];
    JoinIsTight(left);
    JoinIsTight(right);
    JoinSplits(left);
    JoinSplits(right);
    ExpandedAround(Join(left), left, Join(right), right);
    ZerosBetween(hs, i, j);
  }

  /** Every compression of a run of zeros, with or without a zone id, gets the key of the full spelling: the first four
      hextets. */
  lemma CompressionInvisible(hs: seq<Text>, i: nat, j: nat, zone: Text)
    requires IsAddress(hs, i, j)
    ensures Normalize(Join(hs)) == Prefix64(hs)
    ensures Normalize(Compressed(hs, i, j)) == Prefix64(hs)
    ensures Normalize(Compressed(hs, i, j) + ['%' as int] + zone) == Prefix64(hs)
  {
    FullExpands(hs);
    CompressedExpands(hs, i, j);
    JoinHasColon(hs);
    JoinIsTight(hs);
    CompressedUnits(hs, i, j);
    WithZone(Compressed(hs, i, j), zone);
    assert FirstFour(hs) == hs[..4];
  }

  lemma CompressedUnits(hs: seq<Text>, i: nat, j: nat)
    requires AreHextets(hs) && i <= j <= |hs|
    ensures ':' as int in Compressed(hs, i, j) && '%' as int !in Compressed(hs, i, j)
  {
    JoinIsTight(hs[..i]);
    JoinIsTight(hs[j..]);
    assert Compressed(hs, i, j)[|Join(hs[..i])|] == ':' as int;
  }

  /** A zone id changes nothing. */
  lemma WithZone(ip: Text, zone: Text)
    requires ':' as int in ip && '%' as int !in ip
    ensures Normalize(ip + ['%' as int] + zone) == Normalize(ip)
  {
    var zoned := ip + ['%' as int] + zone;
    IndexAfter(ip, '%' as int, zone);
    assert zoned[..|ip|] == ip;
    assert ':' as int in zoned[..|ip|];
  }

  lemma JoinHasColon(hs: seq<Text>)
    requires |hs| >= 2
    ensures ':' as int in Join(hs)
  {
    var t := Join(hs);
    assert t == hs[0] + [':' as int] + Join(hs[1..]);
    assert t[|hs[0]|] == ':' as int;
  }

  /** Two addresses, however spelled, get the same key exactly when their first four hextets agree. */
  lemma SameKeyIffSamePrefix(hs: seq<Text>, i: nat, j: nat, gs: seq<Text>, k: nat, l: nat)
    requires IsAddress(hs, i, j) && IsAddress(gs, k, l)
    ensures Normalize(Compressed(hs, i, j)) == Normalize(Compressed(gs, k, l)) <==> hs[..4] == gs[..4]
  {
    hide Join, Normalize, Compressed, IsHextet, Hextets;
    CompressionInvisible(hs, i, j, []);
    CompressionInvisible(gs, k, l, []);
    JoinSplits(hs[..4]);
    JoinSplits(gs[..4]);
    var a, b, suffix := Join(hs[..4]), Join(gs[..4]), T("::/64");
    if a + suffix == b + suffix {
      assert |a| == |b| && a == (a + suffix)[..|a|] && b == (b + suffix)[..|b|];
    }
  }
}
