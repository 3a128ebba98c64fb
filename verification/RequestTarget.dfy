// The raw request target of a key lookup: packages/api/src/raw-key-target.ts.
module RequestTarget {
  import opened Prelude
  import opened Text
  import opened Uri
  import opened Utf8

  /** The fixed public error sentences (`KEY_ERROR_MESSAGES`). */
  datatype Message =
    | MissingKeyId | DuplicateKeyId | Fragment | DoubleEncoded | PathNotLiteral
    | MalformedEscape | TargetDisagreement | BadWireForm | BadLogicalForm

  datatype Target = Target(path: Text, query: Text)

  /** Any target spelling reduced to `/path?query`; the first "://" anywhere counts as a scheme. */
  function OriginForm(url: Text): Text {
    match SchemeEnd(url)
    case None => url
    case Some(schemeEnd) =>
      var after := url[schemeEnd + 3..];
      match IndexOf(after, '/' as int) case None => T("/") case Some(slash) => after[slash..]
  }

  function SplitTarget(url: Text): Result<Target, Message> {
    var target := OriginForm(url);
    if '#' as int in target then Err(Fragment) else
    match IndexOf(target, '?' as int)
    case None => Ok(Target(target, []))
    case Some(q) => Ok(Target(target[..q], target[q + 1..]))
  }

  /** The text before the first '?', all of it if there is none. */
  function PathOf(target: Text): Text {
    match IndexOf(target, '?' as int) case None => target case Some(q) => target[..q]
  }

  /** The text after the first '?'. */
  function QueryOf(target: Text): Text {
    match IndexOf(target, '?' as int) case None => [] case Some(q) => target[q + 1..]
  }

  lemma SplitByText(url: Text)
    ensures var t := OriginForm(url);
            SplitTarget(url) == if '#' as int in t then Err(Fragment) else Ok(Target(PathOf(t), QueryOf(t)))
  {
    hide OriginForm;
  }

  /** `/%23/i.test(t)` */
  predicate HasEncodedHash(t: Text) {
    StartsWith(t, T("%23")) || (t != [] && HasEncodedHash(t[1..]))
  }

  /** The last path segment, refused if it carries any percent-escape. */
  function PathSegment(url: Text): Result<Text, Message> {
    var split :- SplitTarget(url);
    var segment := AfterLast(split.path, '/' as int);
    if HasEncodedHash(segment) then Err(Fragment)
    else if '%' as int in segment then Err(PathNotLiteral)
    else Ok(segment)
  }

  // ---------------------------------------------------------------- the query

  function PairName(pair: Text): Text {
    match IndexOf(pair, '=' as int) case None => pair case Some(eq) => pair[..eq]
  }

  function PairValue(pair: Text): Text {
    match IndexOf(pair, '=' as int) case None => [] case Some(eq) => pair[eq + 1..]
  }

  predicate NamesKeyId(pair: Text) { PairName(pair) == T("key_id") }

  /** One `key_id` value decoded exactly once. */
  function DecodedValue(pair: Text): Result<Text, Message> {
    var raw := PairValue(pair);
    if HasEncodedHash(raw) then Err(Fragment) else
    match DecodeComponent(raw) case Some(v) => Ok(v) case None => Err(MalformedEscape)
  }

  /** A pair named `key_id` whose value holds `%23` or does not decode. */
  predicate FaultyKeyId(pair: Text) {
    NamesKeyId(pair) && (HasEncodedHash(PairValue(pair)) || DecodeComponent(PairValue(pair)).None?)
  }

  /** The decoded values of the pairs named `key_id`, in order, or the first one's failure. */
  function ValuesOf(pairs: seq<Text>): Result<seq<Text>, Message> {
    if pairs == [] then Ok([])
    else if !NamesKeyId(pairs[0]) then ValuesOf(pairs[1..])
    else
      var first :- DecodedValue(pairs[0]);
      var rest :- ValuesOf(pairs[1..]);
      Ok([first] + rest)
  }

  function QueryValues(url: Text): Result<seq<Text>, Message> {
    var split :- SplitTarget(url);
    ValuesOf(Split(split.query, '&' as int))
  }

  /** `rawKeyQueryValues`: the loop over the pairs of the query. */
  method RawKeyQueryValues(url: Text) returns (r: Result<seq<Text>, Message>)
    ensures r == QueryValues(url)
  {
    var split := SplitTarget(url);
    if split.Err? { return Err(split.error); }
    var values: seq<Text> := [];
    var pairs := Split(split.value.query, '&' as int);
    ghost var all := ValuesOf(pairs);
    if all.Ok? { assert [] + all.value == all.value; }
    for i := 0 to |pairs|
      invariant Collecting(all, values, ValuesOf(pairs[i..]))
    {
      var pair := pairs[i];
      assert pairs[i..][0] == pair && pairs[i..][1..] == pairs[i + 1..];
      CollectStep(all, values, pairs[i..]);
      if |pair| == 0 { continue; }
      var eq := IndexOf(pair, '=' as int);
      var rawName := if eq.None? then pair else pair[..eq.value];
      if rawName != T("key_id") { continue; }
      var rawValue := if eq.None? then [] else pair[eq.value + 1..];
      if HasEncodedHash(rawValue) { return Err(Fragment); }
      var decoded := DecodeComponent(rawValue);
      if decoded.None? { return Err(MalformedEscape); }
      values := values + [decoded.value];
    }
    assert pairs[|pairs|..] == [];
    if all.Ok? { assert values + [] == values; }
    r := Ok(values);
  }

  /** `values` followed by what the remaining pairs give is the whole result. */
  ghost predicate Collecting(all: Result<seq<Text>, Message>, values: seq<Text>, rest: Result<seq<Text>, Message>) {
    match all
    case Ok(vs) => rest.Ok? && values + rest.value == vs
    case Err(e) => rest == Err(e)
  }

  lemma CollectStep(all: Result<seq<Text>, Message>, values: seq<Text>, pairs: seq<Text>)
    requires pairs != [] && Collecting(all, values, ValuesOf(pairs))
    ensures !NamesKeyId(pairs[0]) ==> Collecting(all, values, ValuesOf(pairs[1..]))
    ensures NamesKeyId(pairs[0]) && DecodedValue(pairs[0]).Err? ==> all == Err(DecodedValue(pairs[0]).error)
    ensures NamesKeyId(pairs[0]) && DecodedValue(pairs[0]).Ok? ==>
              Collecting(all, values + [DecodedValue(pairs[0]).value], ValuesOf(pairs[1..]))
    ensures pairs[0] == [] ==> !NamesKeyId(pairs[0])
  {
    if NamesKeyId(pairs[0]) && all.Ok? {
      var v, rest := DecodedValue(pairs[0]).value, ValuesOf(pairs[1..]).value;
      assert values + ([v] + rest) == values + [v] + rest;
    }
  }

  /** What follows `/v1/keys` is nothing but a slash. */
  predicate IsCollectionPath(path: Text) {
    var rest := if |path| < 8 then [] else path[8..];
    rest == [] || rest == T("/")
  }

  function ErrorOf<A>(r: Result<A, Message>): Option<Message> {
    match r case Ok(_) => None case Err(m) => Some(m)
  }

  /** The sentence a `/v1/keys` target fails with before any handler runs, or None. */
  function TargetFailure(url: Text): Option<Message> {
    match SplitTarget(url)
    case Err(m) => Some(m)
    case Ok(split) => if IsCollectionPath(split.path) then ErrorOf(QueryValues(url)) else ErrorOf(PathSegment(url))
  }

  /** Decoding once brings out no '#' that was not there, raw or as `%23`. */
  lemma {:induction false} DecodingHidesNoHash(t: Text)
    requires '#' as int !in t && !HasEncodedHash(t)
    ensures DecodeComponent(t).Some? ==> '#' as int !in DecodeComponent(t).value
  {
    if t != [] && DecodeComponent(t).Some? {
      if t[0] != '%' as int {
        DecodingHidesNoHash(t[1..]);
      } else {
        var n := OctetCount(EscapedByte(t).value);
        NoHashLater(t, 3 * n);
        DecodingHidesNoHash(t[3 * n..]);
        FirstHidesNoHash(t, n);
      }
    }
  }

  lemma {:induction false} NoHashLater(t: Text, n: nat)
    requires n <= |t| && '#' as int !in t && !HasEncodedHash(t)
    ensures '#' as int !in t[n..] && !HasEncodedHash(t[n..])
  {
    if n > 0 {
      NoHashLater(t[1..], n - 1);
      assert t[1..][n - 1..] == t[n..];
    }
  }

  lemma FirstHidesNoHash(t: Text, n: nat)
    requires t != [] && t[0] == '%' as int && !HasEncodedHash(t)
    requires EscapedByte(t).Some? && n == OctetCount(EscapedByte(t).value) && n > 0
    requires EscapedBytes(t, n).Some? && DecodeFirst(EscapedBytes(t, n).value).Some?
    ensures '#' as int !in DecodeFirst(EscapedBytes(t, n).value).value.0
  {
    var octets := EscapedBytes(t, n).value;
    assert octets[0] == EscapedByte(t).value;
    HashOctet(t);
  }

  lemma HashOctet(t: Text)
    requires EscapedByte(t).Some?
    ensures EscapedByte(t).value == '#' as int ==> StartsWith(t, T("%23"))
  {
    assert T("%23") == ['%' as int, '2' as int, '3' as int];
    assert EscapedByte(t).value == '#' as int ==> t[1] == '2' as int && t[2] == '3' as int;
  }

  lemma {:induction false} EscapesHideNoHash(bs: Bytes, rest: Text)
    requires 0x23 !in bs && !HasEncodedHash(rest)
    ensures !HasEncodedHash(PercentBytes(bs) + rest)
  {
    if bs == [] {
      assert PercentBytes(bs) + rest == rest;
    } else {
      var more := PercentBytes(bs[1..]) + rest;
      EscapesHideNoHash(bs[1..], rest);
      assert PercentBytes(bs) + rest == PercentByte(bs[0]) + more;
      OneEscapeHidesNoHash(bs[0], more);
    }
  }

  lemma OneEscapeHidesNoHash(b: Byte, rest: Text)
    requires b != 0x23 && !HasEncodedHash(rest)
    ensures !HasEncodedHash(PercentByte(b) + rest)
  {
    var t := PercentByte(b) + rest;
    assert t[3..] == rest && t[2..] == [t[2]] + t[3..] && t[1..] == [t[1]] + t[2..];
    UnitHidesNoHash(t[2], t[3..]);
    UnitHidesNoHash(t[1], t[2..]);
    PrefixAt(t, T("%23"), 1);
    PrefixAt(t, T("%23"), 2);
    assert T("%23") == ['%' as int, '2' as int, '3' as int];
    assert b == b / 16 * 16 + b % 16;
  }

  lemma UnitHidesNoHash(u: Unit, rest: Text)
    requires u != '%' as int && !HasEncodedHash(rest)
    ensures !HasEncodedHash([u] + rest)
  {
    var t := [u] + rest;
    PrefixAt(t, T("%23"), 0);
    assert t[1..] == rest;
  }

  /** Encoding brings in no `%23` unless there was a '#'. */
  lemma {:induction false} EncodingHidesNoHash(t: Text)
    requires EncodeComponent(t).Some? && '#' as int !in t
    ensures !HasEncodedHash(EncodeComponent(t).value)
  {
    if t != [] {
      var n := CodePointLength(t);
      var rest := EncodeComponent(t[n..]).value;
      EncodingHidesNoHash(t[n..]);
      if IsUnreserved(t[0]) { UnitHidesNoHash(t[0], rest); } else { EscapesHideNoHash(EncodeFirst(t), rest); }
    }
  }

  // ---------------------------------------------------------------- origin form

  /** Reduction leaves a target alone exactly when it contains no "://" at all, not only none at its start. */
  lemma OriginFormFixes(url: Text)
    ensures OriginForm(url) == url <==> SchemeEnd(url).None?
  {
    match SchemeEnd(url)
    case None =>
    case Some(i) =>
      assert |url| >= 3;
      assert |T("/")| == 1;
  }

  lemma AfterScheme(scheme: Text, after: Text)
    ensures |scheme| + 3 <= |scheme + T("://") + after| && (scheme + T("://") + after)[|scheme| + 3..] == after
  {}

  lemma ReduceStep(url: Text, i: nat, j: nat)
    requires SchemeEnd(url) == Some(i) && IndexOf(url[i + 3..], '/' as int) == Some(j)
    ensures OriginForm(url) == url[i + 3..][j..]
  {
    hide SchemeEnd, IndexOf, T;
  }

  /** A URL mentioned anywhere in a target is what is left of it: also in the query of an origin-form target. */
  lemma OriginFormCuts(before: Text, host: Text, rest: Text)
    requires ':' as int !in before && '/' as int !in host
    ensures OriginForm(before + T("://") + (host + ['/' as int] + rest)) == ['/' as int] + rest
  {
    hide SchemeEnd, IndexOf, OriginForm;
    var after := host + ['/' as int] + rest;
    SchemeEndAfter(before, after);
    IndexAfter(host, '/' as int, rest);
    AfterScheme(before, after);
    ReduceStep(before + T("://") + after, |before|, |host|);
    assert after[|host|..] == ['/' as int] + rest;
  }

  /** For one: `/v1/keys?ref=x://h/p` becomes `/p`. */
  lemma OriginFormCutsQuery()
    ensures OriginForm(T("/v1/keys?ref=x://h/p")) == T("/p")
  {
    hide OriginForm;
    assert T("/v1/keys?ref=x://h/p") == T("/v1/keys?ref=x") + T("://") + (T("h") + ['/' as int] + T("p"));
    assert T("/p") == ['/' as int] + T("p");
    OriginFormCuts(T("/v1/keys?ref=x"), T("h"), T("p"));
  }

  /** The spellings in front of an origin-form target: nothing, or a scheme and a host. */
  ghost predicate IsOrigin(origin: Text) {
    || origin == []
    || exists scheme: Text, host: Text ::
         origin == scheme + T("://") + host && ':' as int !in scheme && '/' as int !in host
  }

  lemma FrontOfTarget(scheme: Text, host: Text, target: Text)
    requires target != [] && target[0] == '/' as int
    ensures scheme + T("://") + host + target == scheme + T("://") + (host + ['/' as int] + target[1..])
  {
    Regroup(scheme + T("://"), host, target);
    assert host + target == host + ['/' as int] + target[1..];
  }

  lemma OriginFormOf(origin: Text, target: Text)
    requires IsOrigin(origin) && target != [] && target[0] == '/' as int && ':' as int !in target
    ensures OriginForm(origin + target) == target
  {
    hide SchemeEnd, IndexOf;
    if origin == [] {
      assert origin + target == target;
      NoColonNoScheme(target);
    } else {
      var scheme: Text, host: Text :|
        origin == scheme + T("://") + host && ':' as int !in scheme && '/' as int !in host;
      OriginFormCuts(scheme, host, target[1..]);
      assert ['/' as int] + target[1..] == target;
      FrontOfTarget(scheme, host, target);
    }
  }

  // ---------------------------------------------------------------- the one-occurrence rule

  /** How many pairs are named `key_id`. */
  function Occurrences(pairs: seq<Text>): nat {
    if pairs == [] then 0 else (if NamesKeyId(pairs[0]) then 1 else 0) + Occurrences(pairs[1..])
  }

  /** Every occurrence contributes exactly its own value, decoded in one step. */
  lemma {:induction false} ValuesCountOccurrences(pairs: seq<Text>)
    requires ValuesOf(pairs).Ok?
    ensures |ValuesOf(pairs).value| == Occurrences(pairs)
    ensures forall v :: v in ValuesOf(pairs).value ==>
              exists pair :: pair in pairs && NamesKeyId(pair) && DecodeComponent(PairValue(pair)) == Some(v)
  {
    if pairs != [] {
      ValuesCountOccurrences(pairs[1..]);
      var rest := ValuesOf(pairs[1..]).value;
      assert forall pair :: pair in pairs[1..] ==> pair in pairs;
      forall v | v in ValuesOf(pairs).value
        ensures exists pair :: pair in pairs && NamesKeyId(pair) && DecodeComponent(PairValue(pair)) == Some(v)
      {
        if v !in rest {
          assert pairs[0] in pairs && NamesKeyId(pairs[0]) && DecodeComponent(PairValue(pairs[0])) == Some(v);
        }
      }
    }
  }
}
