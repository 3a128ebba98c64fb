// Key discovery: packages/api/src/serve-key.ts over the key spellings of packages/core/src/identifier.ts.
module KeyService {
  import opened Prelude
  import opened Text
  import opened Utf8
  import opened Identifier
  import opened Uri
  import opened RequestTarget
  import opened Objects
  import R = Registry

  // ---------------------------------------------------------------- the two spellings of a key id

  datatype KeyIdError = NotAKeyId | NotAUlid | EmptyReference | NotPercentEncoding | HasFragment | Unresolvable

  function KeyIdToWire(keyId: Text): Result<Text, KeyIdError> {
    if '#' as int in keyId then Err(HasFragment)
    else if !IsKeyId(keyId) then Err(NotAKeyId)
    else Ok(keyId[11..])
  }

  function KeyIdFromWire(wire: Text): Result<Text, KeyIdError> {
    if IsUlid(wire) then Ok(T("agenid:key:") + wire) else Err(NotAUlid)
  }

  function KeyResolverPath(keyId: Text): Result<Text, KeyIdError> {
    var wire :- KeyIdToWire(keyId);
    Ok(T("/v1/keys/") + wire)
  }

  function KeyResolverQuery(keyId: Text): Result<Text, KeyIdError> {
    var _ :- KeyIdToWire(keyId);
    match EncodeComponent(keyId)
    case Some(encoded) => Ok(T("/v1/keys?key_id=") + encoded)
    case None => Err(NotPercentEncoding)
  }

  /** `parseKeyReference`: either spelling, percent-encoded or not. */
  function ParseKeyReference(input: Text): Result<Text, KeyIdError> {
    if input == [] then Err(EmptyReference) else
    match DecodeComponent(input)
    case None => Err(NotPercentEncoding)
    case Some(decoded) =>
      if '#' as int in decoded || '#' as int in input then Err(HasFragment)
      else if IsUlid(decoded) then KeyIdFromWire(decoded)
      else if IsKeyId(decoded) then Ok(decoded)
      else Err(Unresolvable)
  }

  /** A reference parses exactly if it decodes, in one step and without a '#' before or after, to a ULID or a key id,
      and then names that key. */
  lemma ReferenceParses(input: Text)
    ensures var decoded := DecodeComponent(input);
            && (ParseKeyReference(input).Ok? <==>
                  && input != [] && decoded.Some? && '#' as int !in input && '#' as int !in decoded.value
                  && (IsUlid(decoded.value) || IsKeyId(decoded.value)))
            && (ParseKeyReference(input).Ok? ==>
                  ParseKeyReference(input).value
                  == if IsKeyId(decoded.value) then decoded.value else T("agenid:key:") + decoded.value)
            && (ParseKeyReference(input) == Err(EmptyReference) <==> input == [])
            && (ParseKeyReference(input) == Err(NotPercentEncoding) <==> input != [] && decoded.None?)
            && (ParseKeyReference(input) == Err(HasFragment) <==>
                  input != [] && decoded.Some? && ('#' as int in input || '#' as int in decoded.value))
  {
    hide DecodeComponent, IsUlid, IsKeyId;
    if DecodeComponent(input).Some? { NotBothForms(DecodeComponent(input).value); }
  }

  lemma NotBothForms(t: Text)
    ensures !(IsUlid(t) && IsKeyId(t))
  {}

  lemma KeyIdUnits(keyId: Text)
    requires IsKeyId(keyId)
    ensures keyId == T("agenid:key:") + keyId[11..] && IsUlid(keyId[11..]) && !IsUlid(keyId)
    ensures '#' as int !in keyId && '%' as int !in keyId && '&' as int !in keyId && '/' as int !in keyId
    ensures forall i :: 0 <= i < |keyId| ==> IsUnreserved(keyId[i]) || i == 6 || i == 10
    ensures keyId[6] == ':' as int && keyId[10] == ':' as int
  {
    var prefix, ulid := T("agenid:key:"), keyId[11..];
    assert keyId == prefix + ulid;
    UlidUnits(ulid);
    assert forall i :: 0 <= i < 11 ==> keyId[i] == prefix[i];
    assert forall i :: 11 <= i < |keyId| ==> keyId[i] == ulid[i - 11];
    assert |keyId| == 37;
  }

  lemma UlidUnits(t: Text)
    requires IsUlid(t)
    ensures forall i :: 0 <= i < |t| ==> IsUnreserved(t[i]) && IsCrockford(t[i])
    ensures forall u :: u in t ==> IsUnreserved(u)
    ensures '#' as int !in t && '%' as int !in t && '&' as int !in t && '/' as int !in t && '?' as int !in t
    ensures ':' as int !in t
  {}

  /** The wire form is a bijection between key ids and ULIDs, and each side refuses everything else. */
  lemma WireRoundTrip(t: Text)
    ensures KeyIdToWire(t).Ok? <==> IsKeyId(t)
    ensures KeyIdFromWire(t).Ok? <==> IsUlid(t)
    ensures IsKeyId(t) ==> KeyIdFromWire(KeyIdToWire(t).value) == Ok(t)
    ensures IsUlid(t) ==> KeyIdToWire(KeyIdFromWire(t).value) == Ok(t)
  {
    if IsKeyId(t) { KeyIdUnits(t); }
    if IsUlid(t) {
      var k := T("agenid:key:") + t;
      PrefixOfConcat(T("agenid:key:"), t);
      KeyIdUnits(k);
    }
  }

  // ---------------------------------------------------------------- percent-encoding a key id

  lemma EncodeStep(u: Unit, b: Text, e: Text)
    requires u < 0x80 && EncodeComponent(b) == Some(e)
    ensures EncodeComponent([u] + b) == Some((if IsUnreserved(u) then [u] else PercentByte(u)) + e)
  {
    var t := [u] + b;
    assert CodePointLength(t) == 1 && t[1..] == b;
    assert PercentBytes([u]) == PercentByte(u) + PercentBytes([u][1..]);
    assert PercentBytes([u]) == PercentByte(u);
  }

  /** Unreserved text stays as it is in front of anything. */
  lemma {:induction false} UnreservedStays(a: Text, b: Text, e: Text)
    requires (forall i :: 0 <= i < |a| ==> IsUnreserved(a[i])) && EncodeComponent(b) == Some(e)
    ensures EncodeComponent(a + b) == Some(a + e)
  {
    if a == [] {
      assert a + b == b && a + e == e;
    } else {
      UnreservedStays(a[1..], b, e);
      EncodeStep(a[0], a[1..] + b, a[1..] + e);
      FirstApart(a, b);
      FirstApart(a, e);
    }
  }

  lemma FirstApart(a: Text, b: Text)
    requires a != []
    ensures a + b == [a[0]] + (a[1..] + b)
  {}

  lemma ColonEncodes(b: Text, e: Text)
    requires EncodeComponent(b) == Some(e)
    ensures EncodeComponent(T(":") + b) == Some(T("%3A") + e)
  {
    EncodeStep(0x3A, b, e);
    assert T(":") == [0x3A] && PercentByte(0x3A) == T("%3A");
  }

  /** Three unreserved texts joined by colons: only the colons are escaped. */
  lemma ColonsEncode(x: Text, y: Text, z: Text)
    requires forall i :: 0 <= i < |x| ==> IsUnreserved(x[i])
    requires forall i :: 0 <= i < |y| ==> IsUnreserved(y[i])
    requires forall i :: 0 <= i < |z| ==> IsUnreserved(z[i])
    ensures EncodeComponent(x + (T(":") + (y + (T(":") + z)))) == Some(x + (T("%3A") + (y + (T("%3A") + z))))
  {
    assert z + [] == z;
    UnreservedStays(z, [], []);
    var b1, e1 := T(":") + z, T("%3A") + z;
    ColonEncodes(z, z);
    UnreservedStays(y, b1, e1);
    ColonEncodes(y + b1, y + e1);
    UnreservedStays(x, T(":") + (y + b1), T("%3A") + (y + e1));
  }

  /** The percent-encoded logical form of a key id. */
  function Encoded(keyId: Text): Text { T("agenid%3Akey%3A") + (if |keyId| < 11 then [] else keyId[11..]) }

  lemma KeyIdEncodes(keyId: Text)
    requires IsKeyId(keyId)
    ensures EncodeComponent(keyId) == Some(Encoded(keyId))
    ensures DecodeComponent(Encoded(keyId)) == Some(keyId)
  {
    KeyIdUnits(keyId);
    UlidUnits(keyId[11..]);
    ColonsEncode(T("agenid"), T("key"), keyId[11..]);
    KeyIdParts(keyId);
    NoSurrogatesWellFormed(keyId);
    DecodeOfEncodeComponent(keyId);
  }

  lemma KeyIdParts(keyId: Text)
    requires IsKeyId(keyId)
    ensures var ulid := keyId[11..];
            && keyId == T("agenid") + (T(":") + (T("key") + (T(":") + ulid)))
            && Encoded(keyId) == T("agenid") + (T("%3A") + (T("key") + (T("%3A") + ulid)))
  {
    KeyIdUnits(keyId);
  }

  // ---------------------------------------------------------------- the decision (serve-key.ts)

  datatype Position = InPath | InQuery

  /** `canonicalKeyReference`: a reference already decoded by the transport, held to the form of its position. */
  function CanonicalKeyReference(ref: Option<Text>, position: Position): Result<Text, Message> {
    var badForm := if position.InPath? then BadWireForm else BadLogicalForm;
    if ref.None? || ref.value == [] then Err(if position.InQuery? then MissingKeyId else BadWireForm)
    else if '#' as int in ref.value then Err(Message.Fragment)
    else if '%' as int in ref.value then Err(DoubleEncoded)
    else if position.InPath? && !IsUlid(ref.value) then Err(badForm)
    else if position.InQuery? && !IsKeyId(ref.value) then Err(badForm)
    else match ParseKeyReference(ref.value) case Ok(k) => Ok(k) case Err(_) => Err(badForm)
  }

  /** What the registry's reader gives back: `Misshapen` is a stored value the strict schema cannot parse. */
  datatype Lookup = Missing | Unavailable | Misshapen | Stored(document: KeyDocument)

  type Reader = Text -> Lookup

  datatype Resolution =
    | Served(document: KeyDocument)  // 200
    | Refused(message: Message)      // 400 invalid_key_id
    | NotFound(keyId: Text)          // 404 key_not_found
    | RegistryUnavailable            // 503 registry_unavailable
    | DocumentInvalid                // 503 key_document_invalid

  /** What a lookup of a logical id answers. */
  function ResolveId(p: Platform, reader: Reader, keyId: Text): Resolution {
    match reader(keyId)
    case Unavailable => RegistryUnavailable
    case Missing => NotFound(keyId)
    case Misshapen => DocumentInvalid
    case Stored(d) => if !ValidKey(p, d) || d.keyId != keyId then DocumentInvalid else Served(d)
  }

  function ResolveKeyDocument(p: Platform, reader: Reader, ref: Option<Text>, position: Position): Resolution {
    match CanonicalKeyReference(ref, position)
    case Err(m) => Refused(m)
    case Ok(keyId) => ResolveId(p, reader, keyId)
  }

  function ResolveKeyFromQuery(p: Platform, reader: Reader, values: seq<Text>): Resolution {
    if |values| > 1 then Refused(DuplicateKeyId)
    else ResolveKeyDocument(p, reader, if values == [] then None else Some(values[0]), InQuery)
  }

  /** `resolveKeyFromRawPath`; `framework` is the parameter the router derived, a tripwire. */
  function ResolveKeyFromRawPath(p: Platform, reader: Reader, url: Text, framework: Option<Text>): Resolution {
    match PathSegment(url)
    case Err(m) => Refused(m)
    case Ok(segment) =>
      if framework.Some? && framework.value != segment then Refused(TargetDisagreement)
      else ResolveKeyDocument(p, reader, Some(segment), InPath)
  }

  function ResolveKeyFromRawQuery(p: Platform, reader: Reader, url: Text): Resolution {
    match QueryValues(url)
    case Err(m) => Refused(m)
    case Ok(values) => ResolveKeyFromQuery(p, reader, values)
  }

  /** A reference is accepted exactly in the form of its position, and then names the key of that form. */
  lemma ReferenceAccepted(t: Text, position: Position)
    ensures CanonicalKeyReference(Some(t), position).Ok? <==> (if position.InPath? then IsUlid(t) else IsKeyId(t))
    ensures position.InPath? && IsUlid(t) ==> CanonicalKeyReference(Some(t), position) == Ok(T("agenid:key:") + t)
    ensures position.InQuery? && IsKeyId(t) ==> CanonicalKeyReference(Some(t), position) == Ok(t)
  {
    if IsUlid(t) {
      UlidUnits(t);
      DecodeWithoutPercent(t);
    }
    if IsKeyId(t) {
      KeyIdUnits(t);
      DecodeWithoutPercent(t);
    }
  }

  // ---------------------------------------------------------------- both forms of every key id

  lemma {:induction false} NoEncodedHash(t: Text)
    requires forall i :: 0 <= i < |t| - 2 ==> !(t[i] == '%' as int && t[i + 1] == '2' as int)
    ensures !HasEncodedHash(t)
  {
    if t != [] {
      PrefixAt(t, T("%23"), 0);
      PrefixAt(t, T("%23"), 1);
      NoEncodedHash(t[1..]);
    }
  }

  lemma RouteTexts()
    ensures T("/v1/keys/") == T("/v1/keys") + ['/' as int] && T("/v1/keys?") == T("/v1/keys") + ['?' as int]
    ensures T("/v1/keys")[0] == '/' as int
    ensures forall u :: u in T("/v1/keys") ==> u != ':' as int && u != '?' as int && u != '#' as int
    ensures T("key_id=") == T("key_id") + ['=' as int]
    ensures forall u :: u in T("key_id") ==> u != ':' as int && u != '#' as int && u != '&' as int && u != '=' as int
  {}

  lemma TwoParts(a: Text, u: Unit, b: Text)
    ensures (a + [u] + b)[..|a|] == a && (a + [u] + b)[|a| + 1..] == b
  {}

  /** The path target of a ULID, reduced and split. */
  lemma PathTarget(origin: Text, ulid: Text)
    requires IsOrigin(origin) && IsUlid(ulid)
    ensures SplitTarget(origin + (T("/v1/keys/") + ulid)) == Ok(Target(T("/v1/keys/") + ulid, []))
  {
    UlidUnits(ulid);
    RouteTexts();
    var head, target := T("/v1/keys/"), T("/v1/keys/") + ulid;
    NeitherHas(':' as int, head, ulid);
    NeitherHas('?' as int, head, ulid);
    NeitherHas('#' as int, head, ulid);
    assert target[0] == head[0];
    OriginFormOf(origin, target);
    NoQuery(origin + target);
  }

  lemma NeitherHas(u: Unit, a: Text, b: Text)
    requires u !in a && u !in b
    ensures u !in a + b
  {}

  lemma NoQuery(url: Text)
    requires '#' as int !in OriginForm(url) && '?' as int !in OriginForm(url)
    ensures SplitTarget(url) == Ok(Target(OriginForm(url), []))
  {}

  /** A ULID in the last place of the path is the segment, as it stands. */
  lemma UlidIsTheSegment(url: Text, split: Target)
    requires SplitTarget(url) == Ok(split) && IsUlid(AfterLast(split.path, '/' as int))
    ensures PathSegment(url) == Ok(AfterLast(split.path, '/' as int))
  {
    var segment := AfterLast(split.path, '/' as int);
    UlidUnits(segment);
    NoEncodedHash(segment);
  }

  /** The path form of every key id, with any scheme and host in front, resolves to that key. */
  lemma PathFormResolves(p: Platform, reader: Reader, keyId: Text, origin: Text, framework: Option<Text>)
    requires IsKeyId(keyId) && IsOrigin(origin) && (framework.Some? ==> framework.value == keyId[11..])
    ensures KeyResolverPath(keyId).Ok?
    ensures ResolveKeyFromRawPath(p, reader, origin + KeyResolverPath(keyId).value, framework)
         == ResolveId(p, reader, keyId)
  {
    KeyIdUnits(keyId);
    var ulid := keyId[11..];
    UlidUnits(ulid);
    RouteTexts();
    PathTarget(origin, ulid);
    AfterLastOf(T("/v1/keys"), '/' as int, ulid);
    UlidIsTheSegment(origin + (T("/v1/keys/") + ulid), Target(T("/v1/keys/") + ulid, []));
    ReferenceAccepted(ulid, InPath);
  }

  /** The query target of a key id, reduced and split. */
  lemma QueryTarget(origin: Text, pair: Text)
    requires IsOrigin(origin) && '#' as int !in pair && ':' as int !in pair
    ensures SplitTarget(origin + (T("/v1/keys?") + pair)) == Ok(Target(T("/v1/keys"), pair))
  {
    RouteTexts();
    var target := T("/v1/keys?") + pair;
    assert target[0] == T("/v1/keys?")[0];
    OriginFormOf(origin, target);
    IndexAfter(T("/v1/keys"), '?' as int, pair);
    TwoParts(T("/v1/keys"), '?' as int, pair);
  }

  /** The one pair in it. */
  lemma QueryPair(encoded: Text, value: Text)
    requires '&' as int !in encoded && !HasEncodedHash(encoded) && DecodeComponent(encoded) == Some(value)
    ensures ValuesOf(Split(T("key_id=") + encoded, '&' as int)) == Ok([value])
  {
    var pair := T("key_id=") + encoded;
    RouteTexts();
    SplitSingle(pair, '&' as int);
    IndexAfter(T("key_id"), '=' as int, encoded);
    TwoParts(T("key_id"), '=' as int, encoded);
    assert DecodedValue(pair) == Ok(value);
    OneValue(pair, value);
  }

  lemma OneValue(pair: Text, value: Text)
    requires NamesKeyId(pair) && DecodedValue(pair) == Ok(value)
    ensures ValuesOf([pair]) == Ok([value])
  {
    assert [pair][1..] == [];
    assert [value] + [] == [value];
  }

  /** The query form of every key id, likewise. */
  lemma QueryFormResolves(p: Platform, reader: Reader, keyId: Text, origin: Text)
    requires IsKeyId(keyId) && IsOrigin(origin)
    ensures KeyResolverQuery(keyId).Ok?
    ensures ResolveKeyFromRawQuery(p, reader, origin + KeyResolverQuery(keyId).value) == ResolveId(p, reader, keyId)
  {
    QueryText(keyId);
    QueryTargetValues(keyId, origin);
    ReferenceAccepted(keyId, InQuery);
  }

  lemma QueryTargetValues(keyId: Text, origin: Text)
    requires IsKeyId(keyId) && IsOrigin(origin)
    ensures QueryValues(origin + (T("/v1/keys?") + (T("key_id=") + Encoded(keyId)))) == Ok([keyId])
  {
    KeyIdEncodes(keyId);
    EncodedUnits(keyId);
    QueryPair(Encoded(keyId), keyId);
    RouteTexts();
    QueryTarget(origin, T("key_id=") + Encoded(keyId));
  }

  lemma QueryRoute()
    ensures T("/v1/keys?key_id=") == T("/v1/keys?") + T("key_id=")
  {
    var whole, parts := T("/v1/keys?key_id="), T("/v1/keys?") + T("key_id=");
    assert |whole| == |parts| && forall i :: 0 <= i < |whole| ==> whole[i] == parts[i];
  }

  lemma QueryText(keyId: Text)
    requires IsKeyId(keyId)
    ensures KeyResolverQuery(keyId) == Ok(T("/v1/keys?") + (T("key_id=") + Encoded(keyId)))
  {
    KeyIdUnits(keyId);
    KeyIdEncodes(keyId);
    QueryRoute();
    Regroup(T("/v1/keys?"), T("key_id="), Encoded(keyId));
  }

  lemma EncodedUnits(keyId: Text)
    requires IsKeyId(keyId)
    ensures var e := Encoded(keyId); '#' as int !in e && '&' as int !in e && ':' as int !in e && !HasEncodedHash(e)
  {
    hide EncodeComponent, Encoded, HasEncodedHash;
    KeyIdUnits(keyId);
    KeyIdEncodes(keyId);
    EncodedUnitsOf(keyId);
    EncodingHidesNoHash(keyId);
    NotEncodedUnits();
  }

  /** Every key id's two request targets, each behind any origin, get the same answer from every registry. */
  lemma BothFormsAgree(p: Platform, reader: Reader, keyId: Text, origin1: Text, origin2: Text, framework: Option<Text>)
    requires IsKeyId(keyId) && IsOrigin(origin1) && IsOrigin(origin2)
    requires (framework.Some? ==> framework.value == keyId[11..])
    ensures KeyResolverPath(keyId).Ok? && KeyResolverQuery(keyId).Ok?
    ensures ResolveKeyFromRawPath(p, reader, origin1 + KeyResolverPath(keyId).value, framework)
         == ResolveKeyFromRawQuery(p, reader, origin2 + KeyResolverQuery(keyId).value)
  {
    PathFormResolves(p, reader, keyId, origin1, framework);
    QueryFormResolves(p, reader, keyId, origin2);
  }

  // ---------------------------------------------------------------- and nothing else resolves

  /** A path gets past the 400s exactly when its segment is literally a ULID the router agrees on, and then the answer
      is about that ULID's key. */
  lemma PathResolvesOnlyLiterally(p: Platform, reader: Reader, url: Text, framework: Option<Text>)
    ensures !ResolveKeyFromRawPath(p, reader, url, framework).Refused? <==>
              SplitTarget(url).Ok? && IsUlid(AfterLast(SplitTarget(url).value.path, '/' as int))
              && (framework.Some? ==> framework.value == AfterLast(SplitTarget(url).value.path, '/' as int))
    ensures !ResolveKeyFromRawPath(p, reader, url, framework).Refused? ==>
              ResolveKeyFromRawPath(p, reader, url, framework)
              == ResolveId(p, reader, T("agenid:key:") + AfterLast(SplitTarget(url).value.path, '/' as int))
  {
    hide PathSegment, SplitTarget, AfterLast, IsUlid, CanonicalKeyReference;
    SegmentIsLast(url);
    if SplitTarget(url).Ok? {
      var segment := AfterLast(SplitTarget(url).value.path, '/' as int);
      if IsUlid(segment) { UlidIsTheSegment(url, SplitTarget(url).value); }
      ReferenceAccepted(segment, InPath);
    }
  }

  lemma SegmentIsLast(url: Text)
    ensures PathSegment(url).Ok? ==>
              SplitTarget(url).Ok? && PathSegment(url).value == AfterLast(SplitTarget(url).value.path, '/' as int)
  {}

  /** A query gets past the 400s exactly when `key_id` occurs once and decodes, in one step, to a key id. */
  lemma QueryResolvesOnlyOnce(p: Platform, reader: Reader, url: Text)
    ensures !ResolveKeyFromRawQuery(p, reader, url).Refused? <==>
              QueryValues(url).Ok? && |QueryValues(url).value| == 1 && IsKeyId(QueryValues(url).value[0])
    ensures !ResolveKeyFromRawQuery(p, reader, url).Refused? ==>
              ResolveKeyFromRawQuery(p, reader, url) == ResolveId(p, reader, QueryValues(url).value[0])
  {
    if QueryValues(url).Ok? && |QueryValues(url).value| == 1 { ReferenceAccepted(QueryValues(url).value[0], InQuery); }
  }

  /** A query with one value has one pair named `key_id`, and the value is that pair's, decoded in one step. */
  lemma OneValueOneOccurrence(url: Text)
    requires QueryValues(url).Ok? && |QueryValues(url).value| == 1
    ensures var pairs := Split(SplitTarget(url).value.query, '&' as int);
            && Occurrences(pairs) == 1
            && exists pair :: pair in pairs && NamesKeyId(pair)
                           && DecodeComponent(PairValue(pair)) == Some(QueryValues(url).value[0])
  {
    ValuesCountOccurrences(Split(SplitTarget(url).value.query, '&' as int));
    assert QueryValues(url).value[0] in QueryValues(url).value;
  }

  /** A path whose segment extracts is refused for a segment rewritten on the way, or for its form. */
  lemma PathRefusals(p: Platform, reader: Reader, url: Text, framework: Option<Text>, segment: Text)
    requires PathSegment(url) == Ok(segment)
    ensures var r := ResolveKeyFromRawPath(p, reader, url, framework);
            && (framework.Some? && framework.value != segment ==> r == Refused(TargetDisagreement))
            && ((framework.Some? ==> framework.value == segment) && !IsUlid(segment) ==> r == Refused(BadWireForm))
  {
    hide PathSegment, IsUlid, ParseKeyReference;
    ExtractedHasNoHash(url);
    ExtractedHasNoPercent(url);
  }

  lemma ExtractedHasNoPercent(url: Text)
    ensures PathSegment(url).Ok? ==> '%' as int !in PathSegment(url).value
  {
    hide SplitTarget, AfterLast;
  }

  /** A query whose values extract is refused for supplying none, an empty one or several, for one still encoded, or for
      its form. */
  lemma QueryRefusals(p: Platform, reader: Reader, url: Text, values: seq<Text>)
    requires QueryValues(url) == Ok(values)
    ensures var r := ResolveKeyFromRawQuery(p, reader, url);
            && (|values| > 1 ==> r == Refused(DuplicateKeyId))
            && (values == [] || values == [[]] ==> r == Refused(MissingKeyId))
            && (|values| == 1 && '%' as int in values[0] ==> r == Refused(DoubleEncoded))
            && (|values| == 1 && values[0] != [] && '%' as int !in values[0] && !IsKeyId(values[0]) ==>
                  r == Refused(BadLogicalForm))
  {
    hide QueryValues, IsKeyId, ParseKeyReference;
    ExtractedHasNoHash(url);
  }

  /** A lookup serves only a stored document that is well-formed and filed under its own id; nothing stored, a reader
      that is down and a stored value that is not such a document are three different answers. */
  lemma LookupAnswers(p: Platform, reader: Reader, keyId: Text)
    ensures var r := ResolveId(p, reader, keyId);
            && (forall d :: r == Served(d) <==> reader(keyId) == Stored(d) && ValidKey(p, d) && d.keyId == keyId)
            && (r == NotFound(keyId) <==> reader(keyId).Missing?)
            && (r == RegistryUnavailable <==> reader(keyId).Unavailable?)
            && (r == DocumentInvalid <==>
                  && !reader(keyId).Missing? && !reader(keyId).Unavailable?
                  && forall d :: reader(keyId) == Stored(d) ==> !ValidKey(p, d) || d.keyId != keyId)
  {
    hide ValidKey;
  }

  // ---------------------------------------------------------------- encoded more than once

  /** `encodeURIComponent` applied `n` times. */
  function Encodings(t: Text, n: nat): Option<Text> {
    if n == 0 then Some(t)
    else match Encodings(t, n - 1) case Some(s) => EncodeComponent(s) case None => None
  }

  /** A query target carrying a text encoded once hands out that text, behind any origin. */
  lemma EncodedTargetExtracts(origin: Text, t: Text)
    requires IsOrigin(origin) && WellFormed(t) && '#' as int !in t && EncodeComponent(t).Some?
    ensures QueryValues(origin + (T("/v1/keys?") + (T("key_id=") + EncodeComponent(t).value))) == Ok([t])
  {
    hide EncodeComponent, DecodeComponent, HasEncodedHash;
    var e := EncodeComponent(t).value;
    DecodeOfEncodeComponent(t);
    EncodedUnitsOf(t);
    EncodingHidesNoHash(t);
    NotEncodedUnits();
    QueryPair(e, t);
    RouteTexts();
    NeitherHas('#' as int, T("key_id="), e);
    NeitherHas(':' as int, T("key_id="), e);
    QueryTarget(origin, T("key_id=") + e);
  }

  lemma NotEncodedUnits()
    ensures !IsEncodedUnit('#' as int) && !IsEncodedUnit(':' as int) && !IsEncodedUnit('&' as int)
  {}

  lemma EncodedText(e: Text)
    requires forall i :: 0 <= i < |e| ==> IsEncodedUnit(e[i])
    ensures WellFormed(e) && '#' as int !in e
  {
    NoSurrogatesWellFormed(e);
  }

  lemma {:induction false} EncodingsOfKeyId(keyId: Text, n: nat)
    requires IsKeyId(keyId) && n > 0
    ensures Encodings(keyId, n).Some?
    ensures '%' as int in Encodings(keyId, n).value && WellFormed(Encodings(keyId, n).value)
    ensures '#' as int !in Encodings(keyId, n).value
  {
    hide EncodeComponent, WellFormed;
    var before := Encodings(keyId, n - 1);
    if n == 1 {
      KeyIdUnits(keyId);
      KeyIdEncodes(keyId);
      assert !IsUnreserved(keyId[6]);
    } else {
      EncodingsOfKeyId(keyId, n - 1);
      DecodeOfEncodeComponent(before.value);
      var i :| 0 <= i < |before.value| && before.value[i] == '%' as int;
      assert !IsUnreserved(before.value[i]);
    }
    EncodedUnitsOf(before.value);
    EncodedText(EncodeComponent(before.value).value);
  }

  /** A key id encoded twice or more, in a target behind any origin, is refused as such: it is never resolved, on any
      store. */
  lemma TwiceEncodedRefused(p: Platform, reader: Reader, keyId: Text, origin: Text, n: nat)
    requires IsKeyId(keyId) && IsOrigin(origin) && n >= 2
    ensures Encodings(keyId, n).Some?
    ensures ResolveKeyFromRawQuery(p, reader, origin + (T("/v1/keys?") + (T("key_id=") + Encodings(keyId, n).value)))
         == Refused(DoubleEncoded)
  {
    hide EncodeComponent, QueryValues;
    EncodingsOfKeyId(keyId, n);
    EncodingsOfKeyId(keyId, n - 1);
    EncodedTargetExtracts(origin, Encodings(keyId, n - 1).value);
  }

  // ---------------------------------------------------------------- over the registry

  /** The registry's own key map as a reader. */
  function ReaderOf(s: R.State): Reader {
    k => if k in s.keys then Stored(s.keys[k]) else Missing
  }

  /** In every reachable state a key id is answered with its published document, or 404 if there is none; and a
      document once served is served, the same, after every further run. */
  lemma ServedIsPublished(p: Platform, s: R.State, cs: seq<R.Command>, keyId: Text)
    requires R.Invariant(p, s)
    ensures ResolveId(p, ReaderOf(s), keyId) == if keyId in s.keys then Served(s.keys[keyId]) else NotFound(keyId)
    ensures ResolveId(p, ReaderOf(s), keyId).Served? ==>
              ResolveId(p, ReaderOf(R.Run(p, s, cs)), keyId) == ResolveId(p, ReaderOf(s), keyId)
  {
    R.RunKeeps(p, s, cs);
  }

  // ---------------------------------------------------------------- the router's error sentence (app.ts)

  /** The error handlers reduce a target to origin form before asking `rawKeyTargetFailure`, which reduces it again.
      The second reduction changes nothing exactly when no "://" is left. */
  lemma ReducedTwice(url: Text)
    ensures SplitTarget(OriginForm(url)) == SplitTarget(url) <== SchemeEnd(OriginForm(url)).None?
    ensures OriginForm(OriginForm(url)) == OriginForm(url) <==> SchemeEnd(OriginForm(url)).None?
  {
    OriginFormFixes(OriginForm(url));
  }

  /** The routes of key lookup; the router picks one from the raw path. */
  datatype Route = ItemRoute | CollectionRoute

  /** What the route's handler answers. On a target the router could not decode there is no framework segment. */
  function HandlerAnswer(p: Platform, reader: Reader, route: Route, url: Text): Resolution {
    match route
    case ItemRoute => ResolveKeyFromRawPath(p, reader, url, None)
    case CollectionRoute => ResolveKeyFromRawQuery(p, reader, url)
  }

  datatype ErrorAnswer = InvalidKeyId(message: Message) | BadRequest

  function OrElse(m: Option<Message>, fallback: Message): Message {
    match m case Some(x) => x case None => fallback
  }

  /** The whole 400 answer of the two error handlers: the guard, `rawKeyTargetFailure`, and the fallback. */
  function ErrorHandlerAnswer(url: Text): ErrorAnswer {
    var target := OriginForm(url);
    if StartsWith(target, T("/v1/keys")) then InvalidKeyId(OrElse(TargetFailure(target), MalformedEscape))
    else BadRequest
  }

  /** The error handler answers with the very sentence the handler would have answered with. */
  predicate SaysTheSame(e: ErrorAnswer, r: Resolution) { e.InvalidKeyId? && r == Refused(e.message) }

  /** What a route's handler finds wrong with the target itself, if anything. */
  function ExtractionFailure(route: Route, url: Text): Option<Message> {
    match route case ItemRoute => ErrorOf(PathSegment(url)) case CollectionRoute => ErrorOf(QueryValues(url))
  }

  predicate IsTargetMessage(m: Message) { m == Message.Fragment || m == PathNotLiteral || m == MalformedEscape }

  lemma {:induction false} ValuesFailure(pairs: seq<Text>)
    requires ValuesOf(pairs).Err?
    ensures IsTargetMessage(ValuesOf(pairs).error)
  {
    if !NamesKeyId(pairs[0]) || DecodedValue(pairs[0]).Ok? { ValuesFailure(pairs[1..]); }
  }

  lemma QueryMessages(url: Text)
    ensures QueryValues(url).Err? ==> IsTargetMessage(QueryValues(url).error)
  {
    hide OriginForm;
    if SplitTarget(url).Ok? {
      var pairs := Split(SplitTarget(url).value.query, '&' as int);
      if ValuesOf(pairs).Err? { ValuesFailure(pairs); }
    }
  }

  lemma PathMessages(url: Text)
    ensures SplitTarget(url).Err? ==> SplitTarget(url).error == Message.Fragment
    ensures PathSegment(url).Err? ==> IsTargetMessage(PathSegment(url).error)
  {
    hide OriginForm, AfterLast, HasEncodedHash;
  }

  /** Looking at a target finds only three things wrong with it. */
  lemma TargetMessages(url: Text)
    ensures TargetFailure(url).Some? ==> IsTargetMessage(TargetFailure(url).value)
  {
    hide SplitTarget, QueryValues, PathSegment, IsCollectionPath;
    QueryMessages(url);
    PathMessages(url);
  }

  /** No value extracted from a target holds a '#'. */
  lemma ExtractedHasNoHash(url: Text)
    ensures PathSegment(url).Ok? ==> '#' as int !in PathSegment(url).value
    ensures QueryValues(url).Ok? ==> NoneHasHash(QueryValues(url).value)
  {
    if SplitTarget(url).Ok? {
      var split := SplitTarget(url).value;
      SplitHasNoHash(url);
      LastHasNoHash(split.path);
      SplitPiecesHaveNoHash(split.query);
      ValuesHaveNoHash(Split(split.query, '&' as int));
    }
  }

  lemma SplitHasNoHash(url: Text)
    requires SplitTarget(url).Ok?
    ensures '#' as int !in SplitTarget(url).value.path && '#' as int !in SplitTarget(url).value.query
  {}

  lemma {:induction false} LastHasNoHash(t: Text)
    requires '#' as int !in t
    ensures '#' as int !in AfterLast(t, '/' as int)
  {
    match IndexOf(t, '/' as int) case Some(i) => LastHasNoHash(t[i + 1..]); case None =>
  }

  predicate NoneHasHash(ts: seq<Text>) { forall i :: 0 <= i < |ts| ==> '#' as int !in ts[i] }

  lemma {:induction false} SplitPiecesHaveNoHash(t: Text)
    requires '#' as int !in t
    ensures NoneHasHash(Split(t, '&' as int))
  {
    match IndexOf(t, '&' as int) case Some(i) => SplitPiecesHaveNoHash(t[i + 1..]); case None =>
  }

  lemma {:induction false} ValuesHaveNoHash(pairs: seq<Text>)
    requires NoneHasHash(pairs)
    ensures ValuesOf(pairs).Ok? ==> NoneHasHash(ValuesOf(pairs).value)
  {
    if pairs != [] {
      ValuesHaveNoHash(pairs[1..]);
      if '#' as int !in pairs[0] && !HasEncodedHash(PairValue(pairs[0])) { DecodingHidesNoHash(PairValue(pairs[0])); }
    }
  }

  lemma ReferenceRefusals(t: Option<Text>, position: Position)
    requires t.Some? ==> '#' as int !in t.value
    ensures CanonicalKeyReference(t, position).Err? ==> !IsTargetMessage(CanonicalKeyReference(t, position).error)
  {
    hide ParseKeyReference, IsUlid, IsKeyId;
  }

  /** What a handler says beyond extraction is never one of the extraction's own sentences. */
  lemma LaterRefusals(p: Platform, reader: Reader, route: Route, url: Text)
    ensures ExtractionFailure(route, url).Some? ==>
              HandlerAnswer(p, reader, route, url) == Refused(ExtractionFailure(route, url).value)
    ensures ExtractionFailure(route, url).None? && HandlerAnswer(p, reader, route, url).Refused? ==>
              !IsTargetMessage(HandlerAnswer(p, reader, route, url).message)
  {
    hide PathSegment, QueryValues, CanonicalKeyReference;
    ExtractedHasNoHash(url);
    match route
    case ItemRoute =>
      if PathSegment(url).Ok? { ReferenceRefusals(Some(PathSegment(url).value), InPath); }
    case CollectionRoute =>
      if QueryValues(url).Ok? {
        var values := QueryValues(url).value;
        ReferenceRefusals(if values == [] then None else Some(values[0]), InQuery);
      }
  }

  /** The error handlers repeat the handler's sentence exactly when their guard passes and both looks fail alike. */
  lemma BothLooksFailAlike(p: Platform, reader: Reader, route: Route, url: Text)
    ensures SaysTheSame(ErrorHandlerAnswer(url), HandlerAnswer(p, reader, route, url)) <==>
              && StartsWith(OriginForm(url), T("/v1/keys"))
              && ExtractionFailure(route, url) == Some(OrElse(TargetFailure(OriginForm(url)), MalformedEscape))
  {
    hide ExtractionFailure, HandlerAnswer, TargetFailure;
    LaterRefusals(p, reader, route, url);
    TargetMessages(OriginForm(url));
  }

  // What a look says, read off the target's text.

  ghost predicate HasFault(pairs: seq<Text>) { exists pair :: pair in pairs && FaultyKeyId(pair) }

  ghost predicate FirstFault(pairs: seq<Text>, i: nat) {
    i < |pairs| && FaultyKeyId(pairs[i]) && forall j :: 0 <= j < i ==> !FaultyKeyId(pairs[j])
  }

  /** The first faulty pair carries `%23`. */
  ghost predicate HashComesFirst(pairs: seq<Text>) {
    exists i: nat :: FirstFault(pairs, i) && HasEncodedHash(PairValue(pairs[i]))
  }

  function PairsOf(target: Text): seq<Text> { Split(QueryOf(target), '&' as int) }

  /** What the item route reads as the reference. */
  function SegmentOf(target: Text): Text { AfterLast(PathOf(target), '/' as int) }

  /** A fragment mark, raw or as `%23`, where the route looks first. */
  ghost predicate ShowsFragment(route: Route, target: Text) {
    || '#' as int in target
    || match route
       case ItemRoute => HasEncodedHash(SegmentOf(target))
       case CollectionRoute => HashComesFirst(PairsOf(target))
  }

  /** The route finds something wrong with the target: a fragment, an escape in the last segment, or a `key_id` value
      that holds `%23` or does not decode. */
  ghost predicate ShowsFault(route: Route, target: Text) {
    || '#' as int in target
    || match route
       case ItemRoute => '%' as int in SegmentOf(target)
       case CollectionRoute => HasFault(PairsOf(target))
  }

  lemma {:induction false} NoFaultDecodes(pairs: seq<Text>)
    requires !HasFault(pairs)
    ensures ValuesOf(pairs).Ok?
  {
    if pairs != [] {
      assert pairs[0] in pairs && !FaultyKeyId(pairs[0]);
      assert forall pair :: pair in pairs[1..] ==> pair in pairs;
      NoFaultDecodes(pairs[1..]);
    }
  }

  lemma {:induction false} FirstFaultDecides(pairs: seq<Text>, i: nat)
    requires FirstFault(pairs, i)
    ensures ValuesOf(pairs) == Err(if HasEncodedHash(PairValue(pairs[i])) then Message.Fragment else MalformedEscape)
  {
    hide HasEncodedHash, DecodeComponent, PairValue, NamesKeyId;
    if i > 0 {
      assert !FaultyKeyId(pairs[0]);
      assert forall j :: 0 <= j < i - 1 ==> pairs[1..][j] == pairs[j + 1];
      FirstFaultDecides(pairs[1..], i - 1);
    }
  }

  lemma {:induction false} FaultHasFirst(pairs: seq<Text>) returns (i: nat)
    requires HasFault(pairs)
    ensures FirstFault(pairs, i)
  {
    if FaultyKeyId(pairs[0]) {
      i := 0;
    } else {
      i := FaultHasFirst(pairs[1..]);
      i := i + 1;
    }
  }

  /** A query is refused exactly when some `key_id` pair is faulty, and the first faulty one decides the sentence. */
  lemma FaultyQuery(pairs: seq<Text>)
    ensures ValuesOf(pairs).Err? <==> HasFault(pairs)
    ensures HasFault(pairs) ==>
              ValuesOf(pairs) == Err(if HashComesFirst(pairs) then Message.Fragment else MalformedEscape)
    ensures HashComesFirst(pairs) ==> HasFault(pairs)
  {
    if HasFault(pairs) {
      var i := FaultHasFirst(pairs);
      FirstFaultDecides(pairs, i);
      forall k: nat | FirstFault(pairs, k) ensures k == i {}
    } else {
      NoFaultDecodes(pairs);
    }
  }

  lemma {:induction false} EncodedHashHasPercent(t: Text)
    ensures HasEncodedHash(t) ==> '%' as int in t
  {
    PrefixAt(t, T("%23"), 0);
    if t != [] { EncodedHashHasPercent(t[1..]); }
  }

  /** Extraction fails exactly on a fault the text shows, and a fragment mark decides its sentence. */
  lemma ExtractionFailsIff(route: Route, url: Text)
    ensures var target := OriginForm(url);
            && (ExtractionFailure(route, url).Some? <==> ShowsFault(route, target))
            && (ShowsFragment(route, target) ==> ShowsFault(route, target))
            && (ShowsFault(route, target) ==>
                  ExtractionFailure(route, url)
                  == Some(if ShowsFragment(route, target) then Message.Fragment else OwnSentence(route)))
  {
    hide OriginForm, AfterLast, HasEncodedHash, HasFault, HashComesFirst, Split, ValuesOf;
    SplitByText(url);
    EncodedHashHasPercent(SegmentOf(OriginForm(url)));
    FaultyQuery(PairsOf(OriginForm(url)));
  }

  /** What a route says of a fault that is no fragment mark. */
  function OwnSentence(route: Route): Message {
    match route case ItemRoute => PathNotLiteral case CollectionRoute => MalformedEscape
  }

  /** The item route refuses exactly a fragment or an escape in the last segment. */
  lemma ItemExtractionFails(url: Text)
    ensures ExtractionFailure(ItemRoute, url).Some? <==>
              '#' as int in OriginForm(url) || '%' as int in AfterLast(PathOf(OriginForm(url)), '/' as int)
  {
    ExtractionFailsIff(ItemRoute, url);
  }

  /** The collection route refuses exactly a fragment or a pair named `key_id` whose value holds `%23` or does not
      decode. */
  lemma CollectionExtractionFails(url: Text)
    ensures ExtractionFailure(CollectionRoute, url).Some? <==>
              || '#' as int in OriginForm(url)
              || exists pair :: pair in Split(QueryOf(OriginForm(url)), '&' as int) && FaultyKeyId(pair)
  {
    ExtractionFailsIff(CollectionRoute, url);
  }

  /** The route `rawKeyTargetFailure` takes a target for. */
  function RouteOf(target: Text): Route { if IsCollectionPath(PathOf(target)) then CollectionRoute else ItemRoute }

  lemma TargetLook(url: Text)
    ensures TargetFailure(url) == ExtractionFailure(RouteOf(OriginForm(url)), url)
  {
    hide OriginForm, PathSegment, IsCollectionPath, Split, ValuesOf;
    SplitByText(url);
    if '#' as int in OriginForm(url) { HashFails(url); }
  }

  lemma HashFails(url: Text)
    requires '#' as int in OriginForm(url)
    ensures TargetFailure(url) == Some(Message.Fragment)
    ensures ExtractionFailure(ItemRoute, url) == ExtractionFailure(CollectionRoute, url) == Some(Message.Fragment)
  {
    hide OriginForm;
  }

  /** The text `once`, looked at by a route, and the text `twice`, looked at by the route its own path names, get one
      sentence: both show a fragment mark, or neither does and both show the route's own fault. A second look that
      shows no fault falls back to the collection route's sentence. */
  ghost predicate SameFault(route: Route, once: Text, twice: Text) {
    var again := RouteOf(twice);
    && ShowsFault(route, once) && (ShowsFragment(route, once) <==> ShowsFragment(again, twice))
    && (ShowsFragment(route, once)
        || (match route
            case ItemRoute => again.ItemRoute? && ShowsFault(again, twice)
            case CollectionRoute => again.CollectionRoute? || !ShowsFault(again, twice)))
  }

  /** The error handlers' promise, decided on the text for every target and route: they repeat the handler's sentence
      exactly when the reduced target starts with `/v1/keys` and shows the same fault reduced once and twice. */
  lemma SentenceRepeatedIff(p: Platform, reader: Reader, route: Route, url: Text)
    ensures SaysTheSame(ErrorHandlerAnswer(url), HandlerAnswer(p, reader, route, url)) <==>
              && StartsWith(OriginForm(url), T("/v1/keys"))
              && SameFault(route, OriginForm(url), OriginForm(OriginForm(url)))
  {
    hide OriginForm, SaysTheSame, ErrorHandlerAnswer, HandlerAnswer, ExtractionFailure, TargetFailure, RouteOf;
    hide ShowsFault, ShowsFragment;
    BothLooksFailAlike(p, reader, route, url);
    TargetLook(OriginForm(url));
    ExtractionFailsIff(route, url);
    ExtractionFailsIff(RouteOf(OriginForm(OriginForm(url))), OriginForm(url));
  }

  /** With no "://" left and the route read off the reduced target, looking twice is looking once: the promise holds
      exactly when the target shows a fault at all. */
  lemma SentenceRepeatedOnce(p: Platform, reader: Reader, url: Text)
    requires SchemeEnd(OriginForm(url)).None?
    ensures var target := OriginForm(url);
            SaysTheSame(ErrorHandlerAnswer(url), HandlerAnswer(p, reader, RouteOf(target), url)) <==>
              StartsWith(target, T("/v1/keys")) && ShowsFault(RouteOf(target), target)
  {
    hide OriginForm, SaysTheSame, ErrorHandlerAnswer, HandlerAnswer, RouteOf, ShowsFault, ShowsFragment;
    SentenceRepeatedIff(p, reader, RouteOf(OriginForm(url)), url);
    OriginFormFixes(OriginForm(url));
  }

  lemma CollectionPaths(target: Text)
    requires StartsWith(target, T("/v1/keys")) && IsCollectionPath(PathOf(target))
    ensures PathOf(target) == T("/v1/keys") || PathOf(target) == T("/v1/keys") + ['/' as int]
  {
    var path, keys := PathOf(target), T("/v1/keys");
    RouteTexts();
    assert forall i :: 0 <= i < 8 ==> target[i] == target[..8][i] == keys[i];
    assert |path| < |target| ==> target[|path|] == '?' as int;
    assert path[..8] == target[..8] && path == path[..8] + path[8..];
  }

  lemma KeysText()
    ensures T("/v1/keys") == T("/v1") + ['/' as int] + T("keys")
    ensures '/' as int !in T("keys") && '%' as int !in T("keys")
  {}

  lemma KeysSegment(target: Text)
    requires StartsWith(target, T("/v1/keys")) && IsCollectionPath(PathOf(target))
    ensures '%' as int !in SegmentOf(target)
  {
    hide PathOf, IsCollectionPath, AfterLast;
    var path, keys := PathOf(target), T("/v1/keys");
    CollectionPaths(target);
    KeysText();
    AfterLastOf(T("/v1"), '/' as int, T("keys"));
    AfterLastOf(keys, '/' as int, []);
    assert keys + ['/' as int] + [] == keys + ['/' as int];
  }

  /** For every item target with no "://" left the promise holds exactly when it starts with `/v1/keys` and carries a
      fragment or, in its last segment, an escape. */
  lemma ItemSentenceIff(p: Platform, reader: Reader, url: Text)
    requires SchemeEnd(OriginForm(url)).None?
    ensures SaysTheSame(ErrorHandlerAnswer(url), HandlerAnswer(p, reader, ItemRoute, url)) <==>
              && StartsWith(OriginForm(url), T("/v1/keys"))
              && ('#' as int in OriginForm(url) || '%' as int in AfterLast(PathOf(OriginForm(url)), '/' as int))
  {
    hide OriginForm, SaysTheSame, ErrorHandlerAnswer, HandlerAnswer, IsCollectionPath, HashComesFirst, HasFault;
    hide HasEncodedHash, AfterLast, PairsOf, PathOf;
    var target := OriginForm(url);
    SentenceRepeatedIff(p, reader, ItemRoute, url);
    OriginFormFixes(target);
    EncodedHashHasPercent(SegmentOf(target));
    if StartsWith(target, T("/v1/keys")) && IsCollectionPath(PathOf(target)) { KeysSegment(target); }
  }

  /** And for every collection target with no "://" left, when it carries a fragment or a faulty `key_id` pair. */
  lemma CollectionSentenceIff(p: Platform, reader: Reader, url: Text)
    requires SchemeEnd(OriginForm(url)).None? && IsCollectionPath(PathOf(OriginForm(url)))
    ensures SaysTheSame(ErrorHandlerAnswer(url), HandlerAnswer(p, reader, CollectionRoute, url)) <==>
              && StartsWith(OriginForm(url), T("/v1/keys"))
              && ('#' as int in OriginForm(url)
                  || exists pair :: pair in Split(QueryOf(OriginForm(url)), '&' as int) && FaultyKeyId(pair))
  {
    hide OriginForm, SaysTheSame, ErrorHandlerAnswer, HandlerAnswer, IsCollectionPath;
    SentenceRepeatedOnce(p, reader, url);
  }

  // ---------------------------------------------------------------- targets the router rejects

  /** An item target whose last segment the router cannot decode (`FST_ERR_BAD_URL`). */
  predicate RouterRejects(segment: Text, suffix: Text) {
    && '/' as int !in segment && '?' as int !in segment && DecodeComponent(segment).None?
    && (suffix == [] || suffix[0] == '?' as int)
  }

  function Rejected(segment: Text, suffix: Text): Text { T("/v1/keys") + ['/' as int] + segment + suffix }

  /** For a target the router rejects the promise holds if the target mentions no URL. If it does, it holds exactly
      when what the URL leaves behind starts with `/v1/keys` and carries a fragment or, in its last segment, an escape;
      and if a "://" is left even there, when that shows the same fault reduced once more. */
  lemma RejectedSentenceIff(p: Platform, reader: Reader, segment: Text, suffix: Text)
    requires RouterRejects(segment, suffix)
    ensures var url := Rejected(segment, suffix);
            var target := OriginForm(url);
            SaysTheSame(ErrorHandlerAnswer(url), HandlerAnswer(p, reader, ItemRoute, url)) <==>
              || SchemeEnd(url).None?
              || (&& StartsWith(target, T("/v1/keys"))
                  && ('#' as int in target || '%' as int in AfterLast(PathOf(target), '/' as int))
                  && (SchemeEnd(target).None? || SameFault(ItemRoute, target, OriginForm(target))))
  {
    hide SaysTheSame, HandlerAnswer, ErrorHandlerAnswer, OriginForm, Rejected, SchemeEnd, RouteOf, PathOf, AfterLast;
    hide ShowsFragment;
    var url := Rejected(segment, suffix);
    SentenceRepeatedIff(p, reader, ItemRoute, url);
    if SchemeEnd(OriginForm(url)).None? { ItemSentenceIff(p, reader, url); }
    if SchemeEnd(url).None? {
      OriginFormFixes(url);
      RejectedShowsFault(segment, suffix);
    }
  }

  lemma RejectedShowsFault(segment: Text, suffix: Text)
    requires RouterRejects(segment, suffix)
    ensures var url := Rejected(segment, suffix);
            StartsWith(url, T("/v1/keys")) && '%' as int in AfterLast(PathOf(url), '/' as int)
  {
    hide DecodeComponent;
    var url, path := Rejected(segment, suffix), T("/v1/keys") + ['/' as int] + segment;
    assert url[..8] == T("/v1/keys");
    RejectedPath(segment, suffix);
    AfterLastOf(T("/v1/keys"), '/' as int, segment);
    if '%' as int !in segment { DecodeWithoutPercent(segment); }
  }

  lemma RejectedPath(segment: Text, suffix: Text)
    requires RouterRejects(segment, suffix)
    ensures PathOf(Rejected(segment, suffix)) == T("/v1/keys") + ['/' as int] + segment
  {
    hide DecodeComponent;
    var url, path := Rejected(segment, suffix), T("/v1/keys") + ['/' as int] + segment;
    RouteTexts();
    if suffix == [] {
      assert url == path;
    } else {
      assert url == path + ['?' as int] + suffix[1..];
      IndexAfter(path, '?' as int, suffix[1..]);
    }
  }

  // ---------------------------------------------------------------- where the promise fails

  /** A rejected target whose query mentions a URL with a key path of its own: the error handler speaks of a malformed
      escape, the handler of a bad wire form. */
  lemma SentenceLost(p: Platform, reader: Reader, url: Text, tail: Text)
    requires OriginForm(url) == T("/v1/keys") + ['/' as int] + tail
    requires tail != [] && ':' as int !in tail && '/' as int !in tail && '?' as int !in tail && '#' as int !in tail
    requires '%' as int !in tail
    requires !IsUlid(tail)
    ensures ErrorHandlerAnswer(url) == InvalidKeyId(MalformedEscape)
    ensures HandlerAnswer(p, reader, ItemRoute, url) == Refused(BadWireForm)
  {
    hide IsUlid, SchemeEnd;
    var target := T("/v1/keys") + ['/' as int] + tail;
    RouteTexts();
    NeitherHas(':' as int, T("/v1/keys/"), tail);
    NoColonNoScheme(target);
    OriginFormFixes(target);
    assert target[..8] == T("/v1/keys") && target[8..] == ['/' as int] + tail;
    NoQuery(url);
    NoQuery(target);
    LiteralSegment(url, tail);
    LiteralSegment(target, tail);
    ReferenceAccepted(tail, InPath);
  }

  lemma LiteralSegment(url: Text, tail: Text)
    requires SplitTarget(url) == Ok(Target(T("/v1/keys") + ['/' as int] + tail, []))
    requires '/' as int !in tail && '%' as int !in tail
    ensures PathSegment(url) == Ok(tail)
  {
    AfterLastOf(T("/v1/keys"), '/' as int, tail);
    NoEncodedHash(tail);
  }

  /** A target reduced to another path altogether is not even recognised as a key lookup. */
  lemma TargetLost(p: Platform, reader: Reader, url: Text, tail: Text)
    requires OriginForm(url) == ['/' as int] + tail && |tail| < 7
    requires '/' as int !in tail && '?' as int !in tail && '#' as int !in tail && '%' as int !in tail
    ensures ErrorHandlerAnswer(url) == BadRequest
    ensures HandlerAnswer(p, reader, ItemRoute, url) == Refused(BadWireForm)
  {
    NoQuery(url);
    AfterLastOf([], '/' as int, tail);
    assert [] + ['/' as int] + tail == ['/' as int] + tail;
    NoEncodedHash(tail);
    ReferenceAccepted(tail, InPath);
  }

  /** A query that mentions a URL on host `h`. */
  function Mention(rest: Text): Text { T("?ref=x") + T("://") + (T("h") + ['/' as int] + rest) }

  /** One such target, `/v1/keys/A%ZZ?ref=x://h/v1/keys/B`, rejected by the router. */
  lemma SentenceBroken(p: Platform, reader: Reader)
    ensures var suffix := Mention(T("v1/keys/B"));
            && RouterRejects(T("A%ZZ"), suffix)
            && ErrorHandlerAnswer(Rejected(T("A%ZZ"), suffix)) == InvalidKeyId(MalformedEscape)
            && HandlerAnswer(p, reader, ItemRoute, Rejected(T("A%ZZ"), suffix)) == Refused(BadWireForm)
  {
    hide ErrorHandlerAnswer, HandlerAnswer, IsUlid, Rejected, DecodeComponent;
    MentionRejected(T("v1/keys/B"));
    MentioningReduces(T("v1/keys/B"));
    BrokenTexts();
    SentenceLost(p, reader, Rejected(T("A%ZZ"), Mention(T("v1/keys/B"))), T("B"));
  }

  /** Another, `/v1/keys/A%ZZ?ref=x://h/p`. */
  lemma TargetBroken(p: Platform, reader: Reader)
    ensures var suffix := Mention(T("p"));
            && RouterRejects(T("A%ZZ"), suffix)
            && ErrorHandlerAnswer(Rejected(T("A%ZZ"), suffix)) == BadRequest
            && HandlerAnswer(p, reader, ItemRoute, Rejected(T("A%ZZ"), suffix)) == Refused(BadWireForm)
  {
    hide ErrorHandlerAnswer, HandlerAnswer, IsUlid, Rejected, DecodeComponent;
    MentionRejected(T("p"));
    MentioningReduces(T("p"));
    BrokenTexts();
    TargetLost(p, reader, Rejected(T("A%ZZ"), Mention(T("p"))), T("p"));
  }

  lemma MentionRejected(rest: Text)
    ensures RouterRejects(T("A%ZZ"), Mention(rest))
  {
    hide DecodeComponent;
    Undecodable();
    assert Mention(rest)[0] == T("?ref=x")[0];
  }

  lemma Undecodable()
    ensures DecodeComponent(T("A%ZZ")).None? && '/' as int !in T("A%ZZ") && '?' as int !in T("A%ZZ")
    ensures T("?ref=x")[0] == '?' as int
  {
    var t := T("A%ZZ");
    assert t[1..][0] == '%' as int && EscapedByte(t[1..]).None?;
    assert DecodeComponent(t[1..]).None?;
  }

  lemma BrokenTexts()
    ensures ['/' as int] + T("v1/keys/B") == T("/v1/keys") + ['/' as int] + T("B")
    ensures |T("B")| == 1 && T("B")[0] == 'B' as int && !IsUlid(T("B")) && |T("p")| == 1 && T("p")[0] == 'p' as int
  {}

  lemma MentioningReduces(rest: Text)
    ensures OriginForm(Rejected(T("A%ZZ"), Mention(rest))) == ['/' as int] + rest
  {
    hide OriginForm;
    var before := T("/v1/keys") + ['/' as int] + T("A%ZZ") + T("?ref=x");
    MentioningText(T("/v1/keys") + ['/' as int] + T("A%ZZ"), T("?ref=x"), T("h") + ['/' as int] + rest);
    NoColons();
    OriginFormCuts(before, T("h"), rest);
  }

  lemma MentioningText(path: Text, name: Text, after: Text)
    ensures path + (name + T("://") + after) == path + name + T("://") + after
  {
    Regroup(path, name + T("://"), after);
    Regroup(path, name, T("://"));
  }

  lemma NoColons()
    ensures ':' as int !in T("/v1/keys") + ['/' as int] + T("A%ZZ") + T("?ref=x") && '/' as int !in T("h")
  {}
}
