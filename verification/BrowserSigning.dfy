// Signing in the browser (packages/web/lib/client-crypto.ts), and what the registry makes of the result.
module BrowserSigning {
  import opened Prelude
  import opened Text
  import opened Utf8
  import opened Json
  import opened Identifier
  import opened Objects
  import opened SignedObjects
  import opened Crypto
  import Jcs
  import BrowserJcs
  import JcsBytes
  import Ulid
  import Uri
  import R = Registry
  import C = ConcurrentRegistration
  import D = Directory

  // ---------------------------------------------------------------- the key file

  datatype KeyPair = KeyPair(seed: Bytes, publicKey: Text)

  predicate IsHexDigit(u: Unit) { Uri.HexDigitValue(u).Some? }

  /** `/^[0-9a-f]{64}$/i` */
  predicate IsSeedHex(t: Text) { |t| == 64 && forall i :: 0 <= i < 64 ==> IsHexDigit(t[i]) }

  /** `b.toString(16)` */
  function ByteToString16(b: Byte): Text {
    if b < 16 then [Jcs.HexDigit(b)] else [Jcs.HexDigit(b / 16), Jcs.HexDigit(b % 16)]
  }

  /** `t.padStart(2, "0")` */
  function PadStart2(t: Text): Text {
    if |t| == 0 then T("00") else if |t| == 1 then T("0") + t else t
  }

  function HexEncode(bytes: Bytes): Text {
    if bytes == [] then [] else PadStart2(ByteToString16(bytes[0])) + HexEncode(bytes[1..])
  }

  /** `parseInt(pair, 16)` on two hexadecimal digits. */
  function ParsePair(a: Unit, b: Unit): Byte
    requires IsHexDigit(a) && IsHexDigit(b)
  {
    var high, low := Uri.HexDigitValue(a).value, Uri.HexDigitValue(b).value;
    high * 16 + low
  }

  function HexDecode(t: Text): (r: Bytes)
    requires |t| % 2 == 0 && forall i :: 0 <= i < |t| ==> IsHexDigit(t[i])
    ensures |r| == |t| / 2 && forall i :: 0 <= i < |r| ==> r[i] == ParsePair(t[2 * i], t[2 * i + 1])
  {
    if t == [] then [] else [ParsePair(t[0], t[1])] + HexDecode(t[2..])
  }

  lemma PairReadsBack(b: Byte)
    ensures var pair := PadStart2(ByteToString16(b));
            |pair| == 2 && IsHexDigit(pair[0]) && IsHexDigit(pair[1]) && ParsePair(pair[0], pair[1]) == b
  {
    var zero := T("0");
    assert zero == ['0' as int];
    assert b / 16 * 16 + b % 16 == b;
  }

  lemma {:induction false} HexReadsBack(bytes: Bytes)
    ensures |HexEncode(bytes)| == 2 * |bytes| && forall i :: 0 <= i < |HexEncode(bytes)| ==>
              IsHexDigit(HexEncode(bytes)[i])
    ensures HexDecode(HexEncode(bytes)) == bytes
  {
    hide PadStart2, ByteToString16, ParsePair, HexDecode;
    if bytes == [] {
      NothingDecodes();
    } else {
      var pair, rest := PadStart2(ByteToString16(bytes[0])), HexEncode(bytes[1..]);
      HexReadsBack(bytes[1..]);
      PairReadsBack(bytes[0]);
      PairThenRest(pair, rest);
    }
  }

  lemma NothingDecodes()
    ensures HexDecode([]) == []
  {}

  lemma PairThenRest(pair: Text, rest: Text)
    requires |pair| == 2 && IsHexDigit(pair[0]) && IsHexDigit(pair[1])
    requires |rest| % 2 == 0 && forall i :: 0 <= i < |rest| ==> IsHexDigit(rest[i])
    ensures forall i :: 0 <= i < |pair + rest| ==> IsHexDigit((pair + rest)[i])
    ensures HexDecode(pair + rest) == [ParsePair(pair[0], pair[1])] + HexDecode(rest)
  {
    hide ParsePair;
    assert (pair + rest)[2..] == rest;
  }

  /** `keyPairFromPrivateHex`; None where it throws. */
  method KeyPairFromPrivateHex(p: Platform, hex: Text) returns (r: Option<KeyPair>)
    ensures r.Some? <==> IsSeedHex(hex)
    ensures r.Some? ==> r.value == KeyPair(HexDecode(hex), p.publicKey(HexDecode(hex)))
  {
    if !IsSeedHex(hex) { return None; }
    var privateKey := new Byte[32];
    for i := 0 to 32
      invariant forall k :: 0 <= k < i ==> privateKey[k] == ParsePair(hex[2 * k], hex[2 * k + 1])
    {
      privateKey[i] := ParsePair(hex[2 * i], hex[2 * i + 1]);
    }
    assert privateKey[..] == HexDecode(hex);
    r := Some(KeyPair(privateKey[..], p.publicKey(privateKey[..])));
  }

  /** The key file brings back the key pair whose seed it holds. */
  lemma KeyFileRoundTrip(seed: Bytes)
    requires |seed| == 32
    ensures IsSeedHex(HexEncode(seed)) && HexDecode(HexEncode(seed)) == seed
  {
    HexReadsBack(seed);
  }

  // ---------------------------------------------------------------- canonical bytes in the browser

  function BrowserBytes(v: Value): Result<Bytes, BrowserJcs.Refusal> {
    var text :- BrowserJcs.BrowserCanonical(v);
    Ok(Encode(text))
  }

  /** On the protocol's objects the browser computes core's canonical bytes. */
  lemma SameBytes(v: Value)
    requires Tame(v)
    ensures JcsBytes.CanonicalBytes(v).Ok? && BrowserBytes(v).Ok?
    ensures BrowserBytes(v).value == JcsBytes.CanonicalBytes(v).value
  {
    TameIsCanonicalizable(v);
    Jcs.CanonicalAccepts(v);
    BrowserJcs.CanonicalizersAgree(v);
  }

  // ---------------------------------------------------------------- signing an agent

  datatype ManifestInput = ManifestInput(
    operator: Text,
    operatorDomain: Text,
    disclosesToUser: bool,
    humanEscalation: bool,
    purposeSummary: Text,
    contact: Option<Text>,
    description: Option<Text>,
    channels: Option<seq<Channel>>)

  /** The text if it is truthy. */
  function Truthy(t: Option<Text>): Option<Text> { if t.Some? && t.value == [] then None else t }

  function ManifestOf(agentId: Text, agentName: Text, input: ManifestInput): Manifest {
    Manifest(T("1.0"), agentId, agentName, Truthy(input.description),
             input.operator, input.operatorDomain, Truthy(input.contact), input.purposeSummary,
             if input.channels.Some? && |input.channels.value| > 0 then input.channels.value else [Voice],
             true, input.disclosesToUser, input.humanEscalation)
  }

  /** What the manifest says: the input's own words, an empty description or contact left out, voice where no channel is
      chosen, and always that this is an AI. */
  lemma ManifestSays(agentId: Text, agentName: Text, input: ManifestInput)
    ensures var m := ManifestOf(agentId, agentName, input);
            && m.version == T("1.0") && m.agentId == agentId && m.name == agentName && m.isAi
            && m.operator == input.operator && m.operatorDomain == input.operatorDomain
            && m.summary == input.purposeSummary
            && m.disclosesToUser == input.disclosesToUser && m.humanEscalation == input.humanEscalation
            && (forall t: Text :: m.description == Some(t) <==> input.description == Some(t) && t != [])
            && (forall t: Text :: m.contact == Some(t) <==> input.contact == Some(t) && t != [])
            && (input.channels.None? || input.channels.value == [] ==> m.channels == [Voice])
            && (input.channels.Some? && input.channels.value != [] ==> m.channels == input.channels.value)
  {}

  const NINETY_DAYS_MS := 7_776_000_000

  /** What `crypto.getRandomValues` and `Date.now` gave for one ULID. */
  datatype Draw = Draw(time: nat, random: Bytes)

  function AgentIdOf(d: Draw): Text { T("agenid:") + Ulid.UlidText(d.time, d.random) }

  function KeyIdOf(d: Draw): Text { T("agenid:key:") + Ulid.UlidText(d.time, d.random) }

  /** `signAgent`: the manifest, proof and key document it sends, or the canonicalizer's refusal. */
  function SignAgent(p: Platform, k: KeyPair, agentName: Text, input: ManifestInput, now: int, agent: Draw, key: Draw)
    : Result<R.RegisterBody, BrowserJcs.Refusal>
  {
    var agentId, keyId := AgentIdOf(agent), KeyIdOf(key);
    var manifest := ManifestOf(agentId, agentName, input);
    var manifestBytes :- BrowserBytes(Obj(true, ManifestMembers(manifest)));
    var document := KeyDocument(keyId, k.publicKey, Operator, agentId, p.toIso(now), Active, None, None);
    var payload := ProofPayload(agentId, T("1.0"), p.sha256Hex(manifestBytes), keyId,
                                p.toIso(now), p.toIso(now + NINETY_DAYS_MS));
    var proofBytes :- BrowserBytes(Obj(true, ProofMembers(payload)));
    Ok(R.RegisterBody(manifest, Signed(payload, p.sign(k.seed, proofBytes)), document))
  }

  function SignDirectoryConsent(p: Platform, k: KeyPair, agentId: Text, keyId: Text, listed: bool, now: int)
    : Result<DirectoryConsent, BrowserJcs.Refusal>
  {
    var payload := ConsentPayload(agentId, keyId, listed, p.toIso(now));
    var bytes :- BrowserBytes(Obj(true, ConsentMembers(payload)));
    Ok(Signed(payload, p.sign(k.seed, bytes)))
  }

  // ---------------------------------------------------------------- what the libraries owe

  const FIRST_FOUR_DIGIT_MS := -62_167_219_200_000  // 0000-01-01T00:00:00.000Z
  const LAST_FOUR_DIGIT_MS := 253_402_300_799_999   // 9999-12-31T23:59:59.999Z
  const DATE_RANGE_MS := 8_640_000_000_000_000      // section 21.4.1.1 of ECMA-262

  predicate InDateRange(t: int) { -DATE_RANGE_MS <= t <= DATE_RANGE_MS }

  predicate HasFourDigitYear(t: int) { FIRST_FOUR_DIGIT_MS <= t <= LAST_FOUR_DIGIT_MS }

  /** `toISOString` parses back, and has the protocol's shape while the year has four digits. */
  ghost predicate ClockLaws(p: Platform) {
    && (forall t :: InDateRange(t) ==> p.dateParse(p.toIso(t)) == Some(t))
    && (forall t :: HasFourDigitYear(t) ==> p.isRfc3339(p.toIso(t)))
  }

  /** Sizes and alphabets of what Ed25519 and SHA-256 give, as base64url and hexadecimal text. */
  ghost predicate EncodingLaws(p: Platform) {
    && (forall seed, message :: IsSignature(p.sign(seed, message)))
    && (forall seed :: IsPublicKey(p.publicKey(seed)))
    && (forall bytes :: IsSha256Hex(p.sha256Hex(bytes)))
  }

  ghost predicate Laws(p: Platform) { SignaturesVerify(p) && ClockLaws(p) && EncodingLaws(p) }

  /** Laws other results name: instants read back whatever text they came from, and collation is a total order. */
  ghost predicate OtherLaws(p: Platform) { D.InstantsReadBack(p) && R.CollationLaws(p) }

  function Filled(n: nat, u: Unit): (t: Text)
    ensures |t| == n && forall i :: 0 <= i < n ==> t[i] == u
  {
    seq(n, i => u)
  }

  /** Instants written in unary: even lengths for the times from 1970 on, odd ones for those before. */
  function UnaryIso(t: int): Text { Filled(if t >= 0 then 2 * t else -2 * t - 1, 0) }

  function UnaryParse(t: Text): Option<int> { Some(if |t| % 2 == 0 then |t| / 2 else -((|t| + 1) / 2)) }

  lemma UnaryReadsBack(t: int)
    ensures UnaryParse(UnaryIso(t)) == Some(t)
  {}

  function AcceptingPlatform(): Platform {
    Platform(UnaryParse, UnaryIso, t => true, bytes => Filled(64, 'a' as int), (a, b, c) => true,
             (a, b) => Filled(86, 'a' as int), a => Filled(43, 'a' as int),
             (t, n) => true, t => true, t => true, (a, b) => true)
  }

  /** Some platform obeys all the laws: they contradict neither each other nor anything else. */
  lemma LawsCanHold()
    ensures Laws(AcceptingPlatform()) && OtherLaws(AcceptingPlatform())
  {
    var p := AcceptingPlatform();
    forall t: int ensures p.dateParse(p.toIso(t)) == Some(t) { UnaryReadsBack(t); }
    assert IsSignature(Filled(86, 'a' as int)) && IsPublicKey(Filled(43, 'a' as int));
    assert IsSha256Hex(Filled(64, 'a' as int));
  }

  // ---------------------------------------------------------------- what the browser sends

  predicate IsDraw(d: Draw) { d.time < Ulid.TIME_LIMIT && |d.random| == 10 }

  lemma DrawnIds(d: Draw)
    requires IsDraw(d)
    ensures IsAgentId(AgentIdOf(d)) && IsKeyId(KeyIdOf(d))
  {
    Ulid.UlidIsValid(d.time, d.random);
    PrefixOfConcat(T("agenid:"), Ulid.UlidText(d.time, d.random));
    PrefixOfConcat(T("agenid:key:"), Ulid.UlidText(d.time, d.random));
  }

  /** The key document it publishes. */
  function SentKey(p: Platform, k: KeyPair, now: int, agent: Draw, key: Draw): KeyDocument {
    KeyDocument(KeyIdOf(key), k.publicKey, Operator, AgentIdOf(agent), p.toIso(now), Active, None, None)
  }

  /** The body `signAgent` sends, in core's terms: core's digest of the manifest, signed on core's signing input. */
  lemma SentBody(p: Platform, k: KeyPair, agentName: Text, input: ManifestInput, now: int, agent: Draw, key: Draw)
    ensures SignAgent(p, k, agentName, input, now, agent, key).Ok?
    ensures var b := SignAgent(p, k, agentName, input, now, agent, key).value;
            && b.manifest == ManifestOf(AgentIdOf(agent), agentName, input)
            && b.proof.payload == ProofPayload(AgentIdOf(agent), T("1.0"), ManifestDigest(p, b.manifest), KeyIdOf(key),
                                               p.toIso(now), p.toIso(now + NINETY_DAYS_MS))
            && b.proof.signature == p.sign(k.seed, SigningInput(ProofOf(b.proof.payload)))
            && b.key == SentKey(p, k, now, agent, key)
  {
    var manifest := ManifestOf(AgentIdOf(agent), agentName, input);
    ManifestTame(manifest);
    SameBytes(Obj(true, ManifestMembers(manifest)));
    var payload := ProofPayload(AgentIdOf(agent), T("1.0"), ManifestDigest(p, manifest), KeyIdOf(key),
                                p.toIso(now), p.toIso(now + NINETY_DAYS_MS));
    ProofTame(payload);
    SameBytes(Obj(true, ProofMembers(payload)));
  }

  /** A key pair whose public key is that of its seed. */
  predicate Paired(p: Platform, k: KeyPair) { k.publicKey == p.publicKey(k.seed) }

  /** The clock leaves the whole validity period inside the four-digit years. */
  predicate GoodClock(now: int) { HasFourDigitYear(now) && HasFourDigitYear(now + NINETY_DAYS_MS) }

  lemma SentKeyIsValid(p: Platform, k: KeyPair, now: int, agent: Draw, key: Draw)
    requires Laws(p) && Paired(p, k) && GoodClock(now) && IsDraw(agent) && IsDraw(key)
    ensures ValidKey(p, SentKey(p, k, now, agent, key))
  {
    DrawnIds(agent);
    DrawnIds(key);
    assert IsPublicKey(p.publicKey(k.seed));
    assert p.dateParse(p.toIso(now)) == Some(now) && p.isRfc3339(p.toIso(now));
  }

  lemma SentProofStands(p: Platform, k: KeyPair, agentName: Text, input: ManifestInput, now: int, agent: Draw,
                        key: Draw)
    requires Laws(p) && Paired(p, k) && GoodClock(now) && IsDraw(agent) && IsDraw(key)
    requires ValidManifest(p, ManifestOf(AgentIdOf(agent), agentName, input))
    ensures SignAgent(p, k, agentName, input, now, agent, key).Ok?
    ensures var b := SignAgent(p, k, agentName, input, now, agent, key).value;
            ProofStands(p, b.proof, b.manifest, b.key)
  {
    SentBody(p, k, agentName, input, now, agent, key);
    SentKeyIsValid(p, k, now, agent, key);
    DrawnIds(agent);
    DrawnIds(key);
    var b := SignAgent(p, k, agentName, input, now, agent, key).value;
    var x := b.proof.payload;
    assert IsSha256Hex(p.sha256Hex(ManifestBytes(b.manifest))) && IsSignature(b.proof.signature);
    assert p.dateParse(p.toIso(now)) == Some(now) && p.dateParse(x.expiresAt) == Some(now + NINETY_DAYS_MS);
    assert p.isRfc3339(p.toIso(now)) && p.isRfc3339(p.toIso(now + NINETY_DAYS_MS));
    assert ValidProof(p, b.proof);
    assert p.verify(p.publicKey(k.seed), SigningInput(ProofOf(x)), p.sign(k.seed, SigningInput(ProofOf(x))));
  }

  /** For every input that meets the manifest schema and fresh ids: the registry accepts what the browser signed at
      every server clock from 120 seconds behind the browser's to the proof's expiry, and at no other. */
  lemma BrowserRegisters(p: Platform, s: R.State, k: KeyPair, agentName: Text, input: ManifestInput, now: int,
                         agent: Draw, key: Draw, serverNow: int, written: int)
    requires Laws(p) && Paired(p, k) && GoodClock(now) && IsDraw(agent) && IsDraw(key) && InDateRange(serverNow)
    requires ValidManifest(p, ManifestOf(AgentIdOf(agent), agentName, input))
    requires AgentIdOf(agent) !in s.agents && KeyIdOf(key) !in s.keys
    ensures SignAgent(p, k, agentName, input, now, agent, key).Ok?
    ensures var b := SignAgent(p, k, agentName, input, now, agent, key).value;
            R.RegisterStep(p, s, b, serverNow, written).1.Registered?
            <==> now - 120_000 <= serverNow <= now + 7_776_000_000
  {
    SentBody(p, k, agentName, input, now, agent, key);
    SentProofStands(p, k, agentName, input, now, agent, key);
    var b := SignAgent(p, k, agentName, input, now, agent, key).value;
    ClockDecides(p, b, now, serverNow);
  }

  /** For a body that stands, only the clock decides. */
  lemma ClockDecides(p: Platform, b: R.RegisterBody, now: int, serverNow: int)
    requires ClockLaws(p) && InDateRange(serverNow) && GoodClock(now)
    requires ProofStands(p, b.proof, b.manifest, b.key)
    requires b.proof.payload.createdAt == p.toIso(now) && b.proof.payload.expiresAt == p.toIso(now + NINETY_DAYS_MS)
    ensures R.RegisterFailure(p, b, serverNow).None? <==>
              now - 120_000 <= serverNow <= now + 7_776_000_000
  {
    assert p.dateParse(p.toIso(now)) == Some(now);
    assert p.dateParse(p.toIso(now + NINETY_DAYS_MS)) == Some(now + NINETY_DAYS_MS);
    assert p.dateParse(p.toIso(serverNow)) == Some(serverNow);
    var rt := R.RegistrationTime(p, b.proof.payload.createdAt, serverNow);
    if rt.Some? { ProofAcceptedIff(p, b.proof, b.manifest, b.key, rt.value.now); }
  }

  /** Two browsers that sign for different agents under one key id, at good clocks: the registry accepts either alone,
      and some interleaving of the two requests replaces the first one's key by the second's. */
  lemma BrowsersReplaceKey(p: Platform, s: R.State, k1: KeyPair, k2: KeyPair, agentName: Text, input: ManifestInput,
                           now: int, agent1: Draw, agent2: Draw, key: Draw)
    requires Laws(p) && Paired(p, k1) && Paired(p, k2) && GoodClock(now)
    requires IsDraw(agent1) && IsDraw(agent2) && IsDraw(key) && AgentIdOf(agent1) != AgentIdOf(agent2)
    requires ValidManifest(p, ManifestOf(AgentIdOf(agent1), agentName, input))
    requires ValidManifest(p, ManifestOf(AgentIdOf(agent2), agentName, input))
    requires AgentIdOf(agent1) !in s.agents && AgentIdOf(agent2) !in s.agents && KeyIdOf(key) !in s.keys
    ensures SignAgent(p, k1, agentName, input, now, agent1, key).Ok?
    ensures SignAgent(p, k2, agentName, input, now, agent2, key).Ok?
    ensures var a := SignAgent(p, k1, agentName, input, now, agent1, key).value;
            var b := SignAgent(p, k2, agentName, input, now, agent2, key).value;
            && R.RegisterStep(p, s, a, now, now).1.Registered? && R.RegisterStep(p, s, b, now, now).1.Registered?
            && C.KeyIsReplaced(C.World(s.agents, s.keys, [], [C.Arriving(p, a, now, now), C.Arriving(p, b, now, now)]),
                               KeyIdOf(key), a.key, b.key)
            && a.key != b.key
  {
    hide C.KeyIsReplaced, SignAgent, ValidManifest;
    BrowserRegisters(p, s, k1, agentName, input, now, agent1, key, now, now);
    BrowserRegisters(p, s, k2, agentName, input, now, agent2, key, now, now);
    SentBody(p, k1, agentName, input, now, agent1, key);
    SentBody(p, k2, agentName, input, now, agent2, key);
    var a := SignAgent(p, k1, agentName, input, now, agent1, key).value;
    var b := SignAgent(p, k2, agentName, input, now, agent2, key).value;
    C.BodiesReplaceKey(p, s, a, b, now, now, now, now);
  }

  // ---------------------------------------------------------------- and lists

  /** The agent is registered and active under the operator key of this pair. */
  predicate Operates(s: R.State, k: KeyPair, agentId: Text, keyId: Text) {
    && agentId in s.agents && s.agents[agentId].status == R.ACTIVE && s.agents[agentId].proof.payload.keyId == keyId
    && keyId in s.keys && s.keys[keyId].role == Operator && s.keys[keyId].controller == agentId
    && s.keys[keyId].status == Active && s.keys[keyId].publicKey == k.publicKey
  }

  /** A registration leaves the browser's key pair operating the agent. */
  lemma RegisteringOperates(p: Platform, s: R.State, k: KeyPair, agentName: Text, input: ManifestInput, now: int,
                            agent: Draw, key: Draw, serverNow: int, written: int)
    requires SignAgent(p, k, agentName, input, now, agent, key).Ok?
    requires var b := SignAgent(p, k, agentName, input, now, agent, key).value;
             R.RegisterStep(p, s, b, serverNow, written).1.Registered?
    ensures var b := SignAgent(p, k, agentName, input, now, agent, key).value;
            Operates(R.RegisterStep(p, s, b, serverNow, written).0, k, AgentIdOf(agent), KeyIdOf(key))
  {
    SentBody(p, k, agentName, input, now, agent, key);
  }

  /** Operating an agent lasts through every further run of the registry. */
  lemma OperatesStays(p: Platform, s: R.State, cs: seq<R.Command>, k: KeyPair, agentId: Text, keyId: Text)
    requires R.Invariant(p, s) && Operates(s, k, agentId, keyId)
    ensures Operates(R.Run(p, s, cs), k, agentId, keyId)
  {
    R.RunKeeps(p, s, cs);
  }

  /** A consent the operator's browser signs is recorded exactly when the registry's clock is within five minutes of the
      browser's and no consent at least as new is on record. */
  lemma BrowserConsents(p: Platform, s: R.State, rows: seq<D.DirectoryRecord>, k: KeyPair, agentId: Text, keyId: Text,
                        listed: bool, signedAt: int, now: int)
    requires Laws(p) && Paired(p, k) && HasFourDigitYear(signedAt) && IsAgentId(agentId) && IsKeyId(keyId)
    requires Operates(s, k, agentId, keyId)
    ensures SignDirectoryConsent(p, k, agentId, keyId, listed, signedAt).Ok?
    ensures var c := SignDirectoryConsent(p, k, agentId, keyId, listed, signedAt).value;
            && c.payload.listed == listed
            && (D.ConsentStep(p, s, rows, c, now, D.AllUp).1.Recorded? <==>
                  -300_000 <= now - signedAt <= 300_000 && !D.IsSuperseded(p, rows, c))
  {
    var payload := ConsentPayload(agentId, keyId, listed, p.toIso(signedAt));
    ConsentTame(payload);
    SameBytes(Obj(true, ConsentMembers(payload)));
    var c := SignDirectoryConsent(p, k, agentId, keyId, listed, signedAt).value;
    assert c.signature == p.sign(k.seed, SigningInput(ConsentOf(payload)));
    assert IsSignature(c.signature);
    assert p.dateParse(p.toIso(signedAt)) == Some(signedAt) && p.isRfc3339(p.toIso(signedAt));
    assert p.verify(p.publicKey(k.seed), SigningInput(ConsentOf(payload)), c.signature);
  }
}
