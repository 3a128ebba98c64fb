// The one signing construction (packages/core/src/crypto.ts): strip `signature`, canonicalize.
module SignedObjects {
  import opened Prelude
  import opened Text
  import opened Json
  import opened Jcs
  import opened JcsBytes
  import opened Utf8
  import opened Objects

  // ---------------------------------------------------------------- the objects as JSON

  function Text1(k: string, v: Text): Member { Member(T(k), Str(v)) }

  function Flag(k: string, v: bool): Member { Member(T(k), Bool(v)) }

  function Strings(ts: seq<Text>): (r: seq<Value>)
    ensures |r| == |ts| && forall i :: 0 <= i < |r| ==> r[i] == Str(ts[i])
  {
    seq(|ts|, i requires 0 <= i < |ts| => Str(ts[i]))
  }

  function Optional(k: string, v: Option<Text>): seq<Member> {
    match v case Some(t) => [Text1(k, t)] case None => []
  }

  function DigestJson(value: Text): Value {
    Obj(true, [Text1("alg", T("sha-256")), Text1("value", value)])
  }

  function ProofMembers(x: ProofPayload): seq<Member> {
    [ Text1("$schema", T("https://agenid.com/schemas/v1.1.1/manifest-proof.json")),
      Text1("proof_type", T("manifest_self_declaration")),
      Text1("agent_id", x.agentId),
      Text1("manifest_version", x.version),
      Member(T("manifest_digest"), DigestJson(x.digest)),
      Text1("key_id", x.keyId),
      Text1("created_at", x.createdAt),
      Text1("expires_at", x.expiresAt) ]
  }

  function LevelText(l: Level): Text {
    match l
    case L1 => T("L1_REGISTERED")
    case L2 => T("L2_DOMAIN_VERIFIED")
    case L3 => T("L3_ORGANIZATION_VERIFIED")
    case L4 => T("L4_DEPLOYMENT_VERIFIED")
  }

  function SubjectTypeText(s: SubjectType): Text {
    match s case AgentSubject => T("agent") case DeploymentSubject => T("deployment")
  }

  function EvidenceText(e: EvidenceType): Text {
    match e
    case SchemaValidation => T("schema_validation")
    case DnsTxt => T("dns_txt_challenge")
    case HttpWellKnown => T("http_wellknown_challenge")
    case BusinessRegistry => T("business_registry_match")
    case DocumentReview => T("document_review")
    case DeploymentSample => T("deployment_sample_review")
  }

  function ClaimMembers(c: Claim): seq<Member> {
    match c
    case Registration => [Text1("type", T("registration"))]
    case DomainControl(d) => [Text1("type", T("domain_control")), Text1("domain", d)]
    case OrganizationIdentity(n, j) =>
      [Text1("type", T("organization_identity")), Text1("legal_name", n)] + Optional("jurisdiction", j)
    case DeploymentConformance(d) => [Text1("type", T("deployment_conformance")), Text1("deployment_id", d)]
  }

  function EvidenceMembers(a: AssertionPayload): seq<Member> {
    [Text1("type", EvidenceText(a.evidenceType)), Text1("reference", a.evidenceReference)]
  }

  function AssertionMembers(a: AssertionPayload): seq<Member> {
    [ Text1("$schema", T("https://agenid.com/schemas/v1.1.1/assertion.json")),
      Text1("assertion_id", a.assertionId),
      Text1("subject", a.subject),
      Text1("subject_type", SubjectTypeText(a.subjectType)),
      Text1("level", LevelText(a.level)),
      Member(T("claim"), Obj(true, ClaimMembers(a.claim))),
      Text1("authority", a.authority),
      Member(T("evidence"), Obj(true, EvidenceMembers(a))),
      Text1("verified_at", a.verifiedAt),
      Text1("expires_at", a.expiresAt),
      Text1("scope", a.scope),
      Member(T("manifest_digest"), DigestJson(a.digest)),
      Text1("key_id", a.keyId) ]
  }

  function ConstraintMembers(c: Constraint): seq<Member> {
    match c
    case CounterpartyDomain(ds) => [Text1("type", T("counterparty_domain")), Member(T("domains"), Arr(Strings(ds)))]
    case MaxValue(currency, amount) =>
      [Text1("type", T("max_value")), Text1("currency", currency), Text1("amount_minor", amount)]
    case MaxUses(count) => [Text1("type", T("max_uses")), Text1("count", count)]
    case RequiresHumanConfirmation => [Text1("type", T("requires_human_confirmation"))]
  }

  function ConstraintsJson(cs: seq<Constraint>): (r: seq<Value>)
    ensures |r| == |cs| && forall i :: 0 <= i < |r| ==> r[i] == Obj(true, ConstraintMembers(cs[i]))
  {
    seq(|cs|, i requires 0 <= i < |cs| => Obj(true, ConstraintMembers(cs[i])))
  }

  function GrantMembers(g: GrantPayload): seq<Member> {
    [ Text1("$schema", T("https://agenid.com/schemas/v1.2/authorization-grant.json")),
      Text1("grant_id", g.grantId),
      Text1("principal", g.principal),
      Text1("subject", g.subject),
      Member(T("scopes"), Arr(Strings(g.scopes))),
      Text1("not_before", g.notBefore),
      Text1("expires_at", g.expiresAt),
      Text1("key_id", g.keyId) ]
    + (match g.constraints case Some(cs) => [Member(T("constraints"), Arr(ConstraintsJson(cs)))] case None => [])
  }

  function RevokesText(k: RevokesType): Text {
    match k
    case RevokesAgent => T("agent")
    case RevokesGrant => T("grant")
    case RevokesKey => T("key")
    case RevokesAssertion => T("assertion")
  }

  function ReasonText(r: Reason): Text {
    match r
    case KeyCompromise => T("key_compromise")
    case Superseded => T("superseded")
    case NoLongerAuthorized => T("no_longer_authorized")
    case OperatorRequest => T("operator_request")
    case AgentRetired => T("agent_retired")
    case IssuedInError => T("issued_in_error")
    case Unspecified => T("unspecified")
  }

  function RevocationMembers(r: RevocationPayload): seq<Member> {
    [ Text1("$schema", T("https://agenid.com/schemas/v1.2/revocation.json")),
      Text1("revocation_id", r.revocationId),
      Text1("revokes", r.revokes),
      Text1("revokes_type", RevokesText(r.revokesType)),
      Text1("reason", ReasonText(r.reason)),
      Text1("revoked_at", r.revokedAt),
      Text1("key_id", r.keyId) ]
  }

  function ConsentMembers(c: ConsentPayload): seq<Member> {
    [ Text1("type", T("agenid.directory.consent.v1")),
      Text1("agent_id", c.agentId),
      Text1("key_id", c.keyId),
      Flag("listed", c.listed),
      Text1("created_at", c.createdAt) ]
  }

  function ChannelText(c: Channel): Text {
    match c
    case Voice => T("voice")
    case Sms => T("sms")
    case Chat => T("chat")
    case Email => T("email")
    case Api => T("api")
  }

  function ChannelsJson(cs: seq<Channel>): (r: seq<Value>)
    ensures |r| == |cs| && forall i :: 0 <= i < |r| ==> r[i] == Str(ChannelText(cs[i]))
  {
    seq(|cs|, i requires 0 <= i < |cs| => Str(ChannelText(cs[i])))
  }

  function IdentityMembers(m: Manifest): seq<Member> {
    [Text1("name", m.name)] + Optional("description", m.description)
  }

  function OwnershipMembers(m: Manifest): seq<Member> {
    [Text1("operator", m.operator), Text1("operator_domain", m.operatorDomain)] + Optional("contact", m.contact)
  }

  function PurposeMembers(m: Manifest): seq<Member> {
    [Text1("summary", m.summary), Member(T("channels"), Arr(ChannelsJson(m.channels)))]
  }

  function DisclosureMembers(m: Manifest): seq<Member> {
    [Flag("is_ai", m.isAi), Flag("discloses_to_user", m.disclosesToUser), Flag("human_escalation", m.humanEscalation)]
  }

  function ManifestMembers(m: Manifest): seq<Member> {
    [ Text1("manifest_version", m.version),
      Text1("agent_id", m.agentId),
      Member(T("identity"), Obj(true, IdentityMembers(m))),
      Member(T("ownership"), Obj(true, OwnershipMembers(m))),
      Member(T("purpose"), Obj(true, PurposeMembers(m))),
      Member(T("disclosure"), Obj(true, DisclosureMembers(m))) ]
  }

  /** The canonical bytes of a manifest. */
  function ManifestBytes(m: Manifest): Bytes {
    match CanonicalBytes(Obj(true, ManifestMembers(m))) case Ok(bytes) => bytes case Err(_) => []
  }

  /** `manifestDigestHex` */
  function ManifestDigest(p: Platform, m: Manifest): Text {
    p.sha256Hex(ManifestBytes(m))
  }

  /** Anything an AgenID key signs. */
  datatype Payload =
    | ProofOf(proof: ProofPayload)
    | AssertionOf(assertion: AssertionPayload)
    | GrantOf(grant: GrantPayload)
    | RevocationOf(revocation: RevocationPayload)
    | ConsentOf(consent: ConsentPayload)

  function Members(x: Payload): seq<Member> {
    match x
    case ProofOf(p) => ProofMembers(p)
    case AssertionOf(a) => AssertionMembers(a)
    case GrantOf(g) => GrantMembers(g)
    case RevocationOf(r) => RevocationMembers(r)
    case ConsentOf(c) => ConsentMembers(c)
  }

  // ---------------------------------------------------------------- the signing input

  /** The members other than `signature`. */
  function Stripped(ms: seq<Member>): seq<Member> {
    if ms == [] then []
    else (if ms[0].key == T("signature") then [] else [ms[0]]) + Stripped(ms[1..])
  }

  /** `signingInputOf` of an object with these members. */
  function SigningInputOf(ms: seq<Member>): Result<Bytes, JcsError> {
    CanonicalBytes(Obj(true, Stripped(ms)))
  }

  /** The bytes signed for a payload. */
  function SigningInput(x: Payload): Bytes {
    match CanonicalBytes(Obj(true, Members(x))) case Ok(bytes) => bytes case Err(_) => []
  }

  // ---------------------------------------------------------------- the members are well named

  predicate KeysApart(ms: seq<Member>) {
    forall i, j :: 0 <= i < j < |ms| ==> Summary(ms[i].key) != Summary(ms[j].key)
  }

  /** Plain JSON data without numbers, named apart. */
  ghost predicate Tame(v: Value) {
    match v
    case Bool(_) => true
    case Str(_) => true
    case Arr(items) => forall i :: 0 <= i < |items| ==> Tame(items[i])
    case Obj(plain, ms) => plain && KeysApart(ms) && forall i :: 0 <= i < |ms| ==> Tame(ms[i].value)
    case _ => false
  }

  lemma {:induction false} TameIsCanonicalizable(v: Value)
    requires Tame(v)
    ensures Genuine(v) && PlainJson(v) && NumbersInDomain(v)
  {
    match v
    case Arr(items) =>
      forall x | x in items ensures Genuine(x) && PlainJson(x) && NumbersInDomain(x) {
        var i :| 0 <= i < |items| && items[i] == x;
        TameIsCanonicalizable(items[i]);
      }
    case Obj(_, ms) =>
      forall i | 0 <= i < |ms| ensures Genuine(ms[i].value) && PlainJson(ms[i].value) && NumbersInDomain(ms[i].value) {
        TameIsCanonicalizable(ms[i].value);
      }
    case _ =>
  }

  lemma ClaimTame(c: Claim)
    ensures Tame(Obj(true, ClaimMembers(c)))
  {}

  lemma ConstraintTame(c: Constraint)
    ensures Tame(Obj(true, ConstraintMembers(c)))
  {}

  /** Named apart, with tame values. */
  lemma TameObject(ms: seq<Member>)
    requires KeysApart(ms) && forall i :: 0 <= i < |ms| ==> Tame(ms[i].value)
    ensures Tame(Obj(true, ms))
  {}

  lemma ProofTame(x: ProofPayload)
    ensures Tame(Obj(true, ProofMembers(x)))
  {
    assert Tame(DigestJson(x.digest));
    ProofKeysApart(x);
    TameObject(ProofMembers(x));
  }

  lemma ProofKeysApart(x: ProofPayload)
    ensures KeysApart(ProofMembers(x))
  {}

  function FrontNames(): seq<Text> {
    [T("$schema"), T("assertion_id"), T("subject"), T("subject_type"), T("level"), T("claim")]
  }

  function BackNames(): seq<Text> {
    [T("authority"), T("evidence"), T("verified_at"), T("expires_at"), T("scope"), T("manifest_digest"), T("key_id")]
  }

  lemma NamesApart()
    ensures Apart(FrontNames()) && Apart(BackNames())
  {}

  lemma FrontApartFromBack()
    ensures forall i, j :: 0 <= i < 6 && 0 <= j < 7 ==> Summary(FrontNames()[i]) != Summary(BackNames()[j])
  {}

  lemma AssertionNames(a: AssertionPayload)
    ensures var ms := AssertionMembers(a);
            && |ms| == 13 && |FrontNames()| == 6 && |BackNames()| == 7
            && (forall i :: 0 <= i < 6 ==> ms[i].key == FrontNames()[i])
            && forall i :: 6 <= i < 13 ==> ms[i].key == BackNames()[i - 6]
  {
    hide T;
  }

  lemma AssertionKeysApart(a: AssertionPayload)
    ensures KeysApart(AssertionMembers(a))
  {
    hide AssertionMembers, FrontNames, BackNames, Summary;
    NamesApart();
    FrontApartFromBack();
    AssertionNames(a);
  }

  lemma EvidenceTame(a: AssertionPayload)
    ensures Tame(Obj(true, EvidenceMembers(a)))
  {}

  lemma AssertionTame(a: AssertionPayload)
    ensures Tame(Obj(true, AssertionMembers(a)))
  {
    assert Tame(DigestJson(a.digest));
    ClaimTame(a.claim);
    EvidenceTame(a);
    AssertionKeysApart(a);
    TameObject(AssertionMembers(a));
  }

  lemma GrantTame(g: GrantPayload)
    ensures Tame(Obj(true, GrantMembers(g)))
  {
    assert Tame(Arr(Strings(g.scopes)));
    if g.constraints.Some? {
      forall i | 0 <= i < |g.constraints.value| ensures Tame(ConstraintsJson(g.constraints.value)[i]) {
        ConstraintTame(g.constraints.value[i]);
      }
      assert Tame(Arr(ConstraintsJson(g.constraints.value)));
    }
    GrantKeysApart(g);
    TameObject(GrantMembers(g));
  }

  lemma GrantKeysApart(g: GrantPayload)
    ensures KeysApart(GrantMembers(g))
  {}

  lemma RevocationTame(r: RevocationPayload)
    ensures Tame(Obj(true, RevocationMembers(r)))
  {
    RevocationKeysApart(r);
    TameObject(RevocationMembers(r));
  }

  function RevocationNames(): seq<Text> {
    [T("$schema"), T("revocation_id"), T("revokes"), T("revokes_type"), T("reason"), T("revoked_at"), T("key_id")]
  }

  lemma RevocationNamesApart()
    ensures Apart(RevocationNames())
  {}

  lemma RevocationKeysApart(r: RevocationPayload)
    ensures KeysApart(RevocationMembers(r))
  {
    RevocationNamesApart();
    var ms := RevocationMembers(r);
    assert forall i :: 0 <= i < 7 ==> ms[i].key == RevocationNames()[i];
  }

  lemma ConsentTame(c: ConsentPayload)
    ensures Tame(Obj(true, ConsentMembers(c)))
  {
    assert KeysApart(ConsentMembers(c));
    TameObject(ConsentMembers(c));
  }

  lemma PayloadTame(x: Payload)
    ensures Tame(Obj(true, Members(x)))
  {
    match x
    case ProofOf(p) => ProofTame(p);
    case AssertionOf(a) => AssertionTame(a);
    case GrantOf(g) => GrantTame(g);
    case RevocationOf(r) => RevocationTame(r);
    case ConsentOf(c) => ConsentTame(c);
  }

  lemma PartsTame(m: Manifest)
    ensures Tame(Obj(true, IdentityMembers(m))) && Tame(Obj(true, OwnershipMembers(m)))
    ensures Tame(Obj(true, PurposeMembers(m))) && Tame(Obj(true, DisclosureMembers(m)))
  {
    TameObject(IdentityMembers(m));
    TameObject(OwnershipMembers(m));
    PurposeTame(m);
    DisclosureTame(m);
  }

  lemma PurposeTame(m: Manifest)
    ensures Tame(Obj(true, PurposeMembers(m)))
  {
    assert Tame(Arr(ChannelsJson(m.channels)));
    TameObject(PurposeMembers(m));
  }

  lemma DisclosureTame(m: Manifest)
    ensures Tame(Obj(true, DisclosureMembers(m)))
  {
    TameObject(DisclosureMembers(m));
  }

  lemma ManifestTame(m: Manifest)
    ensures Tame(Obj(true, ManifestMembers(m)))
  {
    PartsTame(m);
    ManifestKeysApart(m);
    TameObject(ManifestMembers(m));
  }

  lemma ManifestKeysApart(m: Manifest)
    ensures KeysApart(ManifestMembers(m))
  {}
}
