// The protocol's objects and the rules their schemas impose
// (packages/core/src/schemas.ts, packages/core/src/authorization.ts).
module Objects {
  import opened Prelude
  import opened Text
  import opened Identifier
  import opened Utf8
  import Uri
  import Numerals

  /**
   * The library calls the protocol makes and does not define. Every result holds for any such platform;
   * what a result needs of one is stated where it is needed.
   */
  datatype Platform = Platform(
    dateParse: Text -> Option<int>,              // Date.parse in milliseconds; None is NaN
    toIso: int -> Text,                          // new Date(ms).toISOString()
    isRfc3339: Text -> bool,                     // the timestamp pattern
    sha256Hex: Bytes -> Text,
    verify: (Text, Bytes, Text) -> bool,         // Ed25519 over decoded public key, message, decoded signature
    sign: (Bytes, Bytes) -> Text,                // Ed25519 signature of a message under a seed, base64url
    publicKey: Bytes -> Text,                    // the public key of a seed, base64url
    freeText: (Text, nat) -> bool,               // length-bounded text without secret patterns
    isHostname: Text -> bool,
    isEmail: Text -> bool,
    collate: (Text, Text) -> bool)               // a.localeCompare(b) <= 0

  // ---------------------------------------------------------------- instants

  predicate IsTimestamp(p: Platform, t: Text) {
    p.isRfc3339(t) && p.dateParse(t).Some?
  }

  /** The ECMAScript `<` on two instants: false when either is NaN. */
  predicate Before(a: Option<int>, b: Option<int>) {
    a.Some? && b.Some? && a.value < b.value
  }

  predicate AtOrAfter(a: Option<int>, b: Option<int>) {
    a.Some? && b.Some? && a.value >= b.value
  }

  /** Both texts are instants, and the first comes before the second. */
  predicate Earlier(p: Platform, a: Text, b: Text) {
    match (p.dateParse(a), p.dateParse(b)) case (Some(x), Some(y)) => x < y case _ => false
  }

  // ---------------------------------------------------------------- shared shapes

  predicate IsSha256Hex(t: Text) { |t| == 64 && forall i :: 0 <= i < 64 ==> IsLowerHex(t[i]) }

  predicate IsSignature(t: Text) { |t| == 86 && AllBase64Url(t) }

  predicate IsPublicKey(t: Text) { |t| == 43 && AllBase64Url(t) }

  /** An object with its `signature` member. */
  datatype Signed<P> = Signed(payload: P, signature: Text)

  // ---------------------------------------------------------------- keys

  datatype KeyRole = Operator | Authority | Principal

  datatype KeyStatus = Active | Retired | Revoked

  datatype KeyDocument = KeyDocument(
    keyId: Text,
    publicKey: Text,
    role: KeyRole,
    controller: Text,
    createdAt: Text,
    status: KeyStatus,
    retiredAt: Option<Text>,
    revokedAt: Option<Text>)

  predicate ControllerFits(role: KeyRole, controller: Text) {
    match role
    case Operator => IsAgentId(controller)
    case Authority => IsAuthorityId(controller)
    case Principal => IsPrincipalId(controller)
  }

  predicate ValidKey(p: Platform, k: KeyDocument) {
    && IsKeyId(k.keyId) && IsPublicKey(k.publicKey) && |k.controller| >= 1
    && IsTimestamp(p, k.createdAt)
    && (k.retiredAt.Some? ==> IsTimestamp(p, k.retiredAt.value))
    && (k.revokedAt.Some? ==> IsTimestamp(p, k.revokedAt.value))
    && ControllerFits(k.role, k.controller)
    && ((k.status.Retired? <==> k.retiredAt.Some?) || k.status.Revoked?)
    && (k.status.Revoked? <==> k.revokedAt.Some?)
  }

  /** The key's status at an instant (`keyActiveAt`). */
  predicate KeyActiveAt(p: Platform, k: KeyDocument, at: Text) {
    var t := p.dateParse(at);
    if k.revokedAt.Some? && AtOrAfter(t, p.dateParse(k.revokedAt.value)) then false
    else if k.retiredAt.Some? && AtOrAfter(t, p.dateParse(k.retiredAt.value)) then false
    else if k.status.Revoked? && k.revokedAt.None? then false
    else true
  }

  /** Neither the key's revocation nor its retirement has come at this instant. */
  predicate InService(p: Platform, k: KeyDocument, at: Text) {
    && (k.revokedAt.Some? ==> Earlier(p, at, k.revokedAt.value))
    && (k.retiredAt.Some? ==> Earlier(p, at, k.retiredAt.value))
  }

  /** For a valid document that is all `keyActiveAt` decides: the status member adds nothing to the dates. */
  lemma ActiveMeansInService(p: Platform, k: KeyDocument, at: Text)
    requires ValidKey(p, k) && p.dateParse(at).Some?
    ensures KeyActiveAt(p, k, at) <==> InService(p, k, at)
  {}

  // ---------------------------------------------------------------- manifests and proofs

  datatype Channel = Voice | Sms | Chat | Email | Api

  datatype Manifest = Manifest(
    version: Text,
    agentId: Text,
    name: Text,
    description: Option<Text>,
    operator: Text,
    operatorDomain: Text,
    contact: Option<Text>,
    summary: Text,
    channels: seq<Channel>,
    isAi: bool,
    disclosesToUser: bool,
    humanEscalation: bool)

  predicate ValidManifest(p: Platform, m: Manifest) {
    && m.version == T("1.0") && IsAgentId(m.agentId)
    && p.freeText(m.name, 200) && (m.description.Some? ==> p.freeText(m.description.value, 1000))
    && p.freeText(m.operator, 300) && p.isHostname(m.operatorDomain)
    && (m.contact.Some? ==> p.isEmail(m.contact.value))
    && p.freeText(m.summary, 500) && |m.channels| >= 1
  }

  datatype ProofPayload = ProofPayload(
    agentId: Text,
    version: Text,
    digest: Text,
    keyId: Text,
    createdAt: Text,
    expiresAt: Text)

  type ManifestProof = Signed<ProofPayload>

  predicate ValidProofPayload(p: Platform, x: ProofPayload) {
    && IsAgentId(x.agentId) && x.version == T("1.0") && IsSha256Hex(x.digest) && IsKeyId(x.keyId)
    && IsTimestamp(p, x.createdAt) && IsTimestamp(p, x.expiresAt)
    && Before(p.dateParse(x.createdAt), p.dateParse(x.expiresAt))
  }

  predicate ValidProof(p: Platform, x: ManifestProof) {
    ValidProofPayload(p, x.payload) && IsSignature(x.signature)
  }

  // ---------------------------------------------------------------- verification assertions

  datatype Level = L1 | L2 | L3 | L4

  datatype SubjectType = AgentSubject | DeploymentSubject

  datatype Claim =
    | Registration
    | DomainControl(domain: Text)
    | OrganizationIdentity(legalName: Text, jurisdiction: Option<Text>)
    | DeploymentConformance(deploymentId: Text)

  datatype EvidenceType =
    | SchemaValidation | DnsTxt | HttpWellKnown | BusinessRegistry | DocumentReview | DeploymentSample

  datatype AssertionPayload = AssertionPayload(
    assertionId: Text,
    subject: Text,
    subjectType: SubjectType,
    level: Level,
    claim: Claim,
    authority: Text,
    evidenceType: EvidenceType,
    evidenceReference: Text,
    verifiedAt: Text,
    expiresAt: Text,
    scope: Text,
    digest: Text,
    keyId: Text)

  type VerificationAssertion = Signed<AssertionPayload>

  predicate ValidClaim(p: Platform, c: Claim) {
    match c
    case Registration => true
    case DomainControl(d) => p.isHostname(d)
    case OrganizationIdentity(n, j) => p.freeText(n, 300) && (j.Some? ==> 2 <= |j.value| <= 64)
    case DeploymentConformance(d) => IsDeploymentId(d)
  }

  /** `LEVEL_CLAIM`: the claim type each level stands for. */
  predicate ClaimOfLevel(level: Level, claim: Claim) {
    match level
    case L1 => claim.Registration?
    case L2 => claim.DomainControl?
    case L3 => claim.OrganizationIdentity?
    case L4 => claim.DeploymentConformance?
  }

  /** `assertionRules` */
  predicate AssertionRules(p: Platform, a: AssertionPayload) {
    && (if a.subjectType.AgentSubject? then IsAgentId(a.subject) else IsDeploymentId(a.subject))
    && (a.subjectType.DeploymentSubject? <==> a.level.L4?)
    && Before(p.dateParse(a.verifiedAt), p.dateParse(a.expiresAt))
    && ClaimOfLevel(a.level, a.claim)
  }

  predicate ValidAssertionPayload(p: Platform, a: AssertionPayload) {
    && IsAssertionId(a.assertionId) && |a.subject| >= 1
    && ValidClaim(p, a.claim) && IsAuthorityId(a.authority)
    && 1 <= |a.evidenceReference| <= 512 && 1 <= |a.scope| <= 128
    && IsTimestamp(p, a.verifiedAt) && IsTimestamp(p, a.expiresAt)
    && IsSha256Hex(a.digest) && IsKeyId(a.keyId)
    && AssertionRules(p, a)
  }

  predicate ValidAssertion(p: Platform, a: VerificationAssertion) {
    ValidAssertionPayload(p, a.payload) && IsSignature(a.signature)
  }

  // ---------------------------------------------------------------- authorization grants

  datatype Constraint =
    | CounterpartyDomain(domains: seq<Text>)
    | MaxValue(currency: Text, amountMinor: Text)
    | MaxUses(count: Text)
    | RequiresHumanConfirmation

  datatype GrantPayload = GrantPayload(
    grantId: Text,
    principal: Text,
    subject: Text,
    scopes: seq<Text>,
    constraints: Option<seq<Constraint>>,
    notBefore: Text,
    expiresAt: Text,
    keyId: Text)

  type AuthorizationGrant = Signed<GrantPayload>

  predicate IsScopePart(t: Text) {
    && 1 <= |t| <= 32 && 'a' as int <= t[0] <= 'z' as int
    && forall i :: 1 <= i < |t| ==> IsLowerAlnum(t[i]) || t[i] == '_' as int
  }

  /** `SCOPE_REGEX`: resource:action */
  predicate IsScope(t: Text) {
    match Uri.IndexOf(t, ':' as int)
    case None => false
    case Some(i) => IsScopePart(t[..i]) && IsScopePart(t[i + 1..])
  }

  predicate ValidConstraint(c: Constraint) {
    match c
    case CounterpartyDomain(ds) => 1 <= |ds| <= 32 && forall d :: d in ds ==> |d| >= 1
    case MaxValue(currency, amount) =>
      && |currency| == 3 && (forall i :: 0 <= i < 3 ==> 'A' as int <= currency[i] <= 'Z' as int)
      && 1 <= |amount| <= 18 && Numerals.AllDigits(amount)
    case MaxUses(count) => 1 <= |count| <= 9 && Numerals.AllDigits(count)
    case RequiresHumanConfirmation => true
  }

  /** `grantRules` */
  predicate GrantRules(p: Platform, g: GrantPayload) {
    && Before(p.dateParse(g.notBefore), p.dateParse(g.expiresAt))
    && forall i, j :: 0 <= i < j < |g.scopes| ==> g.scopes[i] != g.scopes[j]
  }

  predicate ValidGrantPayload(p: Platform, g: GrantPayload) {
    && IsGrantId(g.grantId) && IsPrincipalId(g.principal) && IsAgentId(g.subject)
    && 1 <= |g.scopes| <= 64 && (forall s :: s in g.scopes ==> IsScope(s))
    && (g.constraints.Some? ==>
          |g.constraints.value| <= 16 && forall c :: c in g.constraints.value ==> ValidConstraint(c))
    && IsTimestamp(p, g.notBefore) && IsTimestamp(p, g.expiresAt) && IsKeyId(g.keyId)
    && GrantRules(p, g)
  }

  predicate ValidGrant(p: Platform, g: AuthorizationGrant) {
    ValidGrantPayload(p, g.payload) && IsSignature(g.signature)
  }

  // ---------------------------------------------------------------- revocations

  datatype RevokesType = RevokesAgent | RevokesGrant | RevokesKey | RevokesAssertion

  datatype Reason =
    | KeyCompromise | Superseded | NoLongerAuthorized | OperatorRequest | AgentRetired | IssuedInError | Unspecified

  datatype RevocationPayload = RevocationPayload(
    revocationId: Text,
    revokes: Text,
    revokesType: RevokesType,
    reason: Reason,
    revokedAt: Text,
    keyId: Text)

  type Revocation = Signed<RevocationPayload>

  /** `TARGET_PATTERN` */
  predicate TargetFits(kind: RevokesType, target: Text) {
    match kind
    case RevokesAgent => IsAgentId(target)
    case RevokesGrant => IsGrantId(target)
    case RevokesKey => IsKeyId(target)
    case RevokesAssertion => IsAssertionId(target)
  }

  /** `REVOKER_ROLE` */
  function RevokerRole(kind: RevokesType): KeyRole {
    match kind
    case RevokesGrant => Principal
    case RevokesAgent => Operator
    case RevokesKey => Operator
    case RevokesAssertion => Authority
  }

  predicate ValidRevocationPayload(p: Platform, r: RevocationPayload) {
    && IsRevocationId(r.revocationId) && |r.revokes| >= 1 && TargetFits(r.revokesType, r.revokes)
    && IsTimestamp(p, r.revokedAt) && IsKeyId(r.keyId)
  }

  predicate ValidRevocation(p: Platform, r: Revocation) {
    ValidRevocationPayload(p, r.payload) && IsSignature(r.signature)
  }

  // ---------------------------------------------------------------- directory consents

  datatype ConsentPayload = ConsentPayload(agentId: Text, keyId: Text, listed: bool, createdAt: Text)

  type DirectoryConsent = Signed<ConsentPayload>

  /** `parseConsent` accepts (packages/web/lib/directory.ts). */
  predicate ValidConsent(p: Platform, c: DirectoryConsent) {
    && IsAgentId(c.payload.agentId) && IsKeyId(c.payload.keyId) && IsTimestamp(p, c.payload.createdAt)
    && 1 <= |c.signature| <= 200 && AllBase64Url(c.signature)
  }
}
