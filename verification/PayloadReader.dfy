// How another verifier reads the signed bytes (packages/core/src/schemas.ts, packages/core/src/authorization.ts):
// decode, parse, and take every field by its name.
module PayloadReader {
  import opened Prelude
  import opened Text
  import opened Json
  import opened Jcs
  import opened JcsParser
  import opened JcsBytes
  import opened Utf8
  import opened Objects
  import opened SignedObjects

  // ---------------------------------------------------------------- reading fields by name

  function ReadValue(bytes: Bytes): Option<Value> {
    match Decode(bytes)
    case None => None
    case Some(text) => match Parse(text) case Some((v, rest)) => if rest == [] then Some(v) else None case None => None
  }

  function Find(ms: seq<Member>, key: Text): Option<Value> {
    if ms == [] then None else if ms[0].key == key then Some(ms[0].value) else Find(ms[1..], key)
  }

  function Get(v: Value, name: string): Option<Value> {
    if v.Obj? then Find(v.members, T(name)) else None
  }

  function GetText(v: Value, name: string): Option<Text> {
    match Get(v, name) case Some(Str(t)) => Some(t) case _ => None
  }

  function GetFlag(v: Value, name: string): Option<bool> {
    match Get(v, name) case Some(Bool(b)) => Some(b) case _ => None
  }

  /** A member that may be missing: Some(None) if it is, None if it is there and no text. */
  function GetOptional(v: Value, name: string): Option<Option<Text>> {
    match Get(v, name) case None => Some(None) case Some(Str(t)) => Some(Some(t)) case _ => None
  }

  function ReadTexts(items: seq<Value>): Option<seq<Text>> {
    if items == [] then Some([])
    else match (items[0], ReadTexts(items[1..])) case (Str(t), Some(rest)) => Some([t] + rest) case _ => None
  }

  function GetTexts(v: Value, name: string): Option<seq<Text>> {
    match Get(v, name) case Some(Arr(items)) => ReadTexts(items) case _ => None
  }

  /** A digest object, of the one algorithm there is. */
  function GetDigest(v: Value): Option<Text> {
    match Get(v, "manifest_digest")
    case Some(d) => if GetText(d, "alg") == Some(T("sha-256")) then GetText(d, "value") else None
    case None => None
  }

  // ---------------------------------------------------------------- the enumerations on the wire

  function LevelOf(t: Text): Option<Level> {
    if t == T("L1_REGISTERED") then Some(L1) else if t == T("L2_DOMAIN_VERIFIED") then Some(L2)
    else if t == T("L3_ORGANIZATION_VERIFIED") then Some(L3) else if t == T("L4_DEPLOYMENT_VERIFIED") then Some(L4)
    else None
  }

  function SubjectTypeOf(t: Text): Option<SubjectType> {
    if t == T("agent") then Some(AgentSubject) else if t == T("deployment") then Some(DeploymentSubject) else None
  }

  function EvidenceOf(t: Text): Option<EvidenceType> {
    if t == T("schema_validation") then Some(SchemaValidation) else if t == T("dns_txt_challenge") then Some(DnsTxt)
    else if t == T("http_wellknown_challenge") then Some(HttpWellKnown)
    else if t == T("business_registry_match") then Some(BusinessRegistry)
    else if t == T("document_review") then Some(DocumentReview)
    else if t == T("deployment_sample_review") then Some(DeploymentSample) else None
  }

  function RevokesOf(t: Text): Option<RevokesType> {
    if t == T("agent") then Some(RevokesAgent) else if t == T("grant") then Some(RevokesGrant)
    else if t == T("key") then Some(RevokesKey) else if t == T("assertion") then Some(RevokesAssertion) else None
  }

  function ReasonOf(t: Text): Option<Reason> {
    if t == T("key_compromise") then Some(KeyCompromise) else if t == T("superseded") then Some(Superseded)
    else if t == T("no_longer_authorized") then Some(NoLongerAuthorized)
    else if t == T("operator_request") then Some(OperatorRequest)
    else if t == T("agent_retired") then Some(AgentRetired) else if t == T("issued_in_error") then Some(IssuedInError)
    else if t == T("unspecified") then Some(Unspecified) else None
  }

  function ChannelOf(t: Text): Option<Channel> {
    if t == T("voice") then Some(Voice) else if t == T("sms") then Some(Sms) else if t == T("chat") then Some(Chat)
    else if t == T("email") then Some(Email) else if t == T("api") then Some(Api) else None
  }

  function LevelTexts(): seq<Text> {
    [T("L1_REGISTERED"), T("L2_DOMAIN_VERIFIED"), T("L3_ORGANIZATION_VERIFIED"), T("L4_DEPLOYMENT_VERIFIED")]
  }

  lemma LevelTextsApart()
    ensures Apart(LevelTexts())
  {}

  lemma LevelReads(l: Level)
    ensures LevelOf(LevelText(l)) == Some(l)
  {
    hide T, Summary;
    LevelTextsApart();
    EachApart(LevelTexts());
  }

  lemma SubjectTypeReads(s: SubjectType)
    ensures SubjectTypeOf(SubjectTypeText(s)) == Some(s)
  {
    assert |T("agent")| != |T("deployment")|;
  }

  function EvidenceTexts(): seq<Text> {
    [T("schema_validation"), T("dns_txt_challenge"), T("http_wellknown_challenge"), T("business_registry_match"),
     T("document_review"), T("deployment_sample_review")]
  }

  lemma EvidenceTextsApart()
    ensures Apart(EvidenceTexts())
  {}

  lemma EvidenceReads(e: EvidenceType)
    ensures EvidenceOf(EvidenceText(e)) == Some(e)
  {
    hide T, Summary;
    EvidenceTextsApart();
    EachApart(EvidenceTexts());
  }

  /** No text is one of those before it. */
  lemma EachApart(ts: seq<Text>)
    requires Apart(ts)
    ensures |ts| > 1 ==> ts[1] != ts[0]
    ensures |ts| > 2 ==> ts[2] !in ts[..2]
    ensures |ts| > 3 ==> ts[3] !in ts[..3]
    ensures |ts| > 4 ==> ts[4] !in ts[..4]
    ensures |ts| > 5 ==> ts[5] !in ts[..5]
    ensures |ts| > 6 ==> ts[6] !in ts[..6]
  {
    Distinct(ts);
  }

  function RevokesTexts(): seq<Text> { [T("agent"), T("grant"), T("key"), T("assertion")] }

  lemma RevokesTextsApart()
    ensures Apart(RevokesTexts())
  {}

  lemma RevokesReads(k: RevokesType)
    ensures RevokesOf(RevokesText(k)) == Some(k)
  {
    hide T, Summary;
    RevokesTextsApart();
    EachApart(RevokesTexts());
  }

  function ReasonTexts(): seq<Text> {
    [T("key_compromise"), T("superseded"), T("no_longer_authorized"), T("operator_request"), T("agent_retired"),
     T("issued_in_error"), T("unspecified")]
  }

  lemma ReasonTextsApart()
    ensures Apart(ReasonTexts())
  {}

  lemma Distinct(ts: seq<Text>)
    requires Apart(ts)
    ensures forall i, j :: 0 <= i < j < |ts| ==> ts[i] != ts[j]
  {}

  lemma ReasonReads(r: Reason)
    ensures ReasonOf(ReasonText(r)) == Some(r)
  {
    hide T, Summary;
    ReasonTextsApart();
    EachApart(ReasonTexts());
  }

  function ChannelNames(): seq<Text> { [T("voice"), T("sms"), T("chat"), T("email"), T("api")] }

  lemma ChannelNamesApart()
    ensures Apart(ChannelNames())
  {}

  lemma ChannelReads(c: Channel)
    ensures ChannelOf(ChannelText(c)) == Some(c)
  {
    hide T, Summary;
    ChannelNamesApart();
    EachApart(ChannelNames());
  }

  // ---------------------------------------------------------------- a member of a sorted object

  lemma {:induction false} FoundByName(ms: seq<Member>, m: Member)
    requires m in ms && DistinctKeys(ms)
    ensures Find(ms, m.key) == Some(m.value)
  {
    if ms[0] != m {
      assert m in ms[1..];
      var i :| 0 <= i < |ms[1..]| && ms[1..][i] == m;
      assert ms[i + 1] == m;
      FoundByName(ms[1..], m);
    }
  }

  lemma {:induction false} NotFound(ms: seq<Member>, key: Text)
    requires forall m :: m in ms ==> m.key != key
    ensures Find(ms, key).None?
  {
    if ms != [] {
      assert ms[0] in ms && forall m :: m in ms[1..] ==> m in ms;
      NotFound(ms[1..], key);
    }
  }

  /** What the reader gets of an object: the value under each name, sorted below. */
  lemma FieldRead(ms: seq<Member>, i: nat, name: string)
    requires KeysApart(ms) && i < |ms| && ms[i].key == T(name)
    ensures Get(Sorted(Obj(true, ms)), name) == Some(Sorted(ms[i].value))
  {
    hide T, Summary;
    var sv := SortedValues(ms);
    forall j, k | 0 <= j < k < |sv| ensures sv[j].key != sv[k].key {
      assert Summary(ms[j].key) != Summary(ms[k].key);
    }
    SortSorts(sv);
    SortedKeysDistinct(Sort(sv));
    assert sv[i] in sv;
    FoundByName(Sort(sv), sv[i]);
  }

  lemma TextRead(ms: seq<Member>, i: nat, name: string, t: Text)
    requires KeysApart(ms) && i < |ms| && ms[i] == Text1(name, t)
    ensures GetText(Sorted(Obj(true, ms)), name) == Some(t)
  {
    hide T, KeysApart, Sorted;
    FieldRead(ms, i, name);
    SortedText(t);
  }

  lemma SortedText(t: Text)
    ensures Sorted(Str(t)) == Str(t)
  {}

  lemma FlagRead(ms: seq<Member>, i: nat, name: string, b: bool)
    requires KeysApart(ms) && i < |ms| && ms[i] == Flag(name, b)
    ensures GetFlag(Sorted(Obj(true, ms)), name) == Some(b)
  {
    FieldRead(ms, i, name);
  }

  lemma FieldMissing(ms: seq<Member>, name: string)
    requires forall i :: 0 <= i < |ms| ==> ms[i].key != T(name)
    ensures Get(Sorted(Obj(true, ms)), name).None?
  {
    hide T;
    var sv := SortedValues(ms);
    forall m | m in Sort(sv) ensures m.key != T(name) {
      var i :| 0 <= i < |sv| && sv[i] == m;
      assert ms[i].key == m.key;
    }
    NotFound(Sort(sv), T(name));
  }

  /** A member at the end that is there or not. */
  lemma OptionalRead(ms: seq<Member>, front: seq<Member>, name: string, t: Option<Text>)
    requires ms == front + Optional(name, t) && KeysApart(ms)
    requires forall i :: 0 <= i < |front| ==> front[i].key != T(name)
    ensures GetOptional(Sorted(Obj(true, ms)), name) == Some(t)
  {
    hide T, KeysApart, Sorted;
    match t
    case Some(x) => FieldRead(ms, |front|, name); SortedText(x);
    case None => assert ms == front; FieldMissing(ms, name);
  }

  lemma SortedStrings(ts: seq<Text>)
    ensures SortedItems(Strings(ts)) == Strings(ts)
  {}

  lemma {:induction false} TextsRead(ts: seq<Text>)
    ensures ReadTexts(Strings(ts)) == Some(ts)
  {
    if ts != [] {
      TextsRead(ts[1..]);
      assert Strings(ts)[1..] == Strings(ts[1..]);
      assert ts == [ts[0]] + ts[1..];
    }
  }

  lemma TextListRead(ms: seq<Member>, i: nat, name: string, ts: seq<Text>)
    requires KeysApart(ms) && i < |ms| && ms[i] == Member(T(name), Arr(Strings(ts)))
    ensures GetTexts(Sorted(Obj(true, ms)), name) == Some(ts)
  {
    hide T, KeysApart;
    FieldRead(ms, i, name);
    SortedStrings(ts);
    TextsRead(ts);
  }

  lemma DigestRead(ms: seq<Member>, i: nat, digest: Text)
    requires KeysApart(ms) && i < |ms| && ms[i] == Member(T("manifest_digest"), DigestJson(digest))
    ensures GetDigest(Sorted(Obj(true, ms))) == Some(digest)
  {
    hide KeysApart, Sorted;
    var inner := [Text1("alg", T("sha-256")), Text1("value", digest)];
    DigestKeysApart(digest);
    FieldRead(ms, i, "manifest_digest");
    TextRead(inner, 0, "alg", T("sha-256"));
    TextRead(inner, 1, "value", digest);
  }

  lemma DigestKeysApart(digest: Text)
    ensures KeysApart([Text1("alg", T("sha-256")), Text1("value", digest)])
  {}

  // ---------------------------------------------------------------- the five payloads

  function ReadProof(v: Value): Option<ProofPayload> {
    if GetText(v, "proof_type") != Some(T("manifest_self_declaration")) then None else
    match (GetText(v, "agent_id"), GetText(v, "manifest_version"), GetDigest(v), GetText(v, "key_id"),
           GetText(v, "created_at"), GetText(v, "expires_at"))
    case (Some(agentId), Some(version), Some(digest), Some(keyId), Some(createdAt), Some(expiresAt)) =>
      Some(ProofPayload(agentId, version, digest, keyId, createdAt, expiresAt))
    case _ => None
  }

  lemma ProofReads(x: ProofPayload)
    ensures ReadProof(Sorted(Obj(true, ProofMembers(x)))) == Some(x)
    ensures GetText(Sorted(Obj(true, ProofMembers(x))), "$schema")
         == Some(T("https://agenid.com/schemas/v1.1.1/manifest-proof.json"))
  {
    hide T, KeysApart, Sorted, GetText, GetDigest;
    var ms := ProofMembers(x);
    ProofKeysApart(x);
    TextRead(ms, 0, "$schema", T("https://agenid.com/schemas/v1.1.1/manifest-proof.json"));
    TextRead(ms, 1, "proof_type", T("manifest_self_declaration"));
    TextRead(ms, 2, "agent_id", x.agentId);
    TextRead(ms, 3, "manifest_version", x.version);
    DigestRead(ms, 4, x.digest);
    TextRead(ms, 5, "key_id", x.keyId);
    TextRead(ms, 6, "created_at", x.createdAt);
    TextRead(ms, 7, "expires_at", x.expiresAt);
  }

  function ReadClaim(v: Value): Option<Claim> {
    var kind := GetText(v, "type");
    if kind == Some(T("registration")) then Some(Registration)
    else if kind == Some(T("domain_control")) then
      match GetText(v, "domain") case Some(d) => Some(DomainControl(d)) case None => None
    else if kind == Some(T("organization_identity")) then
      match (GetText(v, "legal_name"), GetOptional(v, "jurisdiction"))
      case (Some(name), Some(jurisdiction)) => Some(OrganizationIdentity(name, jurisdiction))
      case _ => None
    else if kind == Some(T("deployment_conformance")) then
      match GetText(v, "deployment_id") case Some(d) => Some(DeploymentConformance(d)) case None => None
    else None
  }

  lemma ClaimKinds()
    ensures Apart([T("registration"), T("domain_control"), T("organization_identity"), T("deployment_conformance")])
    ensures |T("type")| != |T("jurisdiction")| && |T("legal_name")| != |T("jurisdiction")|
  {}

  lemma ClaimReads(c: Claim)
    ensures ReadClaim(Sorted(Obj(true, ClaimMembers(c)))) == Some(c)
  {
    hide T, Sorted, Summary, KeysApart;
    var ms := ClaimMembers(c);
    ClaimKinds();
    Distinct([T("registration"), T("domain_control"), T("organization_identity"), T("deployment_conformance")]);
    ClaimKeysApart(c);
    match c
    case Registration => TextRead(ms, 0, "type", T("registration"));
    case DomainControl(d) =>
      TextRead(ms, 0, "type", T("domain_control"));
      TextRead(ms, 1, "domain", d);
    case OrganizationIdentity(n, j) =>
      TextRead(ms, 0, "type", T("organization_identity"));
      TextRead(ms, 1, "legal_name", n);
      OptionalRead(ms, [Text1("type", T("organization_identity")), Text1("legal_name", n)], "jurisdiction", j);
    case DeploymentConformance(d) =>
      TextRead(ms, 0, "type", T("deployment_conformance"));
      TextRead(ms, 1, "deployment_id", d);
  }

  lemma ClaimKeysApart(c: Claim)
    ensures KeysApart(ClaimMembers(c))
  {
    ClaimTame(c);
  }

  /** The type and the reference of an evidence object. */
  function ReadEvidence(v: Value): Option<(EvidenceType, Text)> {
    match (GetText(v, "type"), GetText(v, "reference"))
    case (Some(t), Some(reference)) => (match EvidenceOf(t) case Some(e) => Some((e, reference)) case None => None)
    case _ => None
  }

  lemma EvidenceObjectReads(a: AssertionPayload)
    ensures ReadEvidence(Sorted(Obj(true, EvidenceMembers(a)))) == Some((a.evidenceType, a.evidenceReference))
  {
    hide T, Sorted;
    var ms := EvidenceMembers(a);
    EvidenceKeysApart(a);
    TextRead(ms, 0, "type", EvidenceText(a.evidenceType));
    TextRead(ms, 1, "reference", a.evidenceReference);
    EvidenceReads(a.evidenceType);
  }

  lemma EvidenceKeysApart(a: AssertionPayload)
    ensures KeysApart(EvidenceMembers(a))
  {
    EvidenceTame(a);
  }

  function ReadAssertion(v: Value): Option<AssertionPayload> {
    match (ReadAbout(v), ReadGrounds(v))
    case (Some((assertionId, subject, subjectType, level, claim, authority)),
          Some((evidence, verifiedAt, expiresAt, scope, digest, keyId))) =>
      Some(AssertionPayload(assertionId, subject, subjectType, level, claim, authority, evidence.0, evidence.1,
                            verifiedAt, expiresAt, scope, digest, keyId))
    case _ => None
  }

  function ReadAbout(v: Value): Option<(Text, Text, SubjectType, Level, Claim, Text)> {
    match (GetText(v, "assertion_id"), GetText(v, "subject"), GetText(v, "subject_type"), GetText(v, "level"),
           Get(v, "claim"), GetText(v, "authority"))
    case (Some(assertionId), Some(subject), Some(subjectType), Some(level), Some(claim), Some(authority)) =>
      (match (SubjectTypeOf(subjectType), LevelOf(level), ReadClaim(claim))
       case (Some(s), Some(l), Some(c)) => Some((assertionId, subject, s, l, c, authority))
       case _ => None)
    case _ => None
  }

  function ReadGrounds(v: Value): Option<((EvidenceType, Text), Text, Text, Text, Text, Text)> {
    match (Get(v, "evidence"), GetText(v, "verified_at"), GetText(v, "expires_at"), GetText(v, "scope"),
           GetDigest(v), GetText(v, "key_id"))
    case (Some(evidence), Some(verifiedAt), Some(expiresAt), Some(scope), Some(digest), Some(keyId)) =>
      (match ReadEvidence(evidence)
       case Some(e) => Some((e, verifiedAt, expiresAt, scope, digest, keyId))
       case None => None)
    case _ => None
  }

  lemma AssertionReads(a: AssertionPayload)
    ensures ReadAssertion(Sorted(Obj(true, AssertionMembers(a)))) == Some(a)
    ensures GetText(Sorted(Obj(true, AssertionMembers(a))), "$schema")
         == Some(T("https://agenid.com/schemas/v1.1.1/assertion.json"))
  {
    hide T, Sorted, ReadAbout, ReadGrounds;
    AssertionKeysApart(a);
    TextRead(AssertionMembers(a), 0, "$schema", T("https://agenid.com/schemas/v1.1.1/assertion.json"));
    AboutReads(a);
    GroundsRead(a);
  }

  lemma AboutReads(a: AssertionPayload)
    ensures ReadAbout(Sorted(Obj(true, AssertionMembers(a))))
         == Some((a.assertionId, a.subject, a.subjectType, a.level, a.claim, a.authority))
  {
    hide T, KeysApart, Sorted, Get, GetText, ReadClaim, ClaimMembers, LevelOf, SubjectTypeOf, LevelText;
    hide SubjectTypeText, EvidenceMembers, DigestJson;
    var ms := AssertionMembers(a);
    AssertionKeysApart(a);
    TextRead(ms, 1, "assertion_id", a.assertionId);
    TextRead(ms, 2, "subject", a.subject);
    TextRead(ms, 3, "subject_type", SubjectTypeText(a.subjectType));
    TextRead(ms, 4, "level", LevelText(a.level));
    FieldRead(ms, 5, "claim");
    TextRead(ms, 6, "authority", a.authority);
    SubjectTypeReads(a.subjectType);
    LevelReads(a.level);
    ClaimReads(a.claim);
  }

  lemma GroundsRead(a: AssertionPayload)
    ensures ReadGrounds(Sorted(Obj(true, AssertionMembers(a))))
         == Some(((a.evidenceType, a.evidenceReference), a.verifiedAt, a.expiresAt, a.scope, a.digest, a.keyId))
  {
    hide T, KeysApart, Sorted, Get, GetText, GetDigest, ReadEvidence, EvidenceMembers, DigestJson, ClaimMembers;
    hide LevelText, SubjectTypeText;
    var ms := AssertionMembers(a);
    AssertionKeysApart(a);
    FieldRead(ms, 7, "evidence");
    TextRead(ms, 8, "verified_at", a.verifiedAt);
    TextRead(ms, 9, "expires_at", a.expiresAt);
    TextRead(ms, 10, "scope", a.scope);
    DigestRead(ms, 11, a.digest);
    TextRead(ms, 12, "key_id", a.keyId);
    EvidenceObjectReads(a);
  }

  function ReadConstraint(v: Value): Option<Constraint> {
    var kind := GetText(v, "type");
    if kind == Some(T("counterparty_domain")) then
      match GetTexts(v, "domains") case Some(ds) => Some(CounterpartyDomain(ds)) case None => None
    else if kind == Some(T("max_value")) then
      match (GetText(v, "currency"), GetText(v, "amount_minor"))
      case (Some(currency), Some(amount)) => Some(MaxValue(currency, amount))
      case _ => None
    else if kind == Some(T("max_uses")) then
      match GetText(v, "count") case Some(count) => Some(MaxUses(count)) case None => None
    else if kind == Some(T("requires_human_confirmation")) then Some(RequiresHumanConfirmation)
    else None
  }

  lemma ConstraintKinds()
    ensures Apart([T("counterparty_domain"), T("max_value"), T("max_uses"), T("requires_human_confirmation")])
  {}

  lemma ConstraintReads(c: Constraint)
    ensures ReadConstraint(Sorted(Obj(true, ConstraintMembers(c)))) == Some(c)
  {
    hide T, Sorted, Summary, KeysApart, Strings;
    var ms := ConstraintMembers(c);
    ConstraintKinds();
    Distinct([T("counterparty_domain"), T("max_value"), T("max_uses"), T("requires_human_confirmation")]);
    ConstraintKeysApart(c);
    match c
    case CounterpartyDomain(ds) =>
      TextRead(ms, 0, "type", T("counterparty_domain"));
      TextListRead(ms, 1, "domains", ds);
    case MaxValue(currency, amount) =>
      TextRead(ms, 0, "type", T("max_value"));
      TextRead(ms, 1, "currency", currency);
      TextRead(ms, 2, "amount_minor", amount);
    case MaxUses(count) =>
      TextRead(ms, 0, "type", T("max_uses"));
      TextRead(ms, 1, "count", count);
    case RequiresHumanConfirmation => TextRead(ms, 0, "type", T("requires_human_confirmation"));
  }

  lemma ConstraintKeysApart(c: Constraint)
    ensures KeysApart(ConstraintMembers(c))
  {
    ConstraintTame(c);
  }

  function ReadConstraints(items: seq<Value>): Option<seq<Constraint>> {
    if items == [] then Some([])
    else
      match (ReadConstraint(items[0]), ReadConstraints(items[1..]))
      case (Some(c), Some(rest)) => Some([c] + rest)
      case _ => None
  }

  lemma {:induction false} ConstraintsRead(cs: seq<Constraint>)
    ensures ReadConstraints(SortedItems(ConstraintsJson(cs))) == Some(cs)
  {
    hide ReadConstraint, Sorted, ConstraintMembers;
    if cs != [] {
      ConstraintReads(cs[0]);
      ConstraintsRead(cs[1..]);
      assert SortedItems(ConstraintsJson(cs))[1..] == SortedItems(ConstraintsJson(cs[1..]));
      assert cs == [cs[0]] + cs[1..];
    }
  }

  /** The constraints, which may be missing. */
  function GetConstraints(v: Value): Option<Option<seq<Constraint>>> {
    match Get(v, "constraints")
    case None => Some(None)
    case Some(Arr(items)) => (match ReadConstraints(items) case Some(cs) => Some(Some(cs)) case None => None)
    case _ => None
  }

  function ReadGrant(v: Value): Option<GrantPayload> {
    match (ReadParties(v), GetConstraints(v), GetText(v, "not_before"), GetText(v, "expires_at"), GetText(v, "key_id"))
    case (Some((grantId, principal, subject, scopes)), Some(constraints), Some(notBefore), Some(expiresAt),
          Some(keyId)) =>
      Some(GrantPayload(grantId, principal, subject, scopes, constraints, notBefore, expiresAt, keyId))
    case _ => None
  }

  function ReadParties(v: Value): Option<(Text, Text, Text, seq<Text>)> {
    match (GetText(v, "grant_id"), GetText(v, "principal"), GetText(v, "subject"), GetTexts(v, "scopes"))
    case (Some(grantId), Some(principal), Some(subject), Some(scopes)) => Some((grantId, principal, subject, scopes))
    case _ => None
  }

  lemma GrantReads(g: GrantPayload)
    ensures ReadGrant(Sorted(Obj(true, GrantMembers(g)))) == Some(g)
    ensures GetText(Sorted(Obj(true, GrantMembers(g))), "$schema")
         == Some(T("https://agenid.com/schemas/v1.2/authorization-grant.json"))
  {
    hide T, KeysApart, Sorted, GetText, ReadParties, GetConstraints, Strings, ConstraintsJson;
    var ms := GrantMembers(g);
    GrantKeysApart(g);
    TextRead(ms, 0, "$schema", T("https://agenid.com/schemas/v1.2/authorization-grant.json"));
    PartiesRead(g);
    TextRead(ms, 5, "not_before", g.notBefore);
    TextRead(ms, 6, "expires_at", g.expiresAt);
    TextRead(ms, 7, "key_id", g.keyId);
    GrantConstraintsRead(g);
  }

  lemma PartiesRead(g: GrantPayload)
    ensures ReadParties(Sorted(Obj(true, GrantMembers(g)))) == Some((g.grantId, g.principal, g.subject, g.scopes))
  {
    hide T, KeysApart, Sorted, GetText, GetTexts, Strings, ConstraintsJson;
    var ms := GrantMembers(g);
    GrantKeysApart(g);
    TextRead(ms, 1, "grant_id", g.grantId);
    TextRead(ms, 2, "principal", g.principal);
    TextRead(ms, 3, "subject", g.subject);
    TextListRead(ms, 4, "scopes", g.scopes);
  }

  lemma GrantConstraintsRead(g: GrantPayload)
    ensures GetConstraints(Sorted(Obj(true, GrantMembers(g)))) == Some(g.constraints)
  {
    hide Sorted, ReadConstraints, Strings, ConstraintsJson;
    var ms := GrantMembers(g);
    GrantKeysApart(g);
    match g.constraints
    case Some(cs) =>
      FieldRead(ms, 8, "constraints");
      ConstraintsRead(cs);
      SortedArray(ConstraintsJson(cs));
    case None =>
      NoConstraintsMember(g);
      FieldMissing(ms, "constraints");
  }

  lemma SortedArray(items: seq<Value>)
    ensures Sorted(Arr(items)) == Arr(SortedItems(items))
  {}

  lemma NoConstraintsMember(g: GrantPayload)
    requires g.constraints.None?
    ensures forall i :: 0 <= i < |GrantMembers(g)| ==> |GrantMembers(g)[i].key| != |T("constraints")|
  {}

  function ReadRevocation(v: Value): Option<RevocationPayload> {
    match (GetText(v, "revocation_id"), GetText(v, "revokes"), GetText(v, "revokes_type"), GetText(v, "reason"),
           GetText(v, "revoked_at"), GetText(v, "key_id"))
    case (Some(revocationId), Some(revokes), Some(kind), Some(reason), Some(revokedAt), Some(keyId)) =>
      (match (RevokesOf(kind), ReasonOf(reason))
       case (Some(k), Some(r)) => Some(RevocationPayload(revocationId, revokes, k, r, revokedAt, keyId))
       case _ => None)
    case _ => None
  }

  lemma RevocationReads(r: RevocationPayload)
    ensures ReadRevocation(Sorted(Obj(true, RevocationMembers(r)))) == Some(r)
    ensures GetText(Sorted(Obj(true, RevocationMembers(r))), "$schema")
         == Some(T("https://agenid.com/schemas/v1.2/revocation.json"))
  {
    hide T, KeysApart, Sorted, GetText, RevokesOf, ReasonOf, RevokesText, ReasonText;
    var ms := RevocationMembers(r);
    RevocationKeysApart(r);
    TextRead(ms, 0, "$schema", T("https://agenid.com/schemas/v1.2/revocation.json"));
    TextRead(ms, 1, "revocation_id", r.revocationId);
    TextRead(ms, 2, "revokes", r.revokes);
    TextRead(ms, 3, "revokes_type", RevokesText(r.revokesType));
    TextRead(ms, 4, "reason", ReasonText(r.reason));
    TextRead(ms, 5, "revoked_at", r.revokedAt);
    TextRead(ms, 6, "key_id", r.keyId);
    RevokesReads(r.revokesType);
    ReasonReads(r.reason);
  }

  function ReadConsent(v: Value): Option<ConsentPayload> {
    match (GetText(v, "agent_id"), GetText(v, "key_id"), GetFlag(v, "listed"), GetText(v, "created_at"))
    case (Some(agentId), Some(keyId), Some(listed), Some(createdAt)) =>
      Some(ConsentPayload(agentId, keyId, listed, createdAt))
    case _ => None
  }

  lemma ConsentReads(c: ConsentPayload)
    ensures ReadConsent(Sorted(Obj(true, ConsentMembers(c)))) == Some(c)
    ensures GetText(Sorted(Obj(true, ConsentMembers(c))), "type") == Some(T("agenid.directory.consent.v1"))
    ensures GetText(Sorted(Obj(true, ConsentMembers(c))), "$schema").None?
  {
    hide Sorted;
    var ms := ConsentMembers(c);
    ConsentKeysApart(c);
    TextRead(ms, 0, "type", T("agenid.directory.consent.v1"));
    TextRead(ms, 1, "agent_id", c.agentId);
    TextRead(ms, 2, "key_id", c.keyId);
    FlagRead(ms, 3, "listed", c.listed);
    TextRead(ms, 4, "created_at", c.createdAt);
    NoSchemaInConsent(c);
    FieldMissing(ms, "$schema");
  }

  lemma ConsentKeysApart(c: ConsentPayload)
    ensures KeysApart(ConsentMembers(c))
  {
    ConsentTame(c);
  }

  lemma NoSchemaInConsent(c: ConsentPayload)
    ensures forall i :: 0 <= i < |ConsentMembers(c)| ==> |ConsentMembers(c)[i].key| != |T("$schema")|
  {}

  /** The kind is read off `$schema`; a consent carries none, but a type of its own. */
  function ReadPayload(v: Value): Option<Payload> {
    match GetText(v, "$schema")
    case None =>
      if GetText(v, "type") != Some(T("agenid.directory.consent.v1")) then None else
      (match ReadConsent(v) case Some(c) => Some(ConsentOf(c)) case None => None)
    case Some(schema) =>
      if schema == T("https://agenid.com/schemas/v1.1.1/manifest-proof.json") then
        match ReadProof(v) case Some(x) => Some(ProofOf(x)) case None => None
      else if schema == T("https://agenid.com/schemas/v1.1.1/assertion.json") then
        match ReadAssertion(v) case Some(a) => Some(AssertionOf(a)) case None => None
      else if schema == T("https://agenid.com/schemas/v1.2/authorization-grant.json") then
        match ReadGrant(v) case Some(g) => Some(GrantOf(g)) case None => None
      else if schema == T("https://agenid.com/schemas/v1.2/revocation.json") then
        match ReadRevocation(v) case Some(r) => Some(RevocationOf(r)) case None => None
      else None
  }

  lemma SchemasDiffer()
    ensures var a, b := |T("https://agenid.com/schemas/v1.1.1/manifest-proof.json")|,
                        |T("https://agenid.com/schemas/v1.1.1/assertion.json")|;
            var c, d := |T("https://agenid.com/schemas/v1.2/authorization-grant.json")|,
                        |T("https://agenid.com/schemas/v1.2/revocation.json")|;
            a != b && a != c && a != d && b != c && b != d && c != d
  {}

  lemma PayloadReads(x: Payload)
    ensures ReadPayload(Sorted(Obj(true, Members(x)))) == Some(x)
  {
    hide T, Sorted, GetText, ReadProof, ReadAssertion, ReadGrant, ReadRevocation, ReadConsent;
    hide ProofMembers, AssertionMembers, GrantMembers, RevocationMembers, ConsentMembers;
    SchemasDiffer();
    match x
    case ProofOf(a) => ProofReads(a);
    case AssertionOf(a) => AssertionReads(a);
    case GrantOf(a) => GrantReads(a);
    case RevocationOf(a) => RevocationReads(a);
    case ConsentOf(a) => ConsentReads(a);
  }

  // ---------------------------------------------------------------- from the bytes

  /** The bytes of a tame object read back as the object, its members sorted. */
  lemma TameReads(ms: seq<Member>)
    requires Tame(Obj(true, ms))
    ensures CanonicalBytes(Obj(true, ms)).Ok?
    ensures ReadValue(CanonicalBytes(Obj(true, ms)).value) == Some(Sorted(Obj(true, ms)))
  {
    var v := Obj(true, ms);
    TameIsCanonicalizable(v);
    CanonicalAccepts(v);
    CanonicalDecodes(v);
    SortedGenuine(v);
    EmitWellFormed(Sorted(v));
    DecodeOfEncode(Canonical(v).value);
  }

  /** Whoever decodes and parses the signed bytes reads the very payload that was signed: its kind off its marker, each
      field under its own name. */
  lemma SignedBytesRead(x: Payload)
    ensures ReadValue(SigningInput(x)).Some? && ReadPayload(ReadValue(SigningInput(x)).value) == Some(x)
  {
    hide Sorted, Tame, ReadPayload, ReadValue, Members, CanonicalBytes;
    PayloadTame(x);
    TameReads(Members(x));
    PayloadReads(x);
  }

  // ---------------------------------------------------------------- manifests

  function ReadChannels(ts: seq<Text>): Option<seq<Channel>> {
    if ts == [] then Some([])
    else match (ChannelOf(ts[0]), ReadChannels(ts[1..])) case (Some(c), Some(rest)) => Some([c] + rest) case _ => None
  }

  function ChannelTexts(cs: seq<Channel>): seq<Text> {
    if cs == [] then [] else [ChannelText(cs[0])] + ChannelTexts(cs[1..])
  }

  lemma {:induction false} ChannelsAreStrings(cs: seq<Channel>)
    ensures ChannelsJson(cs) == Strings(ChannelTexts(cs))
  {
    hide ChannelText;
    if cs != [] {
      ChannelsAreStrings(cs[1..]);
      assert ChannelsJson(cs) == [Str(ChannelText(cs[0]))] + ChannelsJson(cs[1..]);
      assert Strings(ChannelTexts(cs)) == [Str(ChannelText(cs[0]))] + Strings(ChannelTexts(cs[1..]));
    }
  }

  lemma {:induction false} ChannelTextsRead(cs: seq<Channel>)
    ensures ReadChannels(ChannelTexts(cs)) == Some(cs)
  {
    hide ChannelOf, ChannelText;
    if cs != [] {
      ChannelReads(cs[0]);
      ChannelTextsRead(cs[1..]);
      assert ChannelTexts(cs)[1..] == ChannelTexts(cs[1..]);
      assert cs == [cs[0]] + cs[1..];
    }
  }

  function ReadIdentity(v: Value): Option<(Text, Option<Text>)> {
    match (GetText(v, "name"), GetOptional(v, "description"))
    case (Some(name), Some(description)) => Some((name, description))
    case _ => None
  }

  function ReadOwnership(v: Value): Option<(Text, Text, Option<Text>)> {
    match (GetText(v, "operator"), GetText(v, "operator_domain"), GetOptional(v, "contact"))
    case (Some(operator), Some(domain), Some(contact)) => Some((operator, domain, contact))
    case _ => None
  }

  function ReadPurpose(v: Value): Option<(Text, seq<Channel>)> {
    match (GetText(v, "summary"), GetTexts(v, "channels"))
    case (Some(summary), Some(ts)) =>
      (match ReadChannels(ts) case Some(channels) => Some((summary, channels)) case None => None)
    case _ => None
  }

  function ReadDisclosure(v: Value): Option<(bool, bool, bool)> {
    match (GetFlag(v, "is_ai"), GetFlag(v, "discloses_to_user"), GetFlag(v, "human_escalation"))
    case (Some(isAi), Some(discloses), Some(escalation)) => Some((isAi, discloses, escalation))
    case _ => None
  }

  function ReadManifest(v: Value): Option<Manifest> {
    match (GetText(v, "manifest_version"), GetText(v, "agent_id"), ReadParts(v))
    case (Some(version), Some(agentId), Some((identity, ownership, purpose, disclosure))) =>
      Some(Manifest(version, agentId, identity.0, identity.1, ownership.0, ownership.1, ownership.2,
                    purpose.0, purpose.1, disclosure.0, disclosure.1, disclosure.2))
    case _ => None
  }

  function ReadParts(v: Value)
    : Option<((Text, Option<Text>), (Text, Text, Option<Text>), (Text, seq<Channel>), (bool, bool, bool))>
  {
    match (Get(v, "identity"), Get(v, "ownership"), Get(v, "purpose"), Get(v, "disclosure"))
    case (Some(i), Some(o), Some(p), Some(d)) =>
      (match (ReadIdentity(i), ReadOwnership(o), ReadPurpose(p), ReadDisclosure(d))
       case (Some(identity), Some(ownership), Some(purpose), Some(disclosure)) =>
         Some((identity, ownership, purpose, disclosure))
       case _ => None)
    case _ => None
  }

  lemma IdentityReads(m: Manifest)
    ensures ReadIdentity(Sorted(Obj(true, IdentityMembers(m)))) == Some((m.name, m.description))
  {
    hide Sorted;
    TameKeysApart(IdentityMembers(m), m);
    TextRead(IdentityMembers(m), 0, "name", m.name);
    assert |T("name")| != |T("description")|;
    OptionalRead(IdentityMembers(m), [Text1("name", m.name)], "description", m.description);
  }

  /** The four parts of a manifest are named apart. */
  lemma TameKeysApart(ms: seq<Member>, m: Manifest)
    requires ms in [IdentityMembers(m), OwnershipMembers(m), PurposeMembers(m), DisclosureMembers(m)]
    ensures KeysApart(ms)
  {
    hide IdentityMembers, OwnershipMembers, PurposeMembers, DisclosureMembers, KeysApart;
    PartsTame(m);
  }

  lemma OwnershipReads(m: Manifest)
    ensures ReadOwnership(Sorted(Obj(true, OwnershipMembers(m)))) == Some((m.operator, m.operatorDomain, m.contact))
  {
    hide Sorted;
    var ms := OwnershipMembers(m);
    TameKeysApart(ms, m);
    TextRead(ms, 0, "operator", m.operator);
    TextRead(ms, 1, "operator_domain", m.operatorDomain);
    assert |T("contact")| != |T("operator")| && |T("contact")| != |T("operator_domain")|;
    OptionalRead(ms, [Text1("operator", m.operator), Text1("operator_domain", m.operatorDomain)], "contact", m.contact);
  }

  lemma PurposeReads(m: Manifest)
    ensures ReadPurpose(Sorted(Obj(true, PurposeMembers(m)))) == Some((m.summary, m.channels))
  {
    hide Sorted, ChannelsJson, Strings;
    var ms := PurposeMembers(m);
    TameKeysApart(ms, m);
    TextRead(ms, 0, "summary", m.summary);
    ChannelsAreStrings(m.channels);
    TextListRead(ms, 1, "channels", ChannelTexts(m.channels));
    ChannelTextsRead(m.channels);
  }

  lemma DisclosureReads(m: Manifest)
    ensures ReadDisclosure(Sorted(Obj(true, DisclosureMembers(m))))
         == Some((m.isAi, m.disclosesToUser, m.humanEscalation))
  {
    hide Sorted;
    var ms := DisclosureMembers(m);
    TameKeysApart(ms, m);
    FlagRead(ms, 0, "is_ai", m.isAi);
    FlagRead(ms, 1, "discloses_to_user", m.disclosesToUser);
    FlagRead(ms, 2, "human_escalation", m.humanEscalation);
  }

  lemma PartsRead(m: Manifest)
    ensures ReadParts(Sorted(Obj(true, ManifestMembers(m))))
         == Some(((m.name, m.description), (m.operator, m.operatorDomain, m.contact), (m.summary, m.channels),
                  (m.isAi, m.disclosesToUser, m.humanEscalation)))
  {
    hide T, KeysApart, Sorted, Get, ReadIdentity, ReadOwnership, ReadPurpose, ReadDisclosure;
    hide IdentityMembers, OwnershipMembers, PurposeMembers, DisclosureMembers;
    var ms := ManifestMembers(m);
    ManifestKeysApart(m);
    FieldRead(ms, 2, "identity");
    FieldRead(ms, 3, "ownership");
    FieldRead(ms, 4, "purpose");
    FieldRead(ms, 5, "disclosure");
    IdentityReads(m);
    OwnershipReads(m);
    PurposeReads(m);
    DisclosureReads(m);
  }

  /** The bytes whose digest is signed read back as the manifest. */
  lemma ManifestBytesRead(m: Manifest)
    ensures ReadValue(ManifestBytes(m)).Some? && ReadManifest(ReadValue(ManifestBytes(m)).value) == Some(m)
  {
    hide T, Sorted, Tame, KeysApart, ReadParts, ReadValue, CanonicalBytes, GetText;
    hide IdentityMembers, OwnershipMembers, PurposeMembers, DisclosureMembers;
    var ms := ManifestMembers(m);
    ManifestTame(m);
    ManifestKeysApart(m);
    TameReads(ms);
    TextRead(ms, 0, "manifest_version", m.version);
    TextRead(ms, 1, "agent_id", m.agentId);
    PartsRead(m);
  }
}
