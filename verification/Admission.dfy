// What the registry's write handlers (packages/api/src/app.ts) let through, what that leaves behind, and what they
// answer otherwise.
module Admission {
  import opened Prelude
  import opened Text
  import opened Identifier
  import opened Objects
  import opened SignedObjects
  import opened Crypto
  import opened Registry

  /** The clock text the handler writes reads back as the clock. */
  predicate ReadsBack(p: Platform, clock: int) { p.dateParse(p.toIso(clock)) == Some(clock) }

  // ---------------------------------------------------------------- registration

  /** The proof was created at most two minutes ahead of the server's clock and has not expired by it. */
  predicate Timely(p: Platform, b: RegisterBody, serverNow: int) {
    match (p.dateParse(b.proof.payload.createdAt), p.dateParse(b.proof.payload.expiresAt))
    case (Some(created), Some(expires)) => created <= serverNow + 120_000 && serverNow <= expires
    case _ => false
  }

  /** It was created more than two minutes ahead. */
  predicate Ahead(p: Platform, b: RegisterBody, serverNow: int) {
    match p.dateParse(b.proof.payload.createdAt) case Some(created) => created > serverNow + 120_000 case None => false
  }

  lemma ClockDecidesTimely(p: Platform, b: RegisterBody, serverNow: int)
    requires ReadsBack(p, serverNow) && ValidProof(p, b.proof)
    ensures var x, rt := b.proof.payload, RegistrationTime(p, b.proof.payload.createdAt, serverNow);
            && (rt.None? <==> Ahead(p, b, serverNow))
            && (rt.None? ==> !Timely(p, b, serverNow))
            && (rt.Some? ==> !Earlier(p, rt.value.now, x.createdAt))
            && (rt.Some? ==> (InWindow(p, rt.value.now, x.createdAt, x.expiresAt) <==> Timely(p, b, serverNow)))
  {}

  /** The checks on the body pass exactly for an authentic, timely proof. */
  lemma BodyPassesIff(p: Platform, b: RegisterBody, serverNow: int)
    requires ReadsBack(p, serverNow)
    ensures RegisterFailure(p, b, serverNow).None? <==>
              ProofStands(p, b.proof, b.manifest, b.key) && Timely(p, b, serverNow)
  {
    hide ValidProof, ValidManifest, ValidKey, RegistrationTime, Timely, InWindow, InService, ManifestDigest;
    hide VerifyManifestProof, SigningInput;
    if ValidProof(p, b.proof) { ClockDecidesTimely(p, b, serverNow); }
    var rt := RegistrationTime(p, b.proof.payload.createdAt, serverNow);
    if rt.Some? { ProofAcceptedIff(p, b.proof, b.manifest, b.key, rt.value.now); }
  }

  /** A registration goes through exactly for an authentic, timely proof by a key that conflicts with none published,
      for an agent not yet registered. */
  lemma RegisteredIff(p: Platform, s: State, b: RegisterBody, serverNow: int, written: int)
    requires ReadsBack(p, serverNow)
    ensures RegisterStep(p, s, b, serverNow, written).1.Registered? <==>
              && ProofStands(p, b.proof, b.manifest, b.key) && Timely(p, b, serverNow)
              && (b.key.keyId in s.keys ==> s.keys[b.key.keyId] == b.key)
              && b.manifest.agentId !in s.agents
  {
    hide RegisterFailure, ProofStands, Timely;
    BodyPassesIff(p, b, serverNow);
  }

  /** It leaves an active record of exactly what was sent, its key, and one event of each kind; any other answer leaves
      everything as it was. */
  lemma RegisteredLeaves(p: Platform, s: State, b: RegisterBody, serverNow: int, written: int)
    ensures var (t, reply) := RegisterStep(p, s, b, serverNow, written);
            var (id, ts) := (b.manifest.agentId, p.toIso(written));
            if reply.Registered? then
              && reply.record == AgentRecord(id, b.manifest, ManifestDigest(p, b.manifest), b.proof, ACTIVE, ts, ts)
              && t.agents == s.agents[id := reply.record] && t.keys == s.keys[b.key.keyId := b.key]
              && t.assertions == s.assertions
              && t.events == s.events + [KeyPublished(id, ts, b.key.keyId),
                                         AgentRegistered(id, ts, ManifestDigest(p, b.manifest))]
            else t == s && reply.Refused?
  {
    hide RegisterFailure, ManifestDigest;
  }

  /** Which refusal is answered: of the first step that fails, conflicts with the store last. */
  lemma RegisterRefusals(p: Platform, s: State, b: RegisterBody, serverNow: int, written: int)
    requires ReadsBack(p, serverNow)
    ensures var reply := RegisterStep(p, s, b, serverNow, written).1;
            var valid := ValidManifest(p, b.manifest) && ValidProof(p, b.proof) && ValidKey(p, b.key);
            var named := valid && b.key.keyId == b.proof.payload.keyId;
            var ranked := named && b.key.role == Operator;
            var controlled := ranked && b.key.controller == b.manifest.agentId;
            var skewed := controlled && Ahead(p, b, serverNow);
            var passes := ProofStands(p, b.proof, b.manifest, b.key) && Timely(p, b, serverNow);
            var taken := b.key.keyId in s.keys && s.keys[b.key.keyId] != b.key;
            && (reply == Refused(400, SchemaValidationFailed) <==> !valid)
            && (reply == Refused(400, KeyIdConflictsWithProof) <==> valid && !named)
            && (reply == Refused(400, NotAnOperatorKey) <==> named && !ranked)
            && (reply == Refused(400, NotTheController) <==> ranked && !controlled)
            && (reply == Refused(400, ClockSkewTooLarge) <==> skewed)
            && ((reply.Refused? && reply.status == 400 && reply.error.VerificationFailed?) <==>
                  controlled && !skewed && !passes)
            && (reply == Refused(409, KeyConflict) <==> passes && taken)
            && (reply == Refused(409, AgentExists) <==> passes && !taken && b.manifest.agentId in s.agents)
  {
    hide ValidProof, ValidManifest, ValidKey, RegistrationTime, VerifyManifestProof, ProofStands, Timely, Earlier;
    hide InWindow, Ahead;
    BodyPassesIff(p, b, serverNow);
    StandsMeansValid(p, b);
    if ValidProof(p, b.proof) { ClockDecidesTimely(p, b, serverNow); }
  }

  lemma StandsMeansValid(p: Platform, b: RegisterBody)
    ensures ProofStands(p, b.proof, b.manifest, b.key) ==>
              && ValidManifest(p, b.manifest) && ValidProof(p, b.proof) && ValidKey(p, b.key)
              && b.key.keyId == b.proof.payload.keyId && b.key.role == Operator
              && b.key.controller == b.manifest.agentId
  {
    hide ValidProof, ValidManifest, ValidKey, InService, ManifestDigest, SigningInput;
  }

  // ---------------------------------------------------------------- the authority token

  /** The request carries the token this registry is configured with. */
  predicate Authorized(c: Credentials) {
    && c.configured.Some? && c.configured.value != []
    && c.header == Some(T("Bearer ") + c.configured.value)
  }

  lemma CredentialsIff(c: Credentials)
    ensures CredentialsFailure(c).None? <==> Authorized(c)
    ensures !Authorized(c) ==>
              CredentialsFailure(c) == Some(if c.configured.None? || c.configured.value == []
                                            then Refused(503, AuthorityWritesDisabled) else Refused(401, Unauthorized))
  {}

  /** Without it neither authority write changes anything, whatever the body is: 503 where no token is configured, 401
      where another or none was sent. */
  lemma TokenlessWritesNothing(p: Platform, s: State, c: Credentials, key: KeyDocument, path: Text,
                               a: VerificationAssertion, now: int, written: int)
    requires !Authorized(c)
    ensures var refusal := if c.configured.None? || c.configured.value == []
                           then Refused(503, AuthorityWritesDisabled) else Refused(401, Unauthorized);
            && PublishKeyStep(p, s, c, key) == (s, refusal)
            && IssueStep(p, s, c, path, a, now, written) == (s, refusal)
  {
    CredentialsIff(c);
  }

  /** The command is no authority write with the token. */
  predicate Tokenless(c: Command) {
    match c
    case Register(_, _, _) => true
    case Issue(credentials, _, _, _, _) => !Authorized(credentials)
    case PublishKey(credentials, _) => !Authorized(credentials)
  }

  predicate SameAuthority(s: State, t: State) {
    && t.assertions == s.assertions
    && forall k :: k in t.keys && t.keys[k].role == Authority ==> k in s.keys && s.keys[k] == t.keys[k]
  }

  lemma RegisteringAddsNoAuthority(p: Platform, s: State, b: RegisterBody, serverNow: int, written: int)
    ensures SameAuthority(s, RegisterStep(p, s, b, serverNow, written).0)
  {
    hide ValidProof, ValidManifest, ValidKey, RegistrationTime, VerifyManifestProof;
  }

  lemma TokenlessStep(p: Platform, s: State, c: Command)
    requires Tokenless(c)
    ensures SameAuthority(s, Step(p, s, c))
  {
    hide RegisterStep, CredentialsFailure, Authorized;
    match c
    case Register(b, now, written) => RegisteringAddsNoAuthority(p, s, b, now, written);
    case Issue(credentials, _, _, _, _) => CredentialsIff(credentials);
    case PublishKey(credentials, _) => CredentialsIff(credentials);
  }

  /** Over every run without the token no assertion is issued and no authority key appears, whoever registers. */
  lemma {:induction false} TokenlessRun(p: Platform, s: State, cs: seq<Command>)
    requires forall c :: c in cs ==> Tokenless(c)
    ensures SameAuthority(s, Run(p, s, cs))
    decreases |cs|
  {
    if cs != [] {
      assert forall c :: c in cs[1..] ==> c in cs;
      TokenlessStep(p, s, cs[0]);
      TokenlessRun(p, Step(p, s, cs[0]), cs[1..]);
    }
  }

  // ---------------------------------------------------------------- issuance

  /** No stored assertion has this id. */
  predicate NewAssertion(s: State, id: Text) { forall x :: x in s.assertions ==> x.payload.assertionId != id }

  /** The authority's clock lies between the two dates of the assertion. */
  predicate CurrentAt(p: Platform, a: VerificationAssertion, now: int) {
    match (p.dateParse(a.payload.verifiedAt), p.dateParse(a.payload.expiresAt))
    case (Some(from), Some(to)) => from <= now <= to
    case _ => false
  }

  lemma InWindowIsCurrent(p: Platform, a: VerificationAssertion, now: int)
    requires ReadsBack(p, now) && ValidAssertion(p, a)
    ensures InWindow(p, p.toIso(now), a.payload.verifiedAt, a.payload.expiresAt) <==> CurrentAt(p, a, now)
  {}

  /** The assertion is authentic under the published key it names, about this very manifest, and current. */
  predicate Issuable(p: Platform, s: State, rec: AgentRecord, a: VerificationAssertion, now: int) {
    && a.payload.keyId in s.keys
    && AssertionStands(p, a, s.keys[a.payload.keyId], Some(rec.manifest)) && CurrentAt(p, a, now)
  }

  lemma IssuableIff(p: Platform, s: State, rec: AgentRecord, a: VerificationAssertion, now: int)
    requires ReadsBack(p, now) && a.payload.keyId in s.keys
    ensures Issuable(p, s, rec, a, now) <==>
              VerifyVerificationAssertion(p, a, s.keys[a.payload.keyId], p.toIso(now), Some(rec.manifest)).Ok?
  {
    hide ValidAssertion, ValidKey, ValidManifest, InService, InWindow, CurrentAt, ManifestDigest, SigningInput;
    hide VerifyVerificationAssertion;
    AssertionAcceptedIff(p, a, s.keys[a.payload.keyId], p.toIso(now), Some(rec.manifest));
    if ValidAssertion(p, a) { InWindowIsCurrent(p, a, now); }
  }

  /** An assertion is issued exactly with the token, for a registered agent it is about, authentic and current, under a
      new id. */
  lemma IssuedIff(p: Platform, s: State, c: Credentials, path: Text, a: VerificationAssertion, now: int, written: int)
    requires ReadsBack(p, now)
    ensures IssueStep(p, s, c, path, a, now, written).1.Issued? <==>
              && Authorized(c) && IsAgentId(path) && path in s.agents && a.payload.subject == s.agents[path].agentId
              && Issuable(p, s, s.agents[path], a, now) && NewAssertion(s, a.payload.assertionId)
  {
    hide VerifyVerificationAssertion, Issuable, CredentialsFailure, Authorized, IsAgentId, ValidAssertion;
    CredentialsIff(c);
    if path in s.agents && a.payload.keyId in s.keys { IssuableIff(p, s, s.agents[path], a, now); }
    if path in s.agents { IssuableIsValid(p, s, s.agents[path], a, now); }
    NewIff(s, a.payload.assertionId);
  }

  lemma IssuableIsValid(p: Platform, s: State, rec: AgentRecord, a: VerificationAssertion, now: int)
    ensures Issuable(p, s, rec, a, now) ==> ValidAssertion(p, a) && a.payload.keyId in s.keys
  {
    hide ValidAssertion;
  }

  lemma NewIff(s: State, id: Text)
    ensures NewAssertion(s, id) <==> IndexOfAssertion(s.assertions, id).None?
  {
    forall x | x in s.assertions ensures exists i :: 0 <= i < |s.assertions| && s.assertions[i] == x {}
  }

  /** It leaves the assertion at the end of the list and one event about it. */
  lemma IssuedLeaves(p: Platform, s: State, c: Credentials, path: Text, a: VerificationAssertion, now: int,
                     written: int)
    ensures var ((t, reply), x) := (IssueStep(p, s, c, path, a, now, written), a.payload);
            if reply.Issued? then
              && reply == Issued(x.assertionId, x.level)
              && t.agents == s.agents && t.keys == s.keys && t.assertions == s.assertions + [a]
              && t.events
                 == s.events + [AssertionIssued(x.subject, p.toIso(written), x.assertionId, x.level, x.digest)]
            else t == s && reply.Refused?
  {
    hide VerifyVerificationAssertion, ValidAssertion, IsAgentId;
  }

  /** Which refusal is answered. */
  lemma IssueRefusals(p: Platform, s: State, c: Credentials, path: Text, a: VerificationAssertion, now: int,
                      written: int)
    requires ReadsBack(p, now)
    ensures var reply := IssueStep(p, s, c, path, a, now, written).1;
            var found := Authorized(c) && IsAgentId(path) && path in s.agents;
            var valid := found && ValidAssertion(p, a);
            var about := valid && a.payload.subject == s.agents[path].agentId;
            var known := about && a.payload.keyId in s.keys;
            var passes := known && Issuable(p, s, s.agents[path], a, now);
            && (reply == Refused(404, AgentNotFound) <==> Authorized(c) && !found)
            && (reply == Refused(400, SchemaValidationFailed) <==> found && !valid)
            && (reply == Refused(400, SubjectNotInPath) <==> valid && !about)
            && (reply == Refused(400, AuthorityKeyUnknown) <==> about && !known)
            && (known && !passes <==>
                  && reply.Refused? && reply.status == 400 && reply.error.VerificationFailed?)
            && (known && !passes ==>
                  var check := VerifyVerificationAssertion(p, a, s.keys[a.payload.keyId], p.toIso(now),
                                                           Some(s.agents[path].manifest));
                  check.Err? && reply.error.code == check.error)
            && (reply == Refused(409, AssertionExists) <==> passes && !NewAssertion(s, a.payload.assertionId))
  {
    hide VerifyVerificationAssertion, Issuable, CredentialsFailure, Authorized, IsAgentId, ValidAssertion, NewAssertion;
    hide IndexOfAssertion;
    CredentialsIff(c);
    if path in s.agents && a.payload.keyId in s.keys { IssuableIff(p, s, s.agents[path], a, now); }
    NewIff(s, a.payload.assertionId);
  }

  // ---------------------------------------------------------------- key publication

  /** An authority key is published exactly with the token, if well-formed, of the authority role and in no conflict. */
  lemma KeyStoredIff(p: Platform, s: State, c: Credentials, key: KeyDocument)
    ensures var ((t, reply), taken) := (PublishKeyStep(p, s, c, key), key.keyId in s.keys && s.keys[key.keyId] != key);
            var (valid, ranked) := (Authorized(c) && ValidKey(p, key), key.role == Authority);
            && (reply.KeyStored? <==> valid && ranked && !taken)
            && (reply.KeyStored? ==> reply.keyId == key.keyId && t == s.(keys := s.keys[key.keyId := key]))
            && (!reply.KeyStored? ==> t == s)
            && (reply == Refused(400, SchemaValidationFailed) <==> Authorized(c) && !valid)
            && (reply == Refused(400, NotAnAuthorityKey) <==> valid && !ranked)
            && (reply == Refused(409, KeyConflict) <==> valid && ranked && taken)
  {
    hide ValidKey, CredentialsFailure, Authorized;
    CredentialsIff(c);
  }
}
