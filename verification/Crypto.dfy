// Signing and verification of manifest proofs and verification assertions (packages/core/src/crypto.ts)
// and of authorization grants and revocations (packages/core/src/authorization-verify.ts).
module Crypto {
  import opened Prelude
  import opened Text
  import opened Utf8
  import opened Objects
  import opened SignedObjects
  import opened Identifier
  import Uri

  datatype Code =
    | SchemaInvalid | ManifestDigestMismatch | NotApplicable
    | KeyIdMismatch | KeyRoleMismatch | KeyControllerMismatch | KeyNotActive
    | NotYetValid | Expired | SignatureInvalid

  datatype SignError = SchemaValidationError | KeyRoleError

  /** A seed bound to its published key document. */
  datatype SigningKey = SigningKey(seed: Bytes, document: KeyDocument)

  /** The document publishes the public key of the seed. */
  predicate Matches(p: Platform, k: SigningKey) { k.document.publicKey == p.publicKey(k.seed) }

  /** Ed25519 correctness (section 5.1 of RFC 8032): what a seed signs verifies under its public key. */
  ghost predicate SignaturesVerify(p: Platform) {
    forall seed, message :: p.verify(p.publicKey(seed), message, p.sign(seed, message))
  }

  /** Neither before `from` nor after `to`; a clock text that is no instant is inside every window. */
  predicate InWindow(p: Platform, now: Text, from: Text, to: Text) {
    !Earlier(p, now, from) && !Earlier(p, to, now)
  }

  function WindowCheck(p: Platform, now: Text, from: Text, to: Text): Result<(), Code> {
    if Before(p.dateParse(now), p.dateParse(from)) then Err(NotYetValid)
    else if Before(p.dateParse(to), p.dateParse(now)) then Err(Expired)
    else Ok(())
  }

  // ---------------------------------------------------------------- manifest proofs

  function SignManifestProof(p: Platform, m: Manifest, k: SigningKey, createdAt: Text, expiresAt: Text)
    : Result<ManifestProof, SignError>
  {
    if !ValidManifest(p, m) || !ValidKey(p, k.document) then Err(SchemaValidationError)
    else if k.document.role != Operator then Err(KeyRoleError)
    else if k.document.controller != m.agentId then Err(KeyRoleError)
    else
      var payload := ProofPayload(m.agentId, m.version, ManifestDigest(p, m), k.document.keyId, createdAt, expiresAt);
      if !ValidProofPayload(p, payload) then Err(SchemaValidationError) else
      var proof := Signed(payload, p.sign(k.seed, SigningInput(ProofOf(payload))));
      if ValidProof(p, proof) then Ok(proof) else Err(SchemaValidationError)
  }

  function VerifyManifestProof(p: Platform, proof: ManifestProof, m: Manifest, key: KeyDocument, now: Text)
    : Result<(), Code>
  {
    var x := proof.payload;
    if !ValidProof(p, proof) || !ValidManifest(p, m) || !ValidKey(p, key) then Err(SchemaInvalid)
    else if ManifestDigest(p, m) != x.digest || m.agentId != x.agentId || m.version != x.version then
      Err(ManifestDigestMismatch)
    else if key.keyId != x.keyId then Err(KeyIdMismatch)
    else if key.role != Operator then Err(KeyRoleMismatch)
    else if key.controller != x.agentId then Err(KeyControllerMismatch)
    else if !KeyActiveAt(p, key, x.createdAt) then Err(KeyNotActive)
    else
      var inTime :- WindowCheck(p, now, x.createdAt, x.expiresAt);
      if !p.verify(key.publicKey, SigningInput(ProofOf(x)), proof.signature) then Err(SignatureInvalid)
      else Ok(())
  }

  /** Everything a proof is checked for except the clock. */
  predicate ProofStands(p: Platform, proof: ManifestProof, m: Manifest, key: KeyDocument) {
    var x := proof.payload;
    && ValidProof(p, proof) && ValidManifest(p, m) && ValidKey(p, key)
    && ManifestDigest(p, m) == x.digest && m.agentId == x.agentId && m.version == x.version
    && key.keyId == x.keyId && key.role == Operator && key.controller == x.agentId
    && InService(p, key, x.createdAt)
    && p.verify(key.publicKey, SigningInput(ProofOf(x)), proof.signature)
  }

  // ---------------------------------------------------------------- verification assertions

  function SignVerificationAssertion(p: Platform, a: AssertionPayload, k: SigningKey)
    : Result<VerificationAssertion, SignError>
  {
    if !ValidAssertionPayload(p, a) || !ValidKey(p, k.document) then Err(SchemaValidationError)
    else if k.document.role != Authority then Err(KeyRoleError)
    else if k.document.controller != a.authority then Err(KeyRoleError)
    else if k.document.keyId != a.keyId then Err(KeyRoleError)
    else
      var signed := Signed(a, p.sign(k.seed, SigningInput(AssertionOf(a))));
      if ValidAssertion(p, signed) then Ok(signed) else Err(SchemaValidationError)
  }

  function VerifyVerificationAssertion(p: Platform, a: VerificationAssertion, key: KeyDocument, now: Text,
                                       current: Option<Manifest>)
    : Result<(), Code>
  {
    var x := a.payload;
    if !ValidAssertion(p, a) || !ValidKey(p, key) then Err(SchemaInvalid)
    else if key.keyId != x.keyId then Err(KeyIdMismatch)
    else if key.role != Authority then Err(KeyRoleMismatch)
    else if key.controller != x.authority then Err(KeyControllerMismatch)
    else if !KeyActiveAt(p, key, x.verifiedAt) then Err(KeyNotActive)
    else
      var inTime :- WindowCheck(p, now, x.verifiedAt, x.expiresAt);
      if !p.verify(key.publicKey, SigningInput(AssertionOf(x)), a.signature) then Err(SignatureInvalid)
      else
        match current
        case None => Ok(())
        case Some(m) =>
          if !ValidManifest(p, m) then Err(SchemaInvalid)
          else if ManifestDigest(p, m) != x.digest then Err(NotApplicable)
          else Ok(())
  }

  /** Everything an assertion is checked for except the clock. */
  predicate AssertionStands(p: Platform, a: VerificationAssertion, key: KeyDocument, current: Option<Manifest>) {
    var x := a.payload;
    && ValidAssertion(p, a) && ValidKey(p, key)
    && key.keyId == x.keyId && key.role == Authority && key.controller == x.authority
    && InService(p, key, x.verifiedAt)
    && p.verify(key.publicKey, SigningInput(AssertionOf(x)), a.signature)
    && (current.Some? ==> ValidManifest(p, current.value) && ManifestDigest(p, current.value) == x.digest)
  }

  // ---------------------------------------------------------------- grants

  function SignAuthorizationGrant(p: Platform, g: GrantPayload, k: SigningKey): Result<AuthorizationGrant, SignError> {
    if !ValidGrantPayload(p, g) || !ValidKey(p, k.document) then Err(SchemaValidationError)
    else if k.document.role != Principal then Err(KeyRoleError)
    else if k.document.controller != g.principal then Err(KeyRoleError)
    else if k.document.keyId != g.keyId then Err(KeyRoleError)
    else
      var signed := Signed(g, p.sign(k.seed, SigningInput(GrantOf(g))));
      if ValidGrant(p, signed) then Ok(signed) else Err(SchemaValidationError)
  }

  function VerifyAuthorizationGrant(p: Platform, g: AuthorizationGrant, key: KeyDocument, now: Text): Result<(), Code> {
    var x := g.payload;
    if !ValidGrant(p, g) || !ValidKey(p, key) then Err(SchemaInvalid)
    else if key.keyId != x.keyId then Err(KeyIdMismatch)
    else if key.role != Principal then Err(KeyRoleMismatch)
    else if key.controller != x.principal then Err(KeyControllerMismatch)
    else if !KeyActiveAt(p, key, x.notBefore) then Err(KeyNotActive)
    else if !p.verify(key.publicKey, SigningInput(GrantOf(x)), g.signature) then Err(SignatureInvalid)
    else WindowCheck(p, now, x.notBefore, x.expiresAt)
  }

  /** Everything a grant is checked for except the clock. */
  predicate GrantStands(p: Platform, g: AuthorizationGrant, key: KeyDocument) {
    var x := g.payload;
    && ValidGrant(p, g) && ValidKey(p, key)
    && key.keyId == x.keyId && key.role == Principal && key.controller == x.principal
    && InService(p, key, x.notBefore)
    && p.verify(key.publicKey, SigningInput(GrantOf(x)), g.signature)
  }

  // ---------------------------------------------------------------- revocations

  function SignRevocation(p: Platform, r: RevocationPayload, k: SigningKey): Result<Revocation, SignError> {
    if !ValidRevocationPayload(p, r) || !ValidKey(p, k.document) then Err(SchemaValidationError)
    else if k.document.role != RevokerRole(r.revokesType) then Err(KeyRoleError)
    else if k.document.keyId != r.keyId then Err(KeyRoleError)
    else
      var signed := Signed(r, p.sign(k.seed, SigningInput(RevocationOf(r))));
      if ValidRevocation(p, signed) then Ok(signed) else Err(SchemaValidationError)
  }

  function VerifyRevocation(p: Platform, r: Revocation, key: KeyDocument): Result<(), Code> {
    var x := r.payload;
    if !ValidRevocation(p, r) || !ValidKey(p, key) then Err(SchemaInvalid)
    else if key.keyId != x.keyId then Err(KeyIdMismatch)
    else if key.role != RevokerRole(x.revokesType) then Err(KeyRoleMismatch)
    else if !KeyActiveAt(p, key, x.revokedAt) then Err(KeyNotActive)
    else if !p.verify(key.publicKey, SigningInput(RevocationOf(x)), r.signature) then Err(SignatureInvalid)
    else Ok(())
  }

  /** Everything a revocation is checked for; it has no window. */
  predicate RevocationStands(p: Platform, r: Revocation, key: KeyDocument) {
    var x := r.payload;
    && ValidRevocation(p, r) && ValidKey(p, key) && key.keyId == x.keyId && key.role == RevokerRole(x.revokesType)
    && InService(p, key, x.revokedAt)
    && p.verify(key.publicKey, SigningInput(RevocationOf(x)), r.signature)
  }

  // ---------------------------------------------------------------- each verifier, summed up

  lemma ProofDates(p: Platform, proof: ManifestProof, key: KeyDocument)
    requires ValidProof(p, proof) && ValidKey(p, key)
    ensures KeyActiveAt(p, key, proof.payload.createdAt) <==> InService(p, key, proof.payload.createdAt)
  {
    ActiveMeansInService(p, key, proof.payload.createdAt);
  }

  lemma AssertionDates(p: Platform, a: VerificationAssertion, key: KeyDocument)
    requires ValidAssertion(p, a) && ValidKey(p, key)
    ensures KeyActiveAt(p, key, a.payload.verifiedAt) <==> InService(p, key, a.payload.verifiedAt)
  {
    ActiveMeansInService(p, key, a.payload.verifiedAt);
  }

  lemma GrantDates(p: Platform, g: AuthorizationGrant, key: KeyDocument)
    requires ValidGrant(p, g) && ValidKey(p, key)
    ensures KeyActiveAt(p, key, g.payload.notBefore) <==> InService(p, key, g.payload.notBefore)
  {
    ActiveMeansInService(p, key, g.payload.notBefore);
  }

  lemma RevocationDates(p: Platform, r: Revocation, key: KeyDocument)
    requires ValidRevocation(p, r) && ValidKey(p, key)
    ensures KeyActiveAt(p, key, r.payload.revokedAt) <==> InService(p, key, r.payload.revokedAt)
  {
    ActiveMeansInService(p, key, r.payload.revokedAt);
  }

  /** A proof is accepted exactly when it stands and now lies in its window; with a NaN clock the window does not
      bind. */
  lemma ProofAcceptedIff(p: Platform, proof: ManifestProof, m: Manifest, key: KeyDocument, now: Text)
    ensures VerifyManifestProof(p, proof, m, key, now).Ok?
       <==> ProofStands(p, proof, m, key) && InWindow(p, now, proof.payload.createdAt, proof.payload.expiresAt)
    ensures ProofStands(p, proof, m, key) ==>
              VerifyManifestProof(p, proof, m, key, now)
              == WindowCheck(p, now, proof.payload.createdAt, proof.payload.expiresAt)
  {
    hide ValidProof, ValidManifest, ValidKey, KeyActiveAt, InService, ManifestDigest, SigningInput;
    if ValidProof(p, proof) && ValidKey(p, key) { ProofDates(p, proof, key); }
  }

  lemma AssertionAcceptedIff(p: Platform, a: VerificationAssertion, key: KeyDocument, now: Text,
                             current: Option<Manifest>)
    ensures VerifyVerificationAssertion(p, a, key, now, current).Ok?
       <==> AssertionStands(p, a, key, current) && InWindow(p, now, a.payload.verifiedAt, a.payload.expiresAt)
    ensures AssertionStands(p, a, key, current) ==>
              VerifyVerificationAssertion(p, a, key, now, current)
              == WindowCheck(p, now, a.payload.verifiedAt, a.payload.expiresAt)
  {
    hide ValidAssertion, ValidManifest, ValidKey, KeyActiveAt, InService, ManifestDigest, SigningInput;
    if ValidAssertion(p, a) && ValidKey(p, key) { AssertionDates(p, a, key); }
  }

  lemma GrantAcceptedIff(p: Platform, g: AuthorizationGrant, key: KeyDocument, now: Text)
    ensures VerifyAuthorizationGrant(p, g, key, now).Ok?
       <==> GrantStands(p, g, key) && InWindow(p, now, g.payload.notBefore, g.payload.expiresAt)
  {
    hide ValidGrant, ValidKey, KeyActiveAt, InService, SigningInput;
    if ValidGrant(p, g) && ValidKey(p, key) { GrantDates(p, g, key); }
  }

  lemma RevocationAcceptedIff(p: Platform, r: Revocation, key: KeyDocument)
    ensures VerifyRevocation(p, r, key).Ok? <==> RevocationStands(p, r, key)
  {
    hide ValidRevocation, ValidKey, KeyActiveAt, InService, SigningInput;
    if ValidRevocation(p, r) && ValidKey(p, key) { RevocationDates(p, r, key); }
  }

  /** A key of any other role neither signs nor verifies, whatever its signature arithmetic would say. */
  lemma WrongRoleFails(p: Platform, k: SigningKey, m: Manifest, proof: ManifestProof, a: VerificationAssertion,
                       g: AuthorizationGrant, r: Revocation, from: Text, to: Text, now: Text, current: Option<Manifest>)
    ensures k.document.role != Operator ==>
              SignManifestProof(p, m, k, from, to).Err? && VerifyManifestProof(p, proof, m, k.document, now).Err?
    ensures k.document.role != Authority ==>
              && SignVerificationAssertion(p, a.payload, k).Err?
              && VerifyVerificationAssertion(p, a, k.document, now, current).Err?
    ensures k.document.role != Principal ==>
              SignAuthorizationGrant(p, g.payload, k).Err? && VerifyAuthorizationGrant(p, g, k.document, now).Err?
    ensures !MayRevoke(k.document.role, r.payload.revokesType) ==>
              SignRevocation(p, r.payload, k).Err? && VerifyRevocation(p, r, k.document).Err?
  {
    hide ValidProof, ValidManifest, ValidAssertion, ValidGrant, ValidRevocation, ValidKey, KeyActiveAt, InService;
    hide ValidProofPayload, ValidAssertionPayload, ValidGrantPayload, ValidRevocationPayload, SigningInput;
  }

  /** No key vouches for an instant at or after its revocation or its retirement, in any of the four kinds. */
  lemma LateSignatureFails(p: Platform, key: KeyDocument, end: Text, m: Manifest, proof: ManifestProof,
                           a: VerificationAssertion, g: AuthorizationGrant, r: Revocation, now: Text,
                           current: Option<Manifest>)
    requires key.revokedAt == Some(end) || key.retiredAt == Some(end)
    ensures !Earlier(p, proof.payload.createdAt, end) ==> VerifyManifestProof(p, proof, m, key, now).Err?
    ensures !Earlier(p, a.payload.verifiedAt, end) ==> VerifyVerificationAssertion(p, a, key, now, current).Err?
    ensures !Earlier(p, g.payload.notBefore, end) ==> VerifyAuthorizationGrant(p, g, key, now).Err?
    ensures !Earlier(p, r.payload.revokedAt, end) ==> VerifyRevocation(p, r, key).Err?
  {
    hide ValidProof, ValidManifest, ValidAssertion, ValidGrant, ValidRevocation, ValidKey, Earlier;
    ProofAcceptedIff(p, proof, m, key, now);
    AssertionAcceptedIff(p, a, key, now, current);
    GrantAcceptedIff(p, g, key, now);
    RevocationAcceptedIff(p, r, key);
  }

  // ---------------------------------------------------------------- which failure is reported

  /** The reported failure of a proof is that of the first step that fails, the signature's last: a forgery outside its
      window is reported as outside its window. */
  lemma ProofFailures(p: Platform, proof: ManifestProof, m: Manifest, key: KeyDocument, now: Text)
    ensures var (x, v) := (proof.payload, VerifyManifestProof(p, proof, m, key, now));
            var valid := ValidProof(p, proof) && ValidManifest(p, m) && ValidKey(p, key);
            var bound := valid && ManifestDigest(p, m) == x.digest && m.agentId == x.agentId && m.version == x.version;
            var named := bound && key.keyId == x.keyId;
            var ranked := named && key.role == Operator;
            var controlled := ranked && key.controller == x.agentId;
            var active := controlled && InService(p, key, x.createdAt);
            && (v == Err(SchemaInvalid) <==> !valid) && (v == Err(ManifestDigestMismatch) <==> valid && !bound)
            && (v == Err(KeyIdMismatch) <==> bound && !named) && (v == Err(KeyRoleMismatch) <==> named && !ranked)
            && (v == Err(KeyControllerMismatch) <==> ranked && !controlled)
            && (v == Err(KeyNotActive) <==> controlled && !active)
            && (v == Err(NotYetValid) <==> active && Earlier(p, now, x.createdAt))
            && (v == Err(Expired) <==> active && !Earlier(p, now, x.createdAt) && Earlier(p, x.expiresAt, now))
            && (v == Err(SignatureInvalid) <==>
                  && active && InWindow(p, now, x.createdAt, x.expiresAt)
                  && !p.verify(key.publicKey, SigningInput(ProofOf(x)), proof.signature))
            && v != Err(NotApplicable)
  {
    hide ValidProof, ValidManifest, ValidKey, KeyActiveAt, InService, ManifestDigest, SigningInput;
    if ValidProof(p, proof) && ValidKey(p, key) { ProofDates(p, proof, key); }
  }

  /** The same for an assertion; its manifest is looked at after all else. */
  lemma AssertionFailures(p: Platform, a: VerificationAssertion, key: KeyDocument, now: Text, current: Option<Manifest>)
    ensures var (x, v) := (a.payload, VerifyVerificationAssertion(p, a, key, now, current));
            var valid := ValidAssertion(p, a) && ValidKey(p, key);
            var named := valid && key.keyId == x.keyId;
            var ranked := named && key.role == Authority;
            var controlled := ranked && key.controller == x.authority;
            var active := controlled && InService(p, key, x.verifiedAt);
            var inTime := active && InWindow(p, now, x.verifiedAt, x.expiresAt);
            var authentic := inTime && p.verify(key.publicKey, SigningInput(AssertionOf(x)), a.signature);
            var usable := current.Some? ==> ValidManifest(p, current.value);
            && (v == Err(SchemaInvalid) <==> !valid || (authentic && !usable))
            && (v == Err(KeyIdMismatch) <==> valid && !named) && (v == Err(KeyRoleMismatch) <==> named && !ranked)
            && (v == Err(KeyControllerMismatch) <==> ranked && !controlled)
            && (v == Err(KeyNotActive) <==> controlled && !active)
            && (v == Err(NotYetValid) <==> active && Earlier(p, now, x.verifiedAt))
            && (v == Err(Expired) <==> active && !Earlier(p, now, x.verifiedAt) && Earlier(p, x.expiresAt, now))
            && (v == Err(SignatureInvalid) <==> inTime && !authentic)
            && (v == Err(NotApplicable) <==>
                  authentic && usable && current.Some? && ManifestDigest(p, current.value) != x.digest)
            && v != Err(ManifestDigestMismatch)
  {
    hide ValidAssertion, ValidManifest, ValidKey, KeyActiveAt, InService, ManifestDigest, SigningInput;
    if ValidAssertion(p, a) && ValidKey(p, key) { AssertionDates(p, a, key); }
  }

  /** The same for a grant, where the signature comes before the window: an expired grant is known to be authentic. */
  lemma GrantFailures(p: Platform, g: AuthorizationGrant, key: KeyDocument, now: Text)
    ensures var (x, v) := (g.payload, VerifyAuthorizationGrant(p, g, key, now));
            var valid := ValidGrant(p, g) && ValidKey(p, key);
            var named := valid && key.keyId == x.keyId;
            var ranked := named && key.role == Principal;
            var controlled := ranked && key.controller == x.principal;
            var active := controlled && InService(p, key, x.notBefore);
            && (v == Err(SchemaInvalid) <==> !valid) && (v == Err(KeyIdMismatch) <==> valid && !named)
            && (v == Err(KeyRoleMismatch) <==> named && !ranked)
            && (v == Err(KeyControllerMismatch) <==> ranked && !controlled)
            && (v == Err(KeyNotActive) <==> controlled && !active)
            && (v == Err(SignatureInvalid) <==>
                  active && !p.verify(key.publicKey, SigningInput(GrantOf(x)), g.signature))
            && (v == Err(NotYetValid) <==> GrantStands(p, g, key) && Earlier(p, now, x.notBefore))
            && (v == Err(Expired) <==>
                  GrantStands(p, g, key) && !Earlier(p, now, x.notBefore) && Earlier(p, x.expiresAt, now))
            && v != Err(ManifestDigestMismatch) && v != Err(NotApplicable)
  {
    hide ValidGrant, ValidKey, KeyActiveAt, InService, SigningInput;
    if ValidGrant(p, g) && ValidKey(p, key) { GrantDates(p, g, key); }
  }

  lemma RevocationFailures(p: Platform, r: Revocation, key: KeyDocument)
    ensures var (x, v) := (r.payload, VerifyRevocation(p, r, key));
            var valid := ValidRevocation(p, r) && ValidKey(p, key);
            var named := valid && key.keyId == x.keyId;
            var ranked := named && MayRevoke(key.role, x.revokesType);
            var active := ranked && InService(p, key, x.revokedAt);
            && (v == Err(SchemaInvalid) <==> !valid) && (v == Err(KeyIdMismatch) <==> valid && !named)
            && (v == Err(KeyRoleMismatch) <==> named && !ranked) && (v == Err(KeyNotActive) <==> ranked && !active)
            && (v == Err(SignatureInvalid) <==>
                  active && !p.verify(key.publicKey, SigningInput(RevocationOf(x)), r.signature))
            && (v.Err? ==> v.error in {SchemaInvalid, KeyIdMismatch, KeyRoleMismatch, KeyNotActive, SignatureInvalid})
  {
    hide ValidRevocation, ValidKey, KeyActiveAt, InService, SigningInput;
    if ValidRevocation(p, r) && ValidKey(p, key) { RevocationDates(p, r, key); }
  }

  // ---------------------------------------------------------------- what acceptance says of the object

  /** A manifest with an accepted proof names an agent, at least one channel and texts within their lengths, and the key
      document is one an operator of that agent can hold. */
  lemma AcceptedProof(p: Platform, proof: ManifestProof, m: Manifest, key: KeyDocument, now: Text)
    requires VerifyManifestProof(p, proof, m, key, now).Ok?
    ensures IsAgentId(m.agentId) && m.version == T("1.0") && m.channels != []
    ensures p.freeText(m.name, 200) && p.freeText(m.operator, 300) && p.freeText(m.summary, 500)
    ensures (m.description.Some? ==> p.freeText(m.description.value, 1000)) && p.isHostname(m.operatorDomain)
    ensures m.contact.Some? ==> p.isEmail(m.contact.value)
    ensures Earlier(p, proof.payload.createdAt, proof.payload.expiresAt)
    ensures key.controller == m.agentId && IsKeyId(key.keyId) && |key.publicKey| == 43 && AllBase64Url(key.publicKey)
    ensures |proof.signature| == 86 && AllBase64Url(proof.signature)
  {
    hide KeyActiveAt, ManifestDigest, SigningInput, IsAgentId, IsKeyId, AllBase64Url, IsSha256Hex;
  }

  /** The claim an assertion makes is the one its level stands for, and only a deployment is claimed to be
      conformant. */
  lemma AcceptedAssertion(p: Platform, a: VerificationAssertion, key: KeyDocument, now: Text, current: Option<Manifest>)
    requires VerifyVerificationAssertion(p, a, key, now, current).Ok?
    ensures var x := a.payload;
            && Earlier(p, x.verifiedAt, x.expiresAt)
            && (x.level.L1? <==> x.claim.Registration?) && (x.level.L2? <==> x.claim.DomainControl?)
            && (x.level.L3? <==> x.claim.OrganizationIdentity?) && (x.level.L4? <==> x.claim.DeploymentConformance?)
            && (x.level.L4? <==> x.subjectType.DeploymentSubject?)
            && (if x.level.L4? then IsDeploymentId(x.subject) else IsAgentId(x.subject))
            && IsAssertionId(x.assertionId) && IsAuthorityId(key.controller) && IsSha256Hex(x.digest)
            && 1 <= |x.evidenceReference| <= 512 && 1 <= |x.scope| <= 128
            && (x.claim.DomainControl? ==> p.isHostname(x.claim.domain))
            && (x.claim.OrganizationIdentity? ==> p.freeText(x.claim.legalName, 300))
            && (x.claim.OrganizationIdentity? && x.claim.jurisdiction.Some? ==> 2 <= |x.claim.jurisdiction.value| <= 64)
            && (x.claim.DeploymentConformance? ==> IsDeploymentId(x.claim.deploymentId))
  {
    hide KeyActiveAt, ManifestDigest, SigningInput, IsAgentId, IsDeploymentId, IsAuthorityId, IsAssertionId, IsKeyId;
    hide IsPublicKey, IsSha256Hex, IsSignature, Earlier;
    AcceptedAssertionDates(p, a);
  }

  lemma AcceptedAssertionDates(p: Platform, a: VerificationAssertion)
    requires ValidAssertion(p, a)
    ensures Earlier(p, a.payload.verifiedAt, a.payload.expiresAt)
  {}

  /** At least one counterparty and none nameless, a three-letter currency with an amount, or a count, in digits. */
  predicate SoundConstraint(c: Constraint) {
    match c
    case CounterpartyDomain(domains) => 1 <= |domains| <= 32 && [] !in domains
    case MaxValue(currency, amount) =>
      |currency| == 3 && (forall u :: u in currency ==> 'A' as int <= u <= 'Z' as int) && InDigits(amount, 18)
    case MaxUses(count) => InDigits(count, 9)
    case RequiresHumanConfirmation => true
  }

  predicate InDigits(t: Text, most: nat) {
    1 <= |t| <= most && forall u :: u in t ==> '0' as int <= u <= '9' as int
  }

  /** A grant names at least one scope, none twice, each a resource and an action apart, to an agent from a principal
      that controls the key. */
  lemma AcceptedGrant(p: Platform, g: AuthorizationGrant, key: KeyDocument, now: Text)
    requires VerifyAuthorizationGrant(p, g, key, now).Ok?
    ensures var x := g.payload;
            && Earlier(p, x.notBefore, x.expiresAt) && IsPrincipalId(key.controller) && IsAgentId(x.subject)
            && 1 <= |x.scopes| <= 64 && (forall i, j :: 0 <= i < j < |x.scopes| ==> x.scopes[i] != x.scopes[j])
            && (forall s :: s in x.scopes ==>
                  exists resource: Text, action: Text ::
                    s == resource + [':' as int] + action && IsScopePart(resource) && IsScopePart(action))
            && (x.constraints.Some? ==>
                  |x.constraints.value| <= 16 && forall c :: c in x.constraints.value ==> SoundConstraint(c))
  {
    hide KeyActiveAt, SigningInput, IsScopePart, IsKeyId, IsPublicKey, IsGrantId, IsAgentId, IsPrincipalId;
    hide SoundConstraint, ValidConstraint;
    forall c | ValidConstraint(c) ensures SoundConstraint(c) { ValidIsSound(c); }
    forall s | s in g.payload.scopes
      ensures exists resource: Text, action: Text ::
                s == resource + [':' as int] + action && IsScopePart(resource) && IsScopePart(action)
    {
      assert IsScope(s);
      var i := Uri.IndexOf(s, ':' as int).value;
      assert s == s[..i] + [':' as int] + s[i + 1..];
    }
  }

  lemma ValidIsSound(c: Constraint)
    requires ValidConstraint(c)
    ensures SoundConstraint(c)
  {}

  /** Who may revoke what. */
  predicate MayRevoke(role: KeyRole, kind: RevokesType) {
    match role
    case Principal => kind.RevokesGrant?
    case Operator => kind.RevokesAgent? || kind.RevokesKey?
    case Authority => kind.RevokesAssertion?
  }

  /** A revocation names a target of the kind it says, by a key of the role that may revoke that kind. */
  lemma AcceptedRevocation(p: Platform, r: Revocation, key: KeyDocument)
    requires VerifyRevocation(p, r, key).Ok?
    ensures var x := r.payload;
            && MayRevoke(key.role, x.revokesType)
            && InNamespace(match x.revokesType
                           case RevokesAgent => Agents
                           case RevokesGrant => Grants
                           case RevokesKey => Keys
                           case RevokesAssertion => Assertions, x.revokes)
  {
    hide ValidKey, KeyActiveAt, SigningInput, IsRevocationId, IsAgentId, IsGrantId, IsKeyId, IsAssertionId;
  }

  // ---------------------------------------------------------------- when signing succeeds

  /** A key signs exactly what its holder may say, if that is well-formed: an operator for the agent it controls, an
      authority and a principal in their own name, a revoker what its role revokes. A key of another role, or of another
      party, is refused as such. */
  lemma SigningOutcomes(p: Platform, k: SigningKey, m: Manifest, from: Text, to: Text, a: AssertionPayload,
                        g: GrantPayload, r: RevocationPayload)
    requires forall message :: IsSignature(p.sign(k.seed, message))
    ensures var (d, s) := (k.document, SignManifestProof(p, m, k, from, to));
            var may := d.role == Operator && d.controller == m.agentId;
            var payload := ProofPayload(m.agentId, m.version, ManifestDigest(p, m), d.keyId, from, to);
            && (s.Ok? <==> ValidManifest(p, m) && ValidKey(p, d) && may && ValidProofPayload(p, payload))
            && (s == Err(KeyRoleError) <==> ValidManifest(p, m) && ValidKey(p, d) && !may)
            && (s.Ok? ==> s.value.payload == payload)
    ensures var (d, s) := (k.document, SignVerificationAssertion(p, a, k));
            var may := d.role == Authority && d.controller == a.authority && d.keyId == a.keyId;
            && (s.Ok? <==> ValidAssertionPayload(p, a) && ValidKey(p, d) && may) && (s.Ok? ==> s.value.payload == a)
            && (s == Err(KeyRoleError) <==> ValidAssertionPayload(p, a) && ValidKey(p, d) && !may)
    ensures var (d, s) := (k.document, SignAuthorizationGrant(p, g, k));
            var may := d.role == Principal && d.controller == g.principal && d.keyId == g.keyId;
            && (s.Ok? <==> ValidGrantPayload(p, g) && ValidKey(p, d) && may) && (s.Ok? ==> s.value.payload == g)
            && (s == Err(KeyRoleError) <==> ValidGrantPayload(p, g) && ValidKey(p, d) && !may)
    ensures var (d, s) := (k.document, SignRevocation(p, r, k));
            var may := MayRevoke(d.role, r.revokesType) && d.keyId == r.keyId;
            && (s.Ok? <==> ValidRevocationPayload(p, r) && ValidKey(p, d) && may) && (s.Ok? ==> s.value.payload == r)
            && (s == Err(KeyRoleError) <==> ValidRevocationPayload(p, r) && ValidKey(p, d) && !may)
  {
    hide ValidManifest, ValidKey, ValidProofPayload, ValidAssertionPayload, ValidGrantPayload, ValidRevocationPayload;
    hide IsSignature, ManifestDigest, SigningInput;
  }

  // ---------------------------------------------------------------- round trips

  /** A signed proof verifies exactly when it was created before any revocation or retirement of the key and now lies
      in the window. */
  lemma ProofRoundTrip(p: Platform, m: Manifest, k: SigningKey, createdAt: Text, expiresAt: Text, now: Text)
    requires SignaturesVerify(p) && Matches(p, k) && SignManifestProof(p, m, k, createdAt, expiresAt).Ok?
    ensures var proof := SignManifestProof(p, m, k, createdAt, expiresAt).value;
            VerifyManifestProof(p, proof, m, k.document, now).Ok?
            <==> InService(p, k.document, createdAt) && InWindow(p, now, createdAt, expiresAt)
  {
    var proof := SignManifestProof(p, m, k, createdAt, expiresAt).value;
    var input := SigningInput(ProofOf(proof.payload));
    assert p.verify(p.publicKey(k.seed), input, p.sign(k.seed, input));
    ProofAcceptedIff(p, proof, m, k.document, now);
  }

  lemma AssertionRoundTrip(p: Platform, a: AssertionPayload, k: SigningKey, now: Text)
    requires SignaturesVerify(p) && Matches(p, k) && SignVerificationAssertion(p, a, k).Ok?
    ensures VerifyVerificationAssertion(p, SignVerificationAssertion(p, a, k).value, k.document, now, None).Ok?
       <==> InService(p, k.document, a.verifiedAt) && InWindow(p, now, a.verifiedAt, a.expiresAt)
  {
    var input := SigningInput(AssertionOf(a));
    assert p.verify(p.publicKey(k.seed), input, p.sign(k.seed, input));
    AssertionAcceptedIff(p, Signed(a, p.sign(k.seed, input)), k.document, now, None);
  }

  lemma GrantRoundTrip(p: Platform, g: GrantPayload, k: SigningKey, now: Text)
    requires SignaturesVerify(p) && Matches(p, k) && SignAuthorizationGrant(p, g, k).Ok?
    ensures VerifyAuthorizationGrant(p, SignAuthorizationGrant(p, g, k).value, k.document, now).Ok?
       <==> InService(p, k.document, g.notBefore) && InWindow(p, now, g.notBefore, g.expiresAt)
  {
    assert p.verify(p.publicKey(k.seed), SigningInput(GrantOf(g)), p.sign(k.seed, SigningInput(GrantOf(g))));
    GrantAcceptedIff(p, SignAuthorizationGrant(p, g, k).value, k.document, now);
  }

  lemma RevocationRoundTrip(p: Platform, r: RevocationPayload, k: SigningKey)
    requires SignaturesVerify(p) && Matches(p, k) && SignRevocation(p, r, k).Ok?
    ensures VerifyRevocation(p, SignRevocation(p, r, k).value, k.document).Ok? <==>
              InService(p, k.document, r.revokedAt)
  {
    assert p.verify(p.publicKey(k.seed), SigningInput(RevocationOf(r)), p.sign(k.seed, SigningInput(RevocationOf(r))));
    RevocationAcceptedIff(p, SignRevocation(p, r, k).value, k.document);
  }
}
