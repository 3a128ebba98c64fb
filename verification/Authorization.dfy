// The decision a relying party makes: `evaluateAuthorization` of packages/core/src/authorization-verify.ts.
module Authorization {
  import opened Prelude
  import opened Text
  import opened Objects
  import opened Crypto

  datatype Decision = Permitted | NotPermitted | Unknown

  datatype Cause =
    | GrantFailed(code: Code) | BindingInvalid | SubjectMismatch | AgentNotBound
    | GrantRevoked | AgentRevoked | RegistryUnavailable | ConstraintNotUnderstood | ScopeNotGranted

  datatype Granted = Granted(principal: Text, subject: Text, scopes: seq<Text>, constraints: seq<Constraint>)

  datatype Evaluation = Evaluation(
    decision: Decision,
    cause: Option<Cause>,
    revocationsChecked: bool,
    granted: Option<Granted>,
    obligations: seq<Constraint>)

  /** What the relying party supplies besides the clock; `revocations` is None when it checked none. */
  datatype Query = Query(
    grant: AuthorizationGrant,
    principalKey: KeyDocument,
    scope: Text,
    manifest: Option<Manifest>,
    operatorKey: Option<KeyDocument>,
    revocations: Option<seq<Revocation>>,
    revocationKeys: map<Text, KeyDocument>)

  function GrantedBy(g: GrantPayload): Granted {
    Granted(g.principal, g.subject, g.scopes, match g.constraints case Some(cs) => cs case None => [])
  }

  /** The actor presented with the grant, if one was presented, is the grant's subject. */
  function BindingFailure(p: Platform, q: Query): Option<(Decision, Cause)> {
    if q.manifest.None? && q.operatorKey.None? then None
    else if q.manifest.None? || q.operatorKey.None?
         || !ValidManifest(p, q.manifest.value) || !ValidKey(p, q.operatorKey.value) then
      Some((Unknown, BindingInvalid))
    else if q.manifest.value.agentId != q.grant.payload.subject then Some((NotPermitted, SubjectMismatch))
    else if q.operatorKey.value.role != Operator || q.operatorKey.value.controller != q.manifest.value.agentId then
      Some((NotPermitted, AgentNotBound))
    else None
  }

  /** What one revocation of the list does: stop the evaluation, or let the loop go on. */
  function Stops(p: Platform, q: Query, r: Revocation, now: Text): Option<(Decision, Cause)> {
    if !ValidRevocation(p, r) then None
    else if r.payload.keyId !in q.revocationKeys then Some((Unknown, RegistryUnavailable))
    else
      var key, g := q.revocationKeys[r.payload.keyId], q.grant.payload;
      if VerifyRevocation(p, r, key).Err? then None
      else if r.payload.revokesType.RevokesGrant? && r.payload.revokes == g.grantId then
        if key.controller != g.principal then None
        else if AtOrAfter(p.dateParse(now), p.dateParse(r.payload.revokedAt)) then Some((NotPermitted, GrantRevoked))
        else None
      else if r.payload.revokesType.RevokesAgent? && r.payload.revokes == g.subject then
        if key.controller != g.subject then None
        else if AtOrAfter(p.dateParse(now), p.dateParse(r.payload.revokedAt)) then Some((NotPermitted, AgentRevoked))
        else None
      else None
  }

  /** The loop over the revocations, with its early returns. */
  function Scan(p: Platform, q: Query, rs: seq<Revocation>, now: Text): Option<(Decision, Cause)> {
    if rs == [] then None
    else
      match Stops(p, q, rs[0], now)
      case Some(outcome) => Some(outcome)
      case None => Scan(p, q, rs[1..], now)
  }

  /** `UNDERSTOOD_CONSTRAINTS` */
  predicate Understood(c: Constraint) {
    c.CounterpartyDomain? || c.MaxValue? || c.MaxUses? || c.RequiresHumanConfirmation?
  }

  function Revocations(q: Query): seq<Revocation> {
    match q.revocations case Some(rs) => rs case None => []
  }

  function Evaluate(p: Platform, q: Query, now: Text): Evaluation {
    var checked := q.revocations.Some?;
    var granted := GrantedBy(q.grant.payload);
    match VerifyAuthorizationGrant(p, q.grant, q.principalKey, now)
    case Err(code) => Evaluation(NotPermitted, Some(GrantFailed(code)), checked, None, [])
    case Ok(_) =>
      match BindingFailure(p, q)
      case Some((decision, cause)) => Evaluation(decision, Some(cause), checked, None, [])
      case None =>
        match Scan(p, q, Revocations(q), now)
        case Some((decision, cause)) => Evaluation(decision, Some(cause), checked, None, [])
        case None =>
          if exists c :: c in granted.constraints && !Understood(c) then
            Evaluation(NotPermitted, Some(ConstraintNotUnderstood), checked, None, [])
          else if q.scope !in granted.scopes then
            Evaluation(NotPermitted, Some(ScopeNotGranted), checked, Some(granted), [])
          else
            Evaluation(Permitted, None, checked, Some(granted), granted.constraints)
  }

  // ---------------------------------------------------------------- when the answer is PERMITTED

  /** The revocation verifies and its key is controlled by whoever may withdraw this grant or agent. */
  predicate Authoritative(p: Platform, q: Query, r: Revocation) {
    var g := q.grant.payload;
    && ValidRevocation(p, r)
    && r.payload.keyId in q.revocationKeys
    && var key := q.revocationKeys[r.payload.keyId];
       && VerifyRevocation(p, r, key).Ok?
       && (|| (r.payload.revokesType.RevokesGrant? && r.payload.revokes == g.grantId && key.controller == g.principal)
           || (r.payload.revokesType.RevokesAgent? && r.payload.revokes == g.subject && key.controller == g.subject))
  }

  /** The revocation has taken effect. */
  predicate InEffect(p: Platform, r: Revocation, now: Text) {
    AtOrAfter(p.dateParse(now), p.dateParse(r.payload.revokedAt))
  }

  /** A well-formed revocation whose key document was not supplied. */
  predicate Unverifiable(p: Platform, q: Query, r: Revocation) {
    ValidRevocation(p, r) && r.payload.keyId !in q.revocationKeys
  }

  /** No actor is presented, or the one presented is the very agent the grant names, with an operator key it
      controls. */
  predicate ActorBound(p: Platform, q: Query) {
    || (q.manifest.None? && q.operatorKey.None?)
    || (&& ActorShown(p, q)
        && q.manifest.value.agentId == q.grant.payload.subject
        && q.operatorKey.value.role == Operator
        && q.operatorKey.value.controller == q.grant.payload.subject)
  }

  /** A well-formed manifest and a well-formed operator key are both presented. */
  predicate ActorShown(p: Platform, q: Query) {
    && q.manifest.Some? && q.operatorKey.Some?
    && ValidManifest(p, q.manifest.value) && ValidKey(p, q.operatorKey.value)
  }

  /** Everything about a request that does not depend on the clock. */
  ghost predicate Entitled(p: Platform, q: Query) {
    && GrantStands(p, q.grant, q.principalKey)
    && ActorBound(p, q)
    && q.scope in q.grant.payload.scopes
    && forall r :: r in Revocations(q) ==> !Unverifiable(p, q, r)
  }

  lemma StopsWhen(p: Platform, q: Query, r: Revocation, now: Text)
    ensures Stops(p, q, r, now).Some? <==>
              Unverifiable(p, q, r) || (Authoritative(p, q, r) && InEffect(p, r, now))
    ensures Stops(p, q, r, now).Some? ==> Stops(p, q, r, now).value.0 != Permitted
  {}

  lemma {:induction false} ScanStopsWhen(p: Platform, q: Query, rs: seq<Revocation>, now: Text)
    ensures Scan(p, q, rs, now).Some? <==> exists r :: r in rs && Stops(p, q, r, now).Some?
    ensures Scan(p, q, rs, now).Some? ==> Scan(p, q, rs, now).value.0 != Permitted
  {
    if rs != [] {
      StopsWhen(p, q, rs[0], now);
      ScanStopsWhen(p, q, rs[1..], now);
      assert forall r :: r in rs <==> r == rs[0] || r in rs[1..];
    }
  }

  /** The loop answers for the first revocation that stops it. */
  lemma {:induction false} ScanIsFirst(p: Platform, q: Query, rs: seq<Revocation>, now: Text) returns (i: nat)
    ensures i <= |rs| && forall j :: 0 <= j < i ==> Stops(p, q, rs[j], now).None?
    ensures i == |rs| ==> Scan(p, q, rs, now).None?
    ensures i < |rs| ==> Scan(p, q, rs, now) == Stops(p, q, rs[i], now) && Stops(p, q, rs[i], now).Some?
  {
    if rs == [] || Stops(p, q, rs[0], now).Some? {
      i := 0;
    } else {
      var k := ScanIsFirst(p, q, rs[1..], now);
      i := k + 1;
      forall j | 0 <= j < i ensures Stops(p, q, rs[j], now).None? {
        if j > 0 { assert rs[j] == rs[1..][j - 1]; }
      }
    }
  }

  /** Something was presented to bind the actor, but not a well-formed manifest and key. */
  predicate BindingUnusable(p: Platform, q: Query) {
    (q.manifest.Some? || q.operatorKey.Some?) && !ActorShown(p, q)
  }

  /** What the binding of the actor comes to, case by case. */
  lemma BindingCases(p: Platform, q: Query)
    ensures BindingFailure(p, q).None? <==> ActorBound(p, q)
    ensures BindingFailure(p, q).Some? ==> BindingFailure(p, q).value.0 != Permitted
    ensures BindingUnusable(p, q) ==> BindingFailure(p, q) == Some((Unknown, BindingInvalid))
    ensures ActorShown(p, q) && q.manifest.value.agentId != q.grant.payload.subject ==>
              BindingFailure(p, q) == Some((NotPermitted, SubjectMismatch))
    ensures ActorShown(p, q) && q.manifest.value.agentId == q.grant.payload.subject && !ActorBound(p, q) ==>
              BindingFailure(p, q) == Some((NotPermitted, AgentNotBound))
  {
    hide ValidManifest, ValidKey;
  }

  /** A revocation that cannot be checked is reached before any that takes effect. */
  ghost predicate UnverifiableFirst(p: Platform, q: Query, now: Text) {
    exists i :: 0 <= i < |Revocations(q)| && Unverifiable(p, q, Revocations(q)[i])
             && forall j :: 0 <= j < i ==> Stops(p, q, Revocations(q)[j], now).None?
  }

  /** UNKNOWN, characterised: an authentic grant in force, and an actor or a revocation that cannot be determined. */
  lemma UnknownIff(p: Platform, q: Query, now: Text)
    ensures Evaluate(p, q, now).decision == Unknown <==>
              && GrantStands(p, q.grant, q.principalKey)
              && InWindow(p, now, q.grant.payload.notBefore, q.grant.payload.expiresAt)
              && (BindingUnusable(p, q) || (ActorBound(p, q) && UnverifiableFirst(p, q, now)))
  {
    hide VerifyAuthorizationGrant, GrantStands, InWindow, Scan, Stops, Unverifiable, ValidManifest, ValidKey;
    hide BindingFailure;
    GrantAcceptedIff(p, q.grant, q.principalKey, now);
    UnknownScan(p, q, now);
    BindingCases(p, q);
  }

  lemma UnknownScan(p: Platform, q: Query, now: Text)
    ensures Scan(p, q, Revocations(q), now).Some? && Scan(p, q, Revocations(q), now).value.0 == Unknown <==>
              UnverifiableFirst(p, q, now)
  {
    hide Scan, Stops, Unverifiable;
    var rs := Revocations(q);
    var i := ScanIsFirst(p, q, rs, now);
    if i < |rs| { UnknownStop(p, q, rs[i], now); }
    forall k | 0 <= k < |rs| && Unverifiable(p, q, rs[k]) ensures i <= k { UnknownStop(p, q, rs[k], now); }
  }

  lemma UnknownStop(p: Platform, q: Query, r: Revocation, now: Text)
    ensures Stops(p, q, r, now).Some? && Stops(p, q, r, now).value.0 == Unknown <==> Unverifiable(p, q, r)
  {}

  /** PERMITTED, characterised without the loop: entitlement, the window, and no authoritative revocation in effect. */
  lemma PermittedIff(p: Platform, q: Query, now: Text)
    ensures Evaluate(p, q, now).decision == Permitted <==>
              && Entitled(p, q)
              && InWindow(p, now, q.grant.payload.notBefore, q.grant.payload.expiresAt)
              && forall r :: r in Revocations(q) && Authoritative(p, q, r) ==> !InEffect(p, r, now)
  {
    hide VerifyAuthorizationGrant, GrantStands, Scan, Stops, Authoritative, Unverifiable, InWindow;
    hide BindingFailure, ActorBound;
    GrantAcceptedIff(p, q.grant, q.principalKey, now);
    BindingCases(p, q);
    ScanStopsWhen(p, q, Revocations(q), now);
    forall r | r in Revocations(q)
      ensures Stops(p, q, r, now).Some? <==>
                Unverifiable(p, q, r) || (Authoritative(p, q, r) && InEffect(p, r, now))
    { StopsWhen(p, q, r, now); }
    assert forall c: Constraint :: Understood(c);
  }

  /** What a permitted request is told is the grant's own: its parties, scopes and constraints, the latter as
      obligations. */
  lemma PermittedRepeatsTheGrant(p: Platform, q: Query, now: Text)
    requires Evaluate(p, q, now).decision == Permitted
    ensures var (e, g) := (Evaluate(p, q, now), q.grant.payload);
            && e.cause.None? && e.granted.Some? && e.obligations == e.granted.value.constraints
            && e.granted.value.principal == g.principal && e.granted.value.subject == g.subject
            && e.granted.value.scopes == g.scopes
            && (if g.constraints.Some? then e.obligations == g.constraints.value else e.obligations == [])
            && q.scope in g.scopes
  {
    hide VerifyAuthorizationGrant, Scan, Stops, GrantStands, InWindow;
    PermittedIff(p, q, now);
    ScanStopsWhen(p, q, Revocations(q), now);
  }

  // ---------------------------------------------------------------- one interval of time

  /** The last instant before the grant expires or an authoritative revocation among `rs` takes effect. */
  ghost function LastInstant(p: Platform, q: Query, rs: seq<Revocation>): int
    requires ValidGrant(p, q.grant)
  {
    if rs == [] then p.dateParse(q.grant.payload.expiresAt).value
    else
      var rest := LastInstant(p, q, rs[1..]);
      if Authoritative(p, q, rs[0]) && p.dateParse(rs[0].payload.revokedAt).value - 1 < rest
      then p.dateParse(rs[0].payload.revokedAt).value - 1 else rest
  }

  lemma {:induction false} LastInstantIs(p: Platform, q: Query, rs: seq<Revocation>, t: int)
    requires ValidGrant(p, q.grant)
    ensures t <= LastInstant(p, q, rs) <==>
              && t <= p.dateParse(q.grant.payload.expiresAt).value
              && forall r :: r in rs && Authoritative(p, q, r) ==> t < p.dateParse(r.payload.revokedAt).value
  {
    if rs != [] {
      LastInstantIs(p, q, rs[1..], t);
      assert forall r :: r in rs <==> r == rs[0] || r in rs[1..];
    }
  }

  lemma RevocationParses(p: Platform, q: Query, r: Revocation)
    requires Authoritative(p, q, r)
    ensures p.dateParse(r.payload.revokedAt).Some?
  {}

  /** All else fixed, the instants at which the answer is PERMITTED are exactly one interval:
      from `not_before` to the earlier of `expires_at` and just before the first authoritative revocation. */
  lemma PermittedInstants(p: Platform, q: Query, now: Text)
    requires p.dateParse(now).Some?
    ensures Evaluate(p, q, now).decision == Permitted <==>
              && Entitled(p, q)
              && p.dateParse(q.grant.payload.notBefore).value <= p.dateParse(now).value
              && p.dateParse(now).value <= LastInstant(p, q, Revocations(q))
  {
    hide Evaluate, ActorBound, Authoritative;
    PermittedIff(p, q, now);
    if ValidGrant(p, q.grant) {
      LastInstantIs(p, q, Revocations(q), p.dateParse(now).value);
      forall r | Authoritative(p, q, r) ensures p.dateParse(r.payload.revokedAt).Some? { RevocationParses(p, q, r); }
    }
  }

  /** After an authoritative revocation takes effect, no instant is PERMITTED again. */
  lemma RevocationIsFinal(p: Platform, q: Query, r: Revocation, now: Text, later: Text)
    requires r in Revocations(q) && Authoritative(p, q, r)
    requires AtOrAfter(p.dateParse(now), p.dateParse(r.payload.revokedAt))
    requires AtOrAfter(p.dateParse(later), p.dateParse(now))
    ensures Evaluate(p, q, later).decision != Permitted
  {
    PermittedIff(p, q, later);
  }

  /** A clock text that is no instant (Date.parse gives NaN) switches off the window and every revocation:
      the answer is then PERMITTED for every entitled request. */
  lemma UnparsableClock(p: Platform, q: Query, now: Text)
    requires p.dateParse(now).None?
    ensures Evaluate(p, q, now).decision == Permitted <==> Entitled(p, q)
  {
    PermittedIff(p, q, now);
  }

  // ---------------------------------------------------------------- the order and extent of the list

  /** The list of revocations does not bear on what any one revocation is. */
  lemma OnlyTheListDiffers(p: Platform, q: Query, q2: Query, r: Revocation)
    requires q2 == q.(revocations := q2.revocations)
    ensures Unverifiable(p, q2, r) == Unverifiable(p, q, r)
    ensures Authoritative(p, q2, r) == Authoritative(p, q, r)
  {}

  /** Whether the answer is PERMITTED depends on the revocations as a set only: not on order, repetition, or the
      early exits. */
  lemma OrderIrrelevant(p: Platform, q: Query, rs: seq<Revocation>, now: Text)
    requires forall r :: r in rs <==> r in Revocations(q)
    ensures Evaluate(p, q.(revocations := Some(rs)), now).decision == Permitted <==>
              Evaluate(p, q, now).decision == Permitted
  {
    hide Evaluate, GrantStands, InWindow, Authoritative, Unverifiable;
    var q2 := q.(revocations := Some(rs));
    PermittedIff(p, q, now);
    PermittedIff(p, q2, now);
    forall r
      ensures Unverifiable(p, q2, r) == Unverifiable(p, q, r) && Authoritative(p, q2, r) == Authoritative(p, q, r)
    {
      OnlyTheListDiffers(p, q, q2, r);
    }
  }

  /** Knowing more revocations never turns another answer into PERMITTED. */
  lemma MoreRevocationsNeverPermit(p: Platform, q: Query, rs: seq<Revocation>, now: Text)
    requires forall r :: r in Revocations(q) ==> r in rs
    requires Evaluate(p, q.(revocations := Some(rs)), now).decision == Permitted
    ensures Evaluate(p, q, now).decision == Permitted
  {
    hide Evaluate, GrantStands, InWindow, Authoritative, Unverifiable;
    var q2 := q.(revocations := Some(rs));
    PermittedIff(p, q, now);
    PermittedIff(p, q2, now);
    forall r
      ensures Unverifiable(p, q2, r) == Unverifiable(p, q, r) && Authoritative(p, q2, r) == Authoritative(p, q, r)
    {
      OnlyTheListDiffers(p, q, q2, r);
    }
  }

  lemma {:induction false} ScanSkips(p: Platform, q: Query, front: seq<Revocation>, r: Revocation,
                                     back: seq<Revocation>, now: Text)
    requires Stops(p, q, r, now).None?
    ensures Scan(p, q, front + [r] + back, now) == Scan(p, q, front + back, now)
  {
    if front == [] {
      assert [] + [r] + back == [r] + back && ([r] + back)[1..] == back && [] + back == back;
    } else {
      assert (front + [r] + back)[1..] == front[1..] + [r] + back && (front + back)[1..] == front[1..] + back;
      ScanSkips(p, q, front[1..], r, back, now);
    }
  }

  lemma {:induction false} ScanIgnoresList(p: Platform, q: Query, q2: Query, rs: seq<Revocation>, now: Text)
    requires q2 == q.(revocations := q2.revocations)
    ensures Scan(p, q2, rs, now) == Scan(p, q, rs, now)
  {
    if rs != [] {
      assert Stops(p, q2, rs[0], now) == Stops(p, q, rs[0], now);
      ScanIgnoresList(p, q, q2, rs[1..], now);
    }
  }

  /** A revocation signed under a key that neither the grant's principal nor its subject controls changes nothing,
      wherever it stands in the list: decision, reason and obligations stay as they were. */
  lemma ForeignRevocationIgnored(p: Platform, q: Query, front: seq<Revocation>, r: Revocation, back: seq<Revocation>,
                                 now: Text)
    requires q.revocations == Some(front + back)
    requires r.payload.keyId in q.revocationKeys
    requires r.payload.revokesType.RevokesGrant? ==>
              q.revocationKeys[r.payload.keyId].controller != q.grant.payload.principal
    requires r.payload.revokesType.RevokesAgent? ==>
              q.revocationKeys[r.payload.keyId].controller != q.grant.payload.subject
    ensures Evaluate(p, q.(revocations := Some(front + [r] + back)), now) == Evaluate(p, q, now)
  {
    var q2 := q.(revocations := Some(front + [r] + back));
    ForeignNeverStops(p, q, r, now);
    ScanSkips(p, q, front, r, back, now);
    ScanIgnoresList(p, q, q2, front + [r] + back, now);
    SameButForTheList(p, q, q2, now);
  }

  lemma ForeignNeverStops(p: Platform, q: Query, r: Revocation, now: Text)
    requires r.payload.keyId in q.revocationKeys
    requires r.payload.revokesType.RevokesGrant? ==>
              q.revocationKeys[r.payload.keyId].controller != q.grant.payload.principal
    requires r.payload.revokesType.RevokesAgent? ==>
              q.revocationKeys[r.payload.keyId].controller != q.grant.payload.subject
    ensures Stops(p, q, r, now).None?
  {}

  lemma SameButForTheList(p: Platform, q: Query, q2: Query, now: Text)
    requires q2 == q.(revocations := q2.revocations) && q2.revocations.Some? && q.revocations.Some?
    requires Scan(p, q2, Revocations(q2), now) == Scan(p, q, Revocations(q), now)
    ensures Evaluate(p, q2, now) == Evaluate(p, q, now)
  {
    hide VerifyAuthorizationGrant, Scan;
    assert BindingFailure(p, q2) == BindingFailure(p, q);
  }

  /** The grant is authentic and in force, and the presented actor, if any, is its subject. */
  ghost predicate Considered(p: Platform, q: Query, now: Text) {
    InForce(p, q, now) && ActorBound(p, q)
  }

  ghost predicate InForce(p: Platform, q: Query, now: Text) {
    && GrantStands(p, q.grant, q.principalKey)
    && InWindow(p, now, q.grant.payload.notBefore, q.grant.payload.expiresAt)
  }

  lemma ConsideredIff(p: Platform, q: Query, now: Text)
    ensures InForce(p, q, now) <==> VerifyAuthorizationGrant(p, q.grant, q.principalKey, now).Ok?
    ensures Considered(p, q, now) <==>
              VerifyAuthorizationGrant(p, q.grant, q.principalKey, now).Ok? && BindingFailure(p, q).None?
  {
    hide BindingFailure, ActorBound, GrantStands, InWindow, VerifyAuthorizationGrant;
    GrantAcceptedIff(p, q.grant, q.principalKey, now);
    BindingCases(p, q);
  }

  /** Before any revocation is looked at: a grant that is not in force is refused for its own reason, an actor that is
      not the grant's subject for that. */
  lemma EarlyRefusals(p: Platform, q: Query, now: Text)
    ensures var e := Evaluate(p, q, now);
            && (!InForce(p, q, now) ==>
                  && VerifyAuthorizationGrant(p, q.grant, q.principalKey, now).Err?
                  && e.decision == NotPermitted
                  && e.cause == Some(GrantFailed(VerifyAuthorizationGrant(p, q.grant, q.principalKey, now).error)))
            && (InForce(p, q, now) && BindingUnusable(p, q) ==>
                  e.decision == Unknown && e.cause == Some(BindingInvalid))
            && (InForce(p, q, now) && ActorShown(p, q) && q.manifest.value.agentId != q.grant.payload.subject ==>
                  e.decision == NotPermitted && e.cause == Some(SubjectMismatch))
            && (InForce(p, q, now) && ActorShown(p, q) && q.manifest.value.agentId == q.grant.payload.subject
                && !ActorBound(p, q) ==>
                  e.decision == NotPermitted && e.cause == Some(AgentNotBound))
  {
    hide BindingFailure, ActorBound, ActorShown, InForce, VerifyAuthorizationGrant, Scan;
    ConsideredIff(p, q, now);
    BindingCases(p, q);
  }

  /** After the revocations only the scope is left to refuse for, since every constraint of a well-formed grant is
      understood; and that refusal still repeats the grant. */
  lemma ScopeRefusal(p: Platform, q: Query, now: Text)
    requires Considered(p, q, now) && forall r :: r in Revocations(q) ==> Stops(p, q, r, now).None?
    ensures var (e, g) := (Evaluate(p, q, now), q.grant.payload);
            && (q.scope in g.scopes <==> e.decision == Permitted)
            && (q.scope !in g.scopes ==>
                  e.decision == NotPermitted && e.cause == Some(ScopeNotGranted) && e.obligations == [])
            && e.granted.Some? && e.granted.value.principal == g.principal && e.granted.value.subject == g.subject
            && e.granted.value.scopes == g.scopes
  {
    hide BindingFailure, Considered, VerifyAuthorizationGrant, Scan, Stops;
    ConsideredIff(p, q, now);
    ScanStopsWhen(p, q, Revocations(q), now);
    assert forall c: Constraint :: Understood(c);
  }

  /** What an answer says besides: whether revocations were supplied at all, and nothing of the grant where the refusal
      is not about its scope. */
  lemma AnswerReports(p: Platform, q: Query, now: Text)
    ensures var e := Evaluate(p, q, now);
            && (e.revocationsChecked <==> q.revocations.Some?)
            && (e.cause.None? <==> e.decision == Permitted)
            && (e.granted.Some? <==> e.cause.None? || e.cause == Some(ScopeNotGranted))
            && (e.decision != Permitted ==> e.obligations == [])
  {
    hide VerifyAuthorizationGrant, Scan, Stops;
    ScanCauses(p, q, Revocations(q), now);
  }

  lemma {:induction false} ScanCauses(p: Platform, q: Query, rs: seq<Revocation>, now: Text)
    ensures Scan(p, q, rs, now).Some? ==>
              && Scan(p, q, rs, now).value.0 != Permitted
              && Scan(p, q, rs, now).value.1 in {RegistryUnavailable, GrantRevoked, AgentRevoked}
  {
    if rs != [] { ScanCauses(p, q, rs[1..], now); }
  }

  /** The first revocation that stops the loop. */
  predicate StopsFirst(p: Platform, q: Query, now: Text, i: nat) {
    && i < |Revocations(q)| && Stops(p, q, Revocations(q)[i], now).Some?
    && forall j :: 0 <= j < i ==> Stops(p, q, Revocations(q)[j], now).None?
  }

  /** The first stopping revocation of any list decides: UNKNOWN if its key document was not supplied, NOT_PERMITTED
      otherwise, whatever the list goes on to say. */
  lemma FirstStoppingRevocationDecides(p: Platform, q: Query, now: Text, i: nat)
    requires Considered(p, q, now) && StopsFirst(p, q, now, i)
    ensures var r, e := Revocations(q)[i], Evaluate(p, q, now);
            && (Unverifiable(p, q, r) ==> e.decision == Unknown && e.cause == Some(RegistryUnavailable))
            && (Authoritative(p, q, r) ==>
                  && e.decision == NotPermitted
                  && e.cause == Some(if r.payload.revokesType.RevokesGrant? then GrantRevoked else AgentRevoked))
            && (Unverifiable(p, q, r) || Authoritative(p, q, r))
  {
    hide Stops, VerifyAuthorizationGrant, BindingFailure, Scan, Unverifiable, Authoritative, Considered;
    ConsideredIff(p, q, now);
    var k := ScanIsFirst(p, q, Revocations(q), now);
    assert k == i;
    StopOutcome(p, q, Revocations(q)[i], now);
  }

  lemma StopOutcome(p: Platform, q: Query, r: Revocation, now: Text)
    requires Stops(p, q, r, now).Some?
    ensures Unverifiable(p, q, r) ==> Stops(p, q, r, now) == Some((Unknown, RegistryUnavailable))
    ensures Authoritative(p, q, r) ==>
              Stops(p, q, r, now)
              == Some((NotPermitted, if r.payload.revokesType.RevokesGrant? then GrantRevoked else AgentRevoked))
    ensures Unverifiable(p, q, r) || Authoritative(p, q, r)
  {}

  /** So between the two other answers order matters: of two stopping revocations anywhere in a list, next to each other
      and with none before them, the one listed first is answered for. */
  lemma OrderChoosesTheRefusal(p: Platform, q: Query, front: seq<Revocation>, u: Revocation, e: Revocation,
                               back: seq<Revocation>, now: Text)
    requires Considered(p, q, now) && Unverifiable(p, q, u)
    requires Authoritative(p, q, e) && AtOrAfter(p.dateParse(now), p.dateParse(e.payload.revokedAt))
    requires forall r :: r in front ==> Stops(p, q, r, now).None?
    ensures Evaluate(p, q.(revocations := Some(front + [u, e] + back)), now).decision == Unknown
    ensures Evaluate(p, q.(revocations := Some(front + [e, u] + back)), now).decision == NotPermitted
  {
    hide Stops, VerifyAuthorizationGrant, BindingFailure, Scan, Unverifiable, Authoritative, Evaluate;
    hide Considered, StopsFirst, Revocations;
    StopsWhen(p, q, u, now);
    StopsWhen(p, q, e, now);
    FirstOfList(p, q, front, u, [e] + back, now);
    FirstOfList(p, q, front, e, [u] + back, now);
    assert front + [u, e] + back == front + [u] + ([e] + back) && front + [e, u] + back == front + [e] + ([u] + back);
    FirstStoppingRevocationDecides(p, q.(revocations := Some(front + [u, e] + back)), now, |front|);
    FirstStoppingRevocationDecides(p, q.(revocations := Some(front + [e, u] + back)), now, |front|);
  }

  lemma FirstOfList(p: Platform, q: Query, front: seq<Revocation>, r: Revocation, back: seq<Revocation>, now: Text)
    requires Considered(p, q, now) && Stops(p, q, r, now).Some? && forall x :: x in front ==> Stops(p, q, x, now).None?
    ensures var q2 := q.(revocations := Some(front + [r] + back));
            && Considered(p, q2, now) && StopsFirst(p, q2, now, |front|) && Revocations(q2)[|front|] == r
            && Unverifiable(p, q2, r) == Unverifiable(p, q, r) && Authoritative(p, q2, r) == Authoritative(p, q, r)
  {
    hide VerifyAuthorizationGrant, Unverifiable, Authoritative, GrantStands, InWindow;
    var q2 := q.(revocations := Some(front + [r] + back));
    OnlyTheListDiffers(p, q, q2, r);
    forall x ensures Stops(p, q2, x, now) == Stops(p, q, x, now) { StopsIgnoresList(p, q, q2, x, now); }
    assert ActorBound(p, q2) == ActorBound(p, q);
  }

  lemma StopsIgnoresList(p: Platform, q: Query, q2: Query, r: Revocation, now: Text)
    requires q2 == q.(revocations := q2.revocations)
    ensures Stops(p, q2, r, now) == Stops(p, q, r, now)
  {}

  // ---------------------------------------------------------------- revocations that cannot be determined

  /** The revocation names this grant, or this agent. */
  predicate NamesTarget(q: Query, r: Revocation) {
    || (r.payload.revokesType.RevokesGrant? && r.payload.revokes == q.grant.payload.grantId)
    || (r.payload.revokesType.RevokesAgent? && r.payload.revokes == q.grant.payload.subject)
  }

  /** Who may withdraw what it names. */
  function Withdrawer(q: Query, r: Revocation): Text {
    if r.payload.revokesType.RevokesGrant? then q.grant.payload.principal else q.grant.payload.subject
  }

  /** What a listed revocation of this grant or agent, well-formed and in effect, comes to, by its key document: missing
      stops at UNKNOWN; supplied, it stops at NOT_PERMITTED exactly if the revocation verifies under it and the document
      is controlled by whoever may withdraw. A document that is malformed, or not the key named, is passed over. */
  lemma RevocationByItsKey(p: Platform, q: Query, r: Revocation, now: Text)
    requires ValidRevocation(p, r) && NamesTarget(q, r) && AtOrAfter(p.dateParse(now), p.dateParse(r.payload.revokedAt))
    ensures var supplied := r.payload.keyId in q.revocationKeys;
            && (!supplied ==> Stops(p, q, r, now) == Some((Unknown, RegistryUnavailable)))
            && (supplied ==>
                  var key := q.revocationKeys[r.payload.keyId];
                  && (Stops(p, q, r, now).Some? <==>
                        VerifyRevocation(p, r, key).Ok? && key.controller == Withdrawer(q, r))
                  && (Stops(p, q, r, now).Some? ==> Stops(p, q, r, now).value.0 == NotPermitted)
                  && (!ValidKey(p, key) || key.keyId != r.payload.keyId ==> Stops(p, q, r, now).None?))
  {}

  /** A malformed revocation, and one that does not verify under the key document supplied for it, changes nothing,
      wherever it stands. */
  lemma UnverifiedRevocationIgnored(p: Platform, q: Query, front: seq<Revocation>, r: Revocation, back: seq<Revocation>,
                                    now: Text)
    requires q.revocations == Some(front + back)
    requires ValidRevocation(p, r) ==>
               r.payload.keyId in q.revocationKeys && VerifyRevocation(p, r, q.revocationKeys[r.payload.keyId]).Err?
    ensures Evaluate(p, q.(revocations := Some(front + [r] + back)), now) == Evaluate(p, q, now)
  {
    hide Evaluate, Scan, VerifyRevocation;
    var q2 := q.(revocations := Some(front + [r] + back));
    ScanSkips(p, q, front, r, back, now);
    ScanIgnoresList(p, q, q2, front + [r] + back, now);
    SameButForTheList(p, q, q2, now);
  }

  /** So an effective revocation of the very grant goes unheeded if its key document is supplied malformed: the answer
      is PERMITTED. */
  lemma MalformedKeyPermits(p: Platform, q: Query, r: Revocation, now: Text)
    requires Considered(p, q, now) && q.scope in q.grant.payload.scopes && q.revocations == Some([r])
    requires r.payload.keyId in q.revocationKeys && !ValidKey(p, q.revocationKeys[r.payload.keyId])
    ensures Evaluate(p, q, now).decision == Permitted
  {
    hide Evaluate, BindingFailure;
    PermittedIff(p, q, now);
    GrantAcceptedIff(p, q.grant, q.principalKey, now);
  }
}
