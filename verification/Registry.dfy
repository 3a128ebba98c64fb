// The registry: MemoryStore (packages/api/src/store.ts), the write handlers of packages/api/src/app.ts,
// and the clock policy of packages/api/src/registration-time.ts.
module Registry {
  import opened Prelude
  import opened Text
  import opened Identifier
  import opened Objects
  import opened SignedObjects
  import opened Crypto

  datatype AgentStatus = ACTIVE | CHANGED | STALE | SUSPENDED | REVOKED

  datatype AgentRecord = AgentRecord(
    agentId: Text,
    manifest: Manifest,
    manifestDigest: Text,
    proof: ManifestProof,
    status: AgentStatus,
    registeredAt: Text,
    updatedAt: Text)

  datatype Event =
    | KeyPublished(agentId: Text, occurredAt: Text, keyId: Text)
    | AgentRegistered(agentId: Text, occurredAt: Text, digest: Text)
    | AssertionIssued(agentId: Text, occurredAt: Text, assertionId: Text, level: Level, digest: Text)

  /** The store's contents; assertions in insertion order, as a JavaScript Map iterates. */
  datatype State = State(
    agents: map<Text, AgentRecord>,
    keys: map<Text, KeyDocument>,
    assertions: seq<VerificationAssertion>,
    events: seq<Event>)

  const EMPTY := State(map[], map[], [], [])

  // ---------------------------------------------------------------- the store

  function IndexOfAssertion(xs: seq<VerificationAssertion>, id: Text): (r: Option<nat>)
    ensures r.Some? ==> r.value < |xs| && xs[r.value].payload.assertionId == id
    ensures r.None? <==> forall i :: 0 <= i < |xs| ==> xs[i].payload.assertionId != id
  {
    if xs == [] then None
    else if xs[0].payload.assertionId == id then Some(0)
    else match IndexOfAssertion(xs[1..], id) case Some(i) => Some(i + 1) case None => None
  }

  /** Setting a Map entry: replaced in place if the id is known, appended otherwise. */
  function WithAssertion(xs: seq<VerificationAssertion>, a: VerificationAssertion): seq<VerificationAssertion> {
    match IndexOfAssertion(xs, a.payload.assertionId) case Some(i) => xs[i := a] case None => xs + [a]
  }

  lemma {:induction false} FoundAfterUpdate(xs: seq<VerificationAssertion>, i: nat, a: VerificationAssertion, id: Text)
    requires i < |xs| && xs[i].payload.assertionId == a.payload.assertionId
    ensures IndexOfAssertion(xs[i := a], id) == IndexOfAssertion(xs, id)
  {
    if i == 0 {
      assert xs[i := a][1..] == xs[1..];
    } else {
      assert xs[i := a][1..] == xs[1..][i - 1 := a];
      FoundAfterUpdate(xs[1..], i - 1, a, id);
    }
  }

  lemma {:induction false} FoundAfterAppend(xs: seq<VerificationAssertion>, a: VerificationAssertion, id: Text)
    ensures IndexOfAssertion(xs + [a], id)
         == if IndexOfAssertion(xs, id).Some? then IndexOfAssertion(xs, id)
            else if id == a.payload.assertionId then Some(|xs|) else None
  {
    if xs == [] {
      assert [] + [a] == [a];
    } else {
      assert (xs + [a])[1..] == xs[1..] + [a];
      FoundAfterAppend(xs[1..], a, id);
    }
  }

  /** Every id keeps its place, a new one comes last, and only under its own id is anything else found than before. */
  lemma PlacesKept(xs: seq<VerificationAssertion>, a: VerificationAssertion, id: Text)
    ensures var (before, after) := (IndexOfAssertion(xs, id), IndexOfAssertion(WithAssertion(xs, a), id));
            && after == (if before.Some? then before else if id == a.payload.assertionId then Some(|xs|) else None)
            && (after.Some? ==> WithAssertion(xs, a)[after.value]
                                == if id == a.payload.assertionId then a else xs[after.value])
  {
    match IndexOfAssertion(xs, a.payload.assertionId)
    case Some(i) => FoundAfterUpdate(xs, i, a, id);
    case None => FoundAfterAppend(xs, a, id);
  }

  function InsertByTime(p: Platform, a: VerificationAssertion, xs: seq<VerificationAssertion>)
    : (r: seq<VerificationAssertion>)
    ensures |r| == |xs| + 1 && forall x :: x in r <==> x == a || x in xs
  {
    if xs == [] || p.collate(a.payload.verifiedAt, xs[0].payload.verifiedAt) then [a] + xs
    else [xs[0]] + InsertByTime(p, a, xs[1..])
  }

  /** The assertions about a subject, stably sorted by the text of `verified_at`. */
  function Listed(p: Platform, xs: seq<VerificationAssertion>, subject: Text): (r: seq<VerificationAssertion>)
    ensures forall x :: x in r <==> x in xs && x.payload.subject == subject
  {
    if xs == [] then []
    else if xs[0].payload.subject != subject then Listed(p, xs[1..], subject)
    else InsertByTime(p, xs[0], Listed(p, xs[1..], subject))
  }

  /** `localeCompare` orders texts totally. */
  ghost predicate CollationLaws(p: Platform) {
    && (forall a, b :: p.collate(a, b) || p.collate(b, a))
    && (forall a, b, c :: p.collate(a, b) && p.collate(b, c) ==> p.collate(a, c))
  }

  predicate InOrder(p: Platform, xs: seq<VerificationAssertion>) {
    forall i, j :: 0 <= i < j < |xs| ==> p.collate(xs[i].payload.verifiedAt, xs[j].payload.verifiedAt)
  }

  lemma {:induction false} InsertKeepsOrder(p: Platform, a: VerificationAssertion, xs: seq<VerificationAssertion>)
    requires CollationLaws(p) && InOrder(p, xs)
    ensures InOrder(p, InsertByTime(p, a, xs))
  {
    if xs != [] && !p.collate(a.payload.verifiedAt, xs[0].payload.verifiedAt) {
      InsertKeepsOrder(p, a, xs[1..]);
      forall x | x in InsertByTime(p, a, xs[1..]) ensures p.collate(xs[0].payload.verifiedAt, x.payload.verifiedAt) {
        if x != a { assert x in xs[1..]; }
      }
    }
  }

  /** The listing is in the order of its time texts. */
  lemma {:induction false} ListedInOrder(p: Platform, xs: seq<VerificationAssertion>, subject: Text)
    requires CollationLaws(p)
    ensures InOrder(p, Listed(p, xs, subject))
  {
    if xs != [] {
      ListedInOrder(p, xs[1..], subject);
      if xs[0].payload.subject == subject { InsertKeepsOrder(p, xs[0], Listed(p, xs[1..], subject)); }
    }
  }

  /** The assertions about a subject, in insertion order. */
  function About(xs: seq<VerificationAssertion>, subject: Text): seq<VerificationAssertion> {
    if xs == [] then [] else (if xs[0].payload.subject == subject then [xs[0]] else []) + About(xs[1..], subject)
  }

  /** The texts compare equal. */
  predicate Tie(p: Platform, a: Text, b: Text) { p.collate(a, b) && p.collate(b, a) }

  /** Those whose time compares equal to `t`, in the order they stand in. */
  function Tied(p: Platform, xs: seq<VerificationAssertion>, t: Text): seq<VerificationAssertion> {
    if xs == [] then [] else (if Tie(p, xs[0].payload.verifiedAt, t) then [xs[0]] else []) + Tied(p, xs[1..], t)
  }

  lemma TiedFirst(p: Platform, a: VerificationAssertion, xs: seq<VerificationAssertion>, t: Text)
    ensures Tied(p, [a] + xs, t) == (if Tie(p, a.payload.verifiedAt, t) then [a] else []) + Tied(p, xs, t)
  {
    assert ([a] + xs)[1..] == xs;
  }

  lemma UnequalNotBothTied(p: Platform, a: Text, b: Text, t: Text)
    requires CollationLaws(p) && !p.collate(a, b)
    ensures !(Tie(p, a, t) && Tie(p, b, t))
  {}

  lemma {:induction false} InsertIsStable(p: Platform, a: VerificationAssertion, xs: seq<VerificationAssertion>,
                                          t: Text)
    requires CollationLaws(p)
    ensures Tied(p, InsertByTime(p, a, xs), t) == Tied(p, [a] + xs, t)
  {
    hide Tied, Tie, CollationLaws;
    if xs == [] || p.collate(a.payload.verifiedAt, xs[0].payload.verifiedAt) {
      assert xs == [] ==> [a] + xs == [a];
    } else {
      var x, rest := xs[0], xs[1..];
      InsertIsStable(p, a, rest, t);
      TiedFirst(p, x, InsertByTime(p, a, rest), t);
      TiedFirst(p, a, rest, t);
      TiedFirst(p, x, rest, t);
      TiedFirst(p, a, xs, t);
      assert xs == [x] + rest;
      UnequalNotBothTied(p, a.payload.verifiedAt, x.payload.verifiedAt, t);
    }
  }

  /** Sorting is stable: assertions whose times compare equal keep their insertion order. */
  lemma {:induction false} ListedIsStable(p: Platform, xs: seq<VerificationAssertion>, subject: Text, t: Text)
    requires CollationLaws(p)
    ensures Tied(p, Listed(p, xs, subject), t) == Tied(p, About(xs, subject), t)
  {
    if xs != [] {
      ListedIsStable(p, xs[1..], subject, t);
      var listed, about := Listed(p, xs[1..], subject), About(xs[1..], subject);
      if xs[0].payload.subject == subject {
        InsertIsStable(p, xs[0], listed, t);
        assert ([xs[0]] + listed)[1..] == listed && ([xs[0]] + about)[1..] == about;
        assert Tied(p, [xs[0]] + listed, t) == Tied(p, [xs[0]] + about, t);
      } else {
        assert About(xs, subject) == about;
      }
    }
  }

  lemma {:induction false} InsertAddsOne(p: Platform, a: VerificationAssertion, xs: seq<VerificationAssertion>)
    ensures multiset(InsertByTime(p, a, xs)) == multiset(xs) + multiset{a}
  {
    if xs != [] && !p.collate(a.payload.verifiedAt, xs[0].payload.verifiedAt) {
      InsertAddsOne(p, a, xs[1..]);
      assert xs == [xs[0]] + xs[1..];
    }
  }

  lemma {:induction false} ListedPermutes(p: Platform, xs: seq<VerificationAssertion>, subject: Text)
    ensures multiset(Listed(p, xs, subject)) == multiset(About(xs, subject))
  {
    if xs != [] {
      ListedPermutes(p, xs[1..], subject);
      if xs[0].payload.subject == subject { InsertAddsOne(p, xs[0], Listed(p, xs[1..], subject)); }
    }
  }

  class MemoryStore {
    var agents: map<Text, AgentRecord>
    var keys: map<Text, KeyDocument>
    var assertions: seq<VerificationAssertion>
    var events: seq<Event>

    function View(): State
      reads this
    {
      State(agents, keys, assertions, events)
    }

    constructor ()
      ensures View() == EMPTY
    {
      agents, keys, assertions, events := map[], map[], [], [];
    }

    method GetAgent(agentId: Text) returns (r: Option<AgentRecord>)
      ensures r == if agentId in agents then Some(agents[agentId]) else None
    {
      r := if agentId in agents then Some(agents[agentId]) else None;
    }

    method CreateAgent(record: AgentRecord) returns (created: bool)
      modifies this
      ensures created <==> record.agentId !in old(agents)
      ensures View() == if created then old(View()).(agents := old(agents)[record.agentId := record]) else old(View())
    {
      if record.agentId in agents { return false; }
      agents := agents[record.agentId := record];
      created := true;
    }

    method GetKey(keyId: Text) returns (r: Option<KeyDocument>)
      ensures r == if keyId in keys then Some(keys[keyId]) else None
    {
      r := if keyId in keys then Some(keys[keyId]) else None;
    }

    method PutKey(doc: KeyDocument)
      modifies this
      ensures View() == old(View()).(keys := old(keys)[doc.keyId := doc])
    {
      keys := keys[doc.keyId := doc];
    }

    method GetAssertion(assertionId: Text) returns (r: Option<VerificationAssertion>)
      ensures r.Some? <==> IndexOfAssertion(assertions, assertionId).Some?
      ensures r.Some? ==> r.value in assertions && r.value.payload.assertionId == assertionId
    {
      match IndexOfAssertion(assertions, assertionId)
      case Some(i) => r := Some(assertions[i]);
      case None => r := None;
    }

    method PutAssertion(a: VerificationAssertion)
      modifies this
      ensures View() == old(View()).(assertions := WithAssertion(old(assertions), a))
    {
      assertions := WithAssertion(assertions, a);
    }

    method ListAssertionsForSubject(p: Platform, subject: Text) returns (r: seq<VerificationAssertion>)
      ensures r == Listed(p, assertions, subject)
      ensures multiset(r) == multiset(About(assertions, subject))
      ensures CollationLaws(p) ==> InOrder(p, r) && forall t :: Tied(p, r, t) == Tied(p, About(assertions, subject), t)
    {
      r := Listed(p, assertions, subject);
      ListedPermutes(p, assertions, subject);
      if CollationLaws(p) {
        ListedInOrder(p, assertions, subject);
        forall t ensures Tied(p, r, t) == Tied(p, About(assertions, subject), t) {
          ListedIsStable(p, assertions, subject, t);
        }
      }
    }

    method AppendEvent(e: Event)
      modifies this
      ensures View() == old(View()).(events := old(events) + [e])
    {
      events := events + [e];
    }
  }

  // ---------------------------------------------------------------- replies

  datatype ApiError =
    | SchemaValidationFailed | KeyIdConflictsWithProof | NotAnOperatorKey | NotTheController | InvalidAgentId
    | ClockSkewTooLarge | VerificationFailed(code: Code) | KeyConflict | AgentExists
    | AuthorityWritesDisabled | Unauthorized | AgentNotFound | SubjectNotInPath | AuthorityKeyUnknown | AssertionExists
    | NotAnAuthorityKey

  datatype Reply =
    | Registered(record: AgentRecord)
    | Issued(assertionId: Text, level: Level)
    | KeyStored(keyId: Text)
    | Refused(status: int, error: ApiError)

  // ---------------------------------------------------------------- registration

  const MAX_FORWARD_SKEW_MS := 120_000

  datatype Instants = Instants(now: Text, registeredAt: Text)

  /** The instant a registration's proof is evaluated at (`registrationTime`). */
  function RegistrationTime(p: Platform, createdAt: Text, serverNow: int): Option<Instants> {
    var registeredAt := p.toIso(serverNow);
    match p.dateParse(createdAt)
    case None => Some(Instants(registeredAt, registeredAt))
    case Some(created) =>
      var aheadBy := created - serverNow;
      if aheadBy > MAX_FORWARD_SKEW_MS then None
      else Some(Instants(if aheadBy > 0 then createdAt else registeredAt, registeredAt))
  }

  datatype RegisterBody = RegisterBody(manifest: Manifest, proof: ManifestProof, key: KeyDocument)

  /** The checks before the store is touched; None when all pass. */
  function RegisterFailure(p: Platform, b: RegisterBody, serverNow: int): Option<ApiError> {
    if !ValidManifest(p, b.manifest) || !ValidProof(p, b.proof) || !ValidKey(p, b.key) then Some(SchemaValidationFailed)
    else if b.key.keyId != b.proof.payload.keyId then Some(KeyIdConflictsWithProof)
    else if b.key.role != Operator then Some(NotAnOperatorKey)
    else if b.key.controller != b.manifest.agentId then Some(NotTheController)
    else
      match RegistrationTime(p, b.proof.payload.createdAt, serverNow)
      case None => Some(ClockSkewTooLarge)
      case Some(rt) =>
        match VerifyManifestProof(p, b.proof, b.manifest, b.key, rt.now)
        case Err(code) => Some(VerificationFailed(code))
        case Ok(_) => None
  }

  function RecordOf(p: Platform, b: RegisterBody, ts: Text): AgentRecord {
    AgentRecord(b.manifest.agentId, b.manifest, ManifestDigest(p, b.manifest), b.proof, ACTIVE, ts, ts)
  }

  predicate KeyTaken(s: State, key: KeyDocument) {
    key.keyId in s.keys && s.keys[key.keyId] != key
  }

  /** The state and reply of `POST /v1/agents`, for the two clock readings the handler makes. */
  function RegisterStep(p: Platform, s: State, b: RegisterBody, serverNow: int, written: int): (State, Reply) {
    var ts := p.toIso(written);
    match RegisterFailure(p, b, serverNow)
    case Some(error) => (s, Refused(400, error))
    case None =>
      if KeyTaken(s, b.key) then (s, Refused(409, KeyConflict))
      else if b.manifest.agentId in s.agents then (s, Refused(409, AgentExists))
      else (Enlisted(p, s, b, ts), Registered(RecordOf(p, b, ts)))
  }

  /** The state with the agent, its key and the two events written. */
  function Enlisted(p: Platform, s: State, b: RegisterBody, ts: Text): State {
    var record := RecordOf(p, b, ts);
    State(s.agents[record.agentId := record],
          s.keys[b.key.keyId := b.key],
          s.assertions,
          s.events + [KeyPublished(record.agentId, ts, b.key.keyId)]
                   + [AgentRegistered(record.agentId, ts, record.manifestDigest)])
  }

  /** The Fastify handler, store call by store call. */
  method PostAgent(p: Platform, store: MemoryStore, b: RegisterBody, serverNow: int, written: int) returns (r: Reply)
    modifies store
    ensures (store.View(), r) == RegisterStep(p, old(store.View()), b, serverNow, written)
  {
    var failure := RegisterFailure(p, b, serverNow);
    if failure.Some? { return Refused(400, failure.value); }
    var existingKey := store.GetKey(b.key.keyId);
    if existingKey.Some? && existingKey.value != b.key { return Refused(409, KeyConflict); }
    var ts := p.toIso(written);
    var record := RecordOf(p, b, ts);
    var created := store.CreateAgent(record);
    if !created { return Refused(409, AgentExists); }
    store.PutKey(b.key);
    store.AppendEvent(KeyPublished(record.agentId, ts, b.key.keyId));
    store.AppendEvent(AgentRegistered(record.agentId, ts, record.manifestDigest));
    r := Registered(record);
  }

  /** The web registry's own implementation (`registerAgent` of packages/web/lib/register.ts): one clock reading,
      one check more. It is the same step. */
  method RegisterAgent(p: Platform, store: MemoryStore, b: RegisterBody, serverNow: int) returns (r: Reply)
    modifies store
    ensures (store.View(), r) == RegisterStep(p, old(store.View()), b, serverNow, serverNow)
  {
    if !ValidManifest(p, b.manifest) { return Refused(400, SchemaValidationFailed); }
    if !ValidProof(p, b.proof) { return Refused(400, SchemaValidationFailed); }
    if !ValidKey(p, b.key) { return Refused(400, SchemaValidationFailed); }
    if b.key.keyId != b.proof.payload.keyId { return Refused(400, KeyIdConflictsWithProof); }
    if b.key.role != Operator { return Refused(400, NotAnOperatorKey); }
    if b.key.controller != b.manifest.agentId { return Refused(400, NotTheController); }
    if !IsAgentId(b.manifest.agentId) { return Refused(400, InvalidAgentId); }
    var rt := RegistrationTime(p, b.proof.payload.createdAt, serverNow);
    if rt.None? { return Refused(400, ClockSkewTooLarge); }
    var check := VerifyManifestProof(p, b.proof, b.manifest, b.key, rt.value.now);
    if check.Err? { return Refused(400, VerificationFailed(check.error)); }
    var existingKey := store.GetKey(b.key.keyId);
    if existingKey.Some? && existingKey.value != b.key { return Refused(409, KeyConflict); }
    var record := RecordOf(p, b, rt.value.registeredAt);
    var created := store.CreateAgent(record);
    if !created { return Refused(409, AgentExists); }
    store.PutKey(b.key);
    store.AppendEvent(KeyPublished(record.agentId, rt.value.registeredAt, b.key.keyId));
    store.AppendEvent(AgentRegistered(record.agentId, rt.value.registeredAt, record.manifestDigest));
    r := Registered(record);
  }

  // ---------------------------------------------------------------- authority writes

  /** The token the registry is configured with, if any, and the request's `authorization` header, if any. */
  datatype Credentials = Credentials(configured: Option<Text>, header: Option<Text>)

  /** `requireAuthority`; an empty token counts as none. */
  function CredentialsFailure(c: Credentials): Option<Reply> {
    if c.configured.None? || c.configured.value == [] then Some(Refused(503, AuthorityWritesDisabled))
    else
      var h := match c.header case Some(t) => t case None => [];
      if h != T("Bearer ") + c.configured.value then Some(Refused(401, Unauthorized)) else None
  }

  function IssueStep(p: Platform, s: State, c: Credentials, path: Text, a: VerificationAssertion, now: int,
                     written: int): (State, Reply)
  {
    match CredentialsFailure(c)
    case Some(reply) => (s, reply)
    case None =>
      if !IsAgentId(path) || path !in s.agents then (s, Refused(404, AgentNotFound))
      else if !ValidAssertion(p, a) then (s, Refused(400, SchemaValidationFailed))
      else if a.payload.subject != s.agents[path].agentId then (s, Refused(400, SubjectNotInPath))
      else if a.payload.keyId !in s.keys then (s, Refused(400, AuthorityKeyUnknown))
      else
        match VerifyVerificationAssertion(p, a, s.keys[a.payload.keyId], p.toIso(now), Some(s.agents[path].manifest))
        case Err(code) => (s, Refused(400, VerificationFailed(code)))
        case Ok(_) =>
          if IndexOfAssertion(s.assertions, a.payload.assertionId).Some? then (s, Refused(409, AssertionExists))
          else
            ( s.(assertions := s.assertions + [a],
                 events := s.events + [AssertionIssued(s.agents[path].agentId, p.toIso(written), a.payload.assertionId,
                                                       a.payload.level, a.payload.digest)]),
              Issued(a.payload.assertionId, a.payload.level) )
  }

  method PostAssertion(p: Platform, store: MemoryStore, c: Credentials, path: Text, a: VerificationAssertion, now: int,
                       written: int)
    returns (r: Reply)
    modifies store
    ensures (store.View(), r) == IssueStep(p, old(store.View()), c, path, a, now, written)
  {
    var denied := CredentialsFailure(c);
    if denied.Some? { return denied.value; }
    var rec: Option<AgentRecord> := None;
    if IsAgentId(path) { rec := store.GetAgent(path); }
    if rec.None? { return Refused(404, AgentNotFound); }
    if !ValidAssertion(p, a) { return Refused(400, SchemaValidationFailed); }
    if a.payload.subject != rec.value.agentId { return Refused(400, SubjectNotInPath); }
    var auKey := store.GetKey(a.payload.keyId);
    if auKey.None? { return Refused(400, AuthorityKeyUnknown); }
    var check := VerifyVerificationAssertion(p, a, auKey.value, p.toIso(now), Some(rec.value.manifest));
    if check.Err? { return Refused(400, VerificationFailed(check.error)); }
    var existing := store.GetAssertion(a.payload.assertionId);
    if existing.Some? { return Refused(409, AssertionExists); }
    store.PutAssertion(a);
    store.AppendEvent(AssertionIssued(rec.value.agentId, p.toIso(written), a.payload.assertionId,
                                      a.payload.level, a.payload.digest));
    r := Issued(a.payload.assertionId, a.payload.level);
  }

  function PublishKeyStep(p: Platform, s: State, c: Credentials, key: KeyDocument): (State, Reply) {
    match CredentialsFailure(c)
    case Some(reply) => (s, reply)
    case None =>
      if !ValidKey(p, key) then (s, Refused(400, SchemaValidationFailed))
      else if key.role != Authority then (s, Refused(400, NotAnAuthorityKey))
      else if KeyTaken(s, key) then (s, Refused(409, KeyConflict))
      else (s.(keys := s.keys[key.keyId := key]), KeyStored(key.keyId))
  }

  method PostAuthorityKey(p: Platform, store: MemoryStore, c: Credentials, key: KeyDocument) returns (r: Reply)
    modifies store
    ensures (store.View(), r) == PublishKeyStep(p, old(store.View()), c, key)
  {
    var denied := CredentialsFailure(c);
    if denied.Some? { return denied.value; }
    if !ValidKey(p, key) { return Refused(400, SchemaValidationFailed); }
    if key.role != Authority { return Refused(400, NotAnAuthorityKey); }
    var existing := store.GetKey(key.keyId);
    if existing.Some? && existing.value != key { return Refused(409, KeyConflict); }
    store.PutKey(key);
    r := KeyStored(key.keyId);
  }

  // ---------------------------------------------------------------- runs

  /** One write request, with the clock readings its handler will make. */
  datatype Command =
    | Register(body: RegisterBody, serverNow: int, written: int)
    | Issue(credentials: Credentials, path: Text, assertion: VerificationAssertion, now: int, written: int)
    | PublishKey(credentials: Credentials, key: KeyDocument)

  function Step(p: Platform, s: State, c: Command): State {
    match c
    case Register(b, now, written) => RegisterStep(p, s, b, now, written).0
    case Issue(cr, path, a, now, written) => IssueStep(p, s, cr, path, a, now, written).0
    case PublishKey(cr, key) => PublishKeyStep(p, s, cr, key).0
  }

  function Run(p: Platform, s: State, cs: seq<Command>): State
    decreases |cs|
  {
    if cs == [] then s else Run(p, Step(p, s, cs[0]), cs[1..])
  }

  // ---------------------------------------------------------------- the invariant

  ghost predicate KeysIndexed(p: Platform, s: State) {
    forall k :: k in s.keys ==> s.keys[k].keyId == k && ValidKey(p, s.keys[k])
  }

  /** A stored agent passes every check registration made, except the clock. */
  ghost predicate AgentStands(p: Platform, s: State, id: Text)
    requires id in s.agents
  {
    var rec := s.agents[id];
    && rec.agentId == id && rec.manifest.agentId == id && rec.status == ACTIVE
    && rec.manifestDigest == ManifestDigest(p, rec.manifest)
    && rec.proof.payload.keyId in s.keys
    && ProofStands(p, rec.proof, rec.manifest, s.keys[rec.proof.payload.keyId])
  }

  /** A stored assertion is about a registered agent and passes every check issuance made, except the clock. */
  ghost predicate StoredAssertionStands(p: Platform, s: State, a: VerificationAssertion) {
    && a.payload.subject in s.agents && a.payload.keyId in s.keys
    && AssertionStands(p, a, s.keys[a.payload.keyId], Some(s.agents[a.payload.subject].manifest))
  }

  ghost predicate Invariant(p: Platform, s: State) {
    KeysIndexed(p, s) && AgentsStand(p, s) && AssertionsStand(p, s) && AssertionIdsUnique(s)
  }

  /** Nothing stored is ever changed or removed. */
  ghost predicate Extends(s: State, t: State) {
    && (forall k :: k in s.keys ==> k in t.keys && t.keys[k] == s.keys[k])
    && (forall id :: id in s.agents ==> id in t.agents && t.agents[id] == s.agents[id])
    && s.assertions <= t.assertions
    && s.events <= t.events
  }

  lemma AgentStillStands(p: Platform, s: State, t: State, id: Text)
    requires id in s.agents && AgentStands(p, s, id) && Extends(s, t)
    ensures AgentStands(p, t, id)
  {}

  lemma AssertionStillStands(p: Platform, s: State, t: State, a: VerificationAssertion)
    requires StoredAssertionStands(p, s, a) && Extends(s, t)
    ensures StoredAssertionStands(p, t, a)
  {}

  ghost predicate AgentsStand(p: Platform, s: State) {
    forall id :: id in s.agents ==> AgentStands(p, s, id)
  }

  ghost predicate AssertionsStand(p: Platform, s: State) {
    forall a :: a in s.assertions ==> StoredAssertionStands(p, s, a)
  }

  ghost predicate AssertionIdsUnique(s: State) {
    forall i, j :: 0 <= i < j < |s.assertions| ==>
      s.assertions[i].payload.assertionId != s.assertions[j].payload.assertionId
  }

  lemma StoredStillStand(p: Platform, s: State, t: State)
    requires AgentsStand(p, s) && AssertionsStand(p, s) && Extends(s, t)
    ensures forall id :: id in s.agents ==> AgentStands(p, t, id)
    ensures forall a :: a in s.assertions ==> StoredAssertionStands(p, t, a)
  {
    forall id | id in s.agents ensures AgentStands(p, t, id) { AgentStillStands(p, s, t, id); }
    forall a | a in s.assertions ensures StoredAssertionStands(p, t, a) { AssertionStillStands(p, s, t, a); }
  }

  lemma EnlistedExtends(p: Platform, s: State, b: RegisterBody, ts: Text)
    requires KeysIndexed(p, s) && ValidKey(p, b.key) && !KeyTaken(s, b.key) && b.manifest.agentId !in s.agents
    ensures Extends(s, Enlisted(p, s, b, ts)) && KeysIndexed(p, Enlisted(p, s, b, ts))
  {}

  lemma EnlistedStands(p: Platform, s: State, b: RegisterBody, ts: Text)
    requires ProofStands(p, b.proof, b.manifest, b.key)
    ensures AgentStands(p, Enlisted(p, s, b, ts), b.manifest.agentId)
  {}

  /** What a registration that goes through has found, and what it leaves. */
  lemma RegisterShape(p: Platform, s: State, b: RegisterBody, now: int, written: int)
    ensures var (t, reply) := RegisterStep(p, s, b, now, written);
            if reply.Registered? then
              && t == Enlisted(p, s, b, p.toIso(written)) && RegisterFailure(p, b, now).None?
              && !KeyTaken(s, b.key) && b.manifest.agentId !in s.agents
            else t == s
  {}

  lemma PassedMeansStands(p: Platform, b: RegisterBody, now: int)
    requires RegisterFailure(p, b, now).None?
    ensures ProofStands(p, b.proof, b.manifest, b.key)
  {
    ProofAcceptedIff(p, b.proof, b.manifest, b.key, RegistrationTime(p, b.proof.payload.createdAt, now).value.now);
  }

  lemma RegisterKeeps(p: Platform, s: State, b: RegisterBody, now: int, written: int)
    requires Invariant(p, s)
    ensures Extends(s, RegisterStep(p, s, b, now, written).0)
    ensures Invariant(p, RegisterStep(p, s, b, now, written).0)
  {
    RegisterShape(p, s, b, now, written);
    if RegisterStep(p, s, b, now, written).1.Registered? {
      PassedMeansStands(p, b, now);
      EnlistedKeeps(p, s, b, p.toIso(written));
    }
  }

  lemma EnlistedKeeps(p: Platform, s: State, b: RegisterBody, ts: Text)
    requires Invariant(p, s) && ProofStands(p, b.proof, b.manifest, b.key)
    requires !KeyTaken(s, b.key) && b.manifest.agentId !in s.agents
    ensures Extends(s, Enlisted(p, s, b, ts)) && Invariant(p, Enlisted(p, s, b, ts))
  {
    EnlistedExtends(p, s, b, ts);
    EnlistedStands(p, s, b, ts);
    OneMoreAgent(p, s, Enlisted(p, s, b, ts), b.manifest.agentId);
  }

  lemma OneMoreAgent(p: Platform, s: State, t: State, newcomer: Text)
    requires Invariant(p, s) && Extends(s, t) && KeysIndexed(p, t) && t.assertions == s.assertions
    requires t.agents.Keys == s.agents.Keys + {newcomer} && AgentStands(p, t, newcomer)
    ensures Invariant(p, t)
  {
    StoredStillStand(p, s, t);
    AgentsPlusOne(p, s, t, newcomer);
    assert AssertionsStand(p, t);
    assert AssertionIdsUnique(t);
  }

  lemma AgentsPlusOne(p: Platform, s: State, t: State, newcomer: Text)
    requires t.agents.Keys == s.agents.Keys + {newcomer} && AgentStands(p, t, newcomer)
    requires forall id :: id in s.agents ==> AgentStands(p, t, id)
    ensures AgentsStand(p, t)
  {
    hide AgentStands;
    forall id | id in t.agents ensures AgentStands(p, t, id) {
      assert id in s.agents.Keys || id == newcomer;
    }
  }

  lemma IssueExtends(p: Platform, s: State, c: Credentials, path: Text, a: VerificationAssertion, now: int,
                     written: int)
    ensures var (t, reply) := IssueStep(p, s, c, path, a, now, written);
            if reply.Issued? then
              && t == s.(assertions := s.assertions + [a], events := t.events) && s.events <= t.events
              && IndexOfAssertion(s.assertions, a.payload.assertionId).None?
            else t == s
  {}

  lemma IssuedStands(p: Platform, s: State, c: Credentials, path: Text, a: VerificationAssertion, now: int,
                     written: int)
    requires IssueStep(p, s, c, path, a, now, written).1.Issued?
    requires path in s.agents ==> s.agents[path].agentId == path
    ensures StoredAssertionStands(p, s, a)
  {
    AssertionAcceptedIff(p, a, s.keys[a.payload.keyId], p.toIso(now), Some(s.agents[path].manifest));
  }

  lemma IssueKeeps(p: Platform, s: State, c: Credentials, path: Text, a: VerificationAssertion, now: int, written: int)
    requires Invariant(p, s)
    ensures Extends(s, IssueStep(p, s, c, path, a, now, written).0)
    ensures Invariant(p, IssueStep(p, s, c, path, a, now, written).0)
  {
    hide IssueStep, AgentStands, StoredAssertionStands;
    IssueExtends(p, s, c, path, a, now, written);
    if IssueStep(p, s, c, path, a, now, written).1.Issued? {
      FiledUnderItself(p, s, path);
      IssuedStands(p, s, c, path, a, now, written);
      IssuedExtends(s, IssueStep(p, s, c, path, a, now, written).0, a);
      OneMoreAssertion(p, s, IssueStep(p, s, c, path, a, now, written).0, a);
    }
  }

  lemma FiledUnderItself(p: Platform, s: State, id: Text)
    requires AgentsStand(p, s)
    ensures id in s.agents ==> s.agents[id].agentId == id
  {
    assert id in s.agents ==> AgentStands(p, s, id);
  }

  lemma IssuedExtends(s: State, t: State, a: VerificationAssertion)
    requires t == s.(assertions := s.assertions + [a], events := t.events) && s.events <= t.events
    ensures Extends(s, t)
  {}

  lemma OneMoreAssertion(p: Platform, s: State, t: State, a: VerificationAssertion)
    requires Invariant(p, s) && Extends(s, t) && t.keys == s.keys && t.agents == s.agents
    requires t.assertions == s.assertions + [a] && StoredAssertionStands(p, s, a)
    requires forall i :: 0 <= i < |s.assertions| ==> s.assertions[i].payload.assertionId != a.payload.assertionId
    ensures Invariant(p, t)
  {
    StoredPlusOne(p, s, t, a);
    IdsPlusOne(s, t, a);
  }

  lemma StoredPlusOne(p: Platform, s: State, t: State, a: VerificationAssertion)
    requires AgentsStand(p, s) && AssertionsStand(p, s) && Extends(s, t) && t.agents == s.agents
    requires t.assertions == s.assertions + [a] && StoredAssertionStands(p, s, a)
    ensures AgentsStand(p, t) && AssertionsStand(p, t)
  {
    StoredStillStand(p, s, t);
    AssertionStillStands(p, s, t, a);
    AssertionsPlusOne(p, t, s.assertions, a);
  }

  lemma AssertionsPlusOne(p: Platform, t: State, xs: seq<VerificationAssertion>, a: VerificationAssertion)
    requires t.assertions == xs + [a] && StoredAssertionStands(p, t, a)
    requires forall x :: x in xs ==> StoredAssertionStands(p, t, x)
    ensures AssertionsStand(p, t)
  {
    hide StoredAssertionStands;
    forall x | x in t.assertions ensures StoredAssertionStands(p, t, x) {
      assert x in xs || x == a;
    }
  }

  lemma IdsPlusOne(s: State, t: State, a: VerificationAssertion)
    requires AssertionIdsUnique(s) && t.assertions == s.assertions + [a]
    requires forall i :: 0 <= i < |s.assertions| ==> s.assertions[i].payload.assertionId != a.payload.assertionId
    ensures AssertionIdsUnique(t)
  {}

  lemma StoringKey(p: Platform, s: State, key: KeyDocument)
    requires KeysIndexed(p, s) && ValidKey(p, key) && !KeyTaken(s, key)
    ensures var t := s.(keys := s.keys[key.keyId := key]); Extends(s, t) && KeysIndexed(p, t)
  {}

  lemma PublishKeyShape(p: Platform, s: State, c: Credentials, key: KeyDocument)
    ensures var (t, reply) := PublishKeyStep(p, s, c, key);
            if reply.KeyStored? then t == s.(keys := s.keys[key.keyId := key]) && ValidKey(p, key) && !KeyTaken(s, key)
            else t == s
  {}

  lemma PublishKeyKeeps(p: Platform, s: State, c: Credentials, key: KeyDocument)
    requires Invariant(p, s)
    ensures Extends(s, PublishKeyStep(p, s, c, key).0)
    ensures Invariant(p, PublishKeyStep(p, s, c, key).0)
  {
    PublishKeyShape(p, s, c, key);
    if PublishKeyStep(p, s, c, key).1.KeyStored? {
      StoringKey(p, s, key);
      StoredStillStand(p, s, PublishKeyStep(p, s, c, key).0);
    }
  }

  lemma StepKeeps(p: Platform, s: State, c: Command)
    requires Invariant(p, s)
    ensures Extends(s, Step(p, s, c))
    ensures Invariant(p, Step(p, s, c))
  {
    hide Invariant, Extends, RegisterStep, IssueStep, PublishKeyStep;
    match c
    case Register(b, now, written) => RegisterKeeps(p, s, b, now, written);
    case Issue(cr, path, a, now, written) => IssueKeeps(p, s, cr, path, a, now, written);
    case PublishKey(cr, key) => PublishKeyKeeps(p, s, cr, key);
  }

  /** What every step keeps holds after every run. */
  lemma {:induction false} RunInduction(p: Platform, kept: State -> bool, s: State, cs: seq<Command>)
    requires kept(s) && forall t, c :: kept(t) ==> kept(Step(p, t, c))
    ensures kept(Run(p, s, cs))
    decreases |cs|
  {
    if cs != [] { RunInduction(p, kept, Step(p, s, cs[0]), cs[1..]); }
  }

  lemma StepKeepsSince(p: Platform, s: State, t: State, c: Command)
    requires Invariant(p, t) && Extends(s, t)
    ensures Invariant(p, Step(p, t, c)) && Extends(s, Step(p, t, c))
  {
    StepKeeps(p, t, c);
    ExtendsTransitive(s, t, Step(p, t, c));
  }

  /** Over every run: the invariant holds at the end, and every key, agent, assertion and event stored at any time
      is still there, unchanged. */
  lemma RunKeeps(p: Platform, s: State, cs: seq<Command>)
    requires Invariant(p, s)
    ensures Extends(s, Run(p, s, cs)) && Invariant(p, Run(p, s, cs))
  {
    var kept := t => Invariant(p, t) && Extends(s, t);
    forall t, c | kept(t) ensures kept(Step(p, t, c)) { StepKeepsSince(p, s, t, c); }
    RunInduction(p, kept, s, cs);
  }

  lemma ExtendsTransitive(s: State, t: State, u: State)
    requires Extends(s, t) && Extends(t, u)
    ensures Extends(s, u)
  {}

  lemma EmptyIsInvariant(p: Platform)
    ensures Invariant(p, EMPTY)
  {}

  // ---------------------------------------------------------------- the clock policy

  lemma NotBeforeCreation(p: Platform, proof: ManifestProof, m: Manifest, key: KeyDocument, now: Text)
    requires !Before(p.dateParse(now), p.dateParse(proof.payload.createdAt))
    ensures VerifyManifestProof(p, proof, m, key, now) != Err(NotYetValid)
  {}

  /** A proof that the clock policy lets through is never refused afterwards as not yet valid. */
  lemma NeverNotYetValid(p: Platform, b: RegisterBody, serverNow: int)
    requires p.dateParse(p.toIso(serverNow)) == Some(serverNow)
    requires RegistrationTime(p, b.proof.payload.createdAt, serverNow).Some?
    ensures RegisterFailure(p, b, serverNow) != Some(VerificationFailed(NotYetValid))
  {
    var rt := RegistrationTime(p, b.proof.payload.createdAt, serverNow).value;
    NotBeforeCreation(p, b.proof, b.manifest, b.key, rt.now);
  }
}
