// The opt-in agent directory and its signed, replay-protected consents (packages/web/lib/directory.ts).
module Directory {
  import opened Prelude
  import opened Text
  import opened Objects
  import opened SignedObjects
  import R = Registry
  import D = DomainSeparation
  import opened Utf8
  import opened Identifier

  const CONSENT_WINDOW_MS := 300_000

  datatype DirectoryRecord = DirectoryRecord(
    agentId: Text,
    listed: bool,
    consent: DirectoryConsent,
    consentCreatedAt: Text,
    updatedAt: Text)

  // ---------------------------------------------------------------- the store

  function IndexOfRow(rows: seq<DirectoryRecord>, id: Text): (r: Option<nat>)
    ensures r.Some? ==> r.value < |rows| && rows[r.value].agentId == id
    ensures r.None? <==> forall i :: 0 <= i < |rows| ==> rows[i].agentId != id
  {
    if rows == [] then None
    else if rows[0].agentId == id then Some(0)
    else match IndexOfRow(rows[1..], id) case Some(i) => Some(i + 1) case None => None
  }

  function RowOf(rows: seq<DirectoryRecord>, id: Text): (r: Option<DirectoryRecord>)
    ensures r.Some? ==> r.value in rows && r.value.agentId == id
  {
    match IndexOfRow(rows, id) case Some(i) => Some(rows[i]) case None => None
  }

  /** Setting a Map entry: replaced in place if the id is known, appended otherwise. */
  function WithRow(rows: seq<DirectoryRecord>, r: DirectoryRecord): seq<DirectoryRecord> {
    match IndexOfRow(rows, r.agentId) case Some(i) => rows[i := r] case None => rows + [r]
  }

  function ListedRows(rows: seq<DirectoryRecord>): (r: seq<DirectoryRecord>)
    ensures forall x :: x in r <==> x in rows && x.listed
  {
    if rows == [] then [] else (if rows[0].listed then [rows[0]] else []) + ListedRows(rows[1..])
  }

  function InsertByUpdate(p: Platform, a: DirectoryRecord, xs: seq<DirectoryRecord>): (r: seq<DirectoryRecord>)
    ensures multiset(r) == multiset(xs) + multiset{a}
  {
    if xs == [] then [a]
    else if p.collate(xs[0].updatedAt, a.updatedAt) then [a] + xs
    else
      assert xs == [xs[0]] + xs[1..];
      [xs[0]] + InsertByUpdate(p, a, xs[1..])
  }

  /** Stably sorted, most recently updated first. */
  function ByUpdate(p: Platform, xs: seq<DirectoryRecord>): (r: seq<DirectoryRecord>)
    ensures multiset(r) == multiset(xs)
  {
    if xs == [] then []
    else
      assert xs == [xs[0]] + xs[1..];
      InsertByUpdate(p, xs[0], ByUpdate(p, xs[1..]))
  }

  predicate NewestFirst(p: Platform, xs: seq<DirectoryRecord>) {
    forall i, j :: 0 <= i < j < |xs| ==> p.collate(xs[j].updatedAt, xs[i].updatedAt)
  }

  lemma {:induction false} InsertKeepsOrder(p: Platform, a: DirectoryRecord, xs: seq<DirectoryRecord>)
    requires R.CollationLaws(p) && NewestFirst(p, xs)
    ensures NewestFirst(p, InsertByUpdate(p, a, xs))
  {
    if xs != [] && !p.collate(xs[0].updatedAt, a.updatedAt) {
      InsertKeepsOrder(p, a, xs[1..]);
      SameMembers(InsertByUpdate(p, a, xs[1..]), xs[1..] + [a]);
      forall x | x in InsertByUpdate(p, a, xs[1..]) ensures p.collate(x.updatedAt, xs[0].updatedAt) {
        if x != a { assert x in xs[1..]; }
      }
    }
  }

  /** The page is in descending order of its update texts. */
  lemma {:induction false} PageNewestFirst(p: Platform, xs: seq<DirectoryRecord>, limit: nat)
    requires R.CollationLaws(p)
    ensures NewestFirst(p, ByUpdate(p, xs)) && NewestFirst(p, UpTo(ByUpdate(p, xs), limit))
    decreases |xs|
  {
    if xs != [] {
      PageNewestFirst(p, xs[1..], limit);
      InsertKeepsOrder(p, xs[0], ByUpdate(p, xs[1..]));
    }
  }

  /** Those last updated at a time that compares equal to `t`, in the order they stand in. */
  function Tied(p: Platform, xs: seq<DirectoryRecord>, t: Text): seq<DirectoryRecord> {
    if xs == [] then [] else (if R.Tie(p, xs[0].updatedAt, t) then [xs[0]] else []) + Tied(p, xs[1..], t)
  }

  lemma TiedFirst(p: Platform, a: DirectoryRecord, xs: seq<DirectoryRecord>, t: Text)
    ensures Tied(p, [a] + xs, t) == (if R.Tie(p, a.updatedAt, t) then [a] else []) + Tied(p, xs, t)
  {
    assert ([a] + xs)[1..] == xs;
  }

  lemma {:induction false} InsertIsStable(p: Platform, a: DirectoryRecord, xs: seq<DirectoryRecord>, t: Text)
    requires R.CollationLaws(p)
    ensures Tied(p, InsertByUpdate(p, a, xs), t) == Tied(p, [a] + xs, t)
  {
    hide Tied, R.Tie, R.CollationLaws;
    if xs == [] || p.collate(xs[0].updatedAt, a.updatedAt) {
      assert xs == [] ==> [a] + xs == [a];
    } else {
      var x, rest := xs[0], xs[1..];
      InsertIsStable(p, a, rest, t);
      TiedFirst(p, x, InsertByUpdate(p, a, rest), t);
      TiedFirst(p, a, rest, t);
      TiedFirst(p, x, rest, t);
      TiedFirst(p, a, xs, t);
      assert xs == [x] + rest;
      R.UnequalNotBothTied(p, x.updatedAt, a.updatedAt, t);
    }
  }

  /** Sorting is stable: rows updated at times that compare equal keep their insertion order. */
  lemma {:induction false} PageIsStable(p: Platform, xs: seq<DirectoryRecord>, t: Text)
    requires R.CollationLaws(p)
    ensures Tied(p, ByUpdate(p, xs), t) == Tied(p, xs, t)
  {
    if xs != [] {
      PageIsStable(p, xs[1..], t);
      InsertIsStable(p, xs[0], ByUpdate(p, xs[1..]), t);
      assert ([xs[0]] + ByUpdate(p, xs[1..]))[1..] == ByUpdate(p, xs[1..]);
    }
  }

  function UpTo<A>(xs: seq<A>, limit: nat): (r: seq<A>)
    ensures |r| <= limit && (|r| < limit ==> r == xs)
    ensures forall x :: x in r ==> x in xs
  {
    if |xs| <= limit then xs else xs[..limit]
  }

  lemma SameMembers(a: seq<DirectoryRecord>, b: seq<DirectoryRecord>)
    requires multiset(a) == multiset(b)
    ensures forall x :: x in a ==> x in b
  {
    forall x | x in a ensures x in b { assert x in multiset(a) && x in multiset(b); }
  }

  class MemoryDirectoryStore {
    var rows: seq<DirectoryRecord>

    constructor ()
      ensures rows == []
    {
      rows := [];
    }

    method Get(agentId: Text) returns (r: Option<DirectoryRecord>)
      ensures r == RowOf(rows, agentId)
    {
      r := RowOf(rows, agentId);
    }

    method Put(record: DirectoryRecord)
      modifies this
      ensures rows == WithRow(old(rows), record)
      ensures forall id :: RowOf(rows, id) == if id == record.agentId then Some(record) else RowOf(old(rows), id)
      ensures OneRowEach(old(rows)) ==> OneRowEach(rows)
    {
      forall id: Text
        ensures RowOf(WithRow(rows, record), id) == if id == record.agentId then Some(record) else RowOf(rows, id)
      {
        RowAfterPut(rows, record, id);
      }
      rows := WithRow(rows, record);
    }

    /** Every row on the page is a listed one, and none is missing unless the page is full. */
    method ListListed(p: Platform, limit: nat) returns (page: seq<DirectoryRecord>)
      ensures page == UpTo(ByUpdate(p, ListedRows(rows)), limit)
      ensures forall x :: x in page ==> x in rows && x.listed
      ensures |page| <= limit
      ensures |page| < limit ==> multiset(page) == multiset(ListedRows(rows))
      ensures R.CollationLaws(p) ==> NewestFirst(p, page)
    {
      page := ByUpdate(p, ListedRows(rows));
      SameMembers(page, ListedRows(rows));
      if R.CollationLaws(p) { PageNewestFirst(p, ListedRows(rows), limit); }
      page := UpTo(page, limit);
    }
  }

  // ---------------------------------------------------------------- a consent

  datatype ConsentError =
    | InvalidConsent | ConsentExpired | RegistryUnavailable | AgentNotFound | AgentNotActive
    | KeyNotOperator | KeyNotActive | SignatureInvalid | ConsentSuperseded

  datatype ConsentReply = Recorded(record: DirectoryRecord) | Refused(error: ConsentError)

  /** What fails while the request is handled, if anything: a read of the registry, or a read or write of the
      directory. */
  datatype Outage = AllUp | RegistryDown | DirectoryUnreadable | DirectoryUnwritable

  function CreatedAt(p: Platform, c: DirectoryConsent): int {
    match p.dateParse(c.payload.createdAt) case Some(t) => t case None => 0
  }

  function Skew(a: int, b: int): int { if a < b then b - a else a - b }

  function RecordOf(p: Platform, c: DirectoryConsent, now: int): DirectoryRecord {
    DirectoryRecord(c.payload.agentId, c.payload.listed, c, p.toIso(CreatedAt(p, c)), p.toIso(now))
  }

  /** The checks before the directory is read. */
  function ConsentFailure(p: Platform, s: R.State, c: DirectoryConsent, now: int, outage: Outage): Option<ConsentError>
  {
    if !ValidConsent(p, c) then Some(InvalidConsent)
    else if Skew(now, CreatedAt(p, c)) > CONSENT_WINDOW_MS then Some(ConsentExpired)
    else if outage.RegistryDown? then Some(RegistryUnavailable)
    else if c.payload.agentId !in s.agents then Some(AgentNotFound)
    else
      var agent := s.agents[c.payload.agentId];
      if agent.status != R.ACTIVE then Some(AgentNotActive)
      else if agent.proof.payload.keyId != c.payload.keyId || c.payload.keyId !in s.keys then Some(KeyNotOperator)
      else
        var key := s.keys[c.payload.keyId];
        if key.role != Operator || key.controller != c.payload.agentId then Some(KeyNotOperator)
        else if key.status != Active then Some(KeyNotActive)
        else if !p.verify(key.publicKey, SigningInput(ConsentOf(c.payload)), c.signature) then Some(SignatureInvalid)
        else None
  }

  /** A consent no newer than the one on record. */
  predicate IsSuperseded(p: Platform, rows: seq<DirectoryRecord>, c: DirectoryConsent) {
    var previous := RowOf(rows, c.payload.agentId);
    previous.Some? && AtOrAfter(p.dateParse(previous.value.consentCreatedAt), p.dateParse(c.payload.createdAt))
  }

  function ConsentStep(p: Platform, s: R.State, rows: seq<DirectoryRecord>, c: DirectoryConsent, now: int,
                       outage: Outage)
    : (seq<DirectoryRecord>, ConsentReply)
  {
    match ConsentFailure(p, s, c, now, outage)
    case Some(error) => (rows, Refused(error))
    case None =>
      if outage.DirectoryUnreadable? then (rows, Refused(RegistryUnavailable))
      else if IsSuperseded(p, rows, c) then (rows, Refused(ConsentSuperseded))
      else if outage.DirectoryUnwritable? then (rows, Refused(RegistryUnavailable))
      else (WithRow(rows, RecordOf(p, c, now)), Recorded(RecordOf(p, c, now)))
  }

  /** `applyDirectoryConsent`, read by read and write by write. */
  method ApplyDirectoryConsent(p: Platform, store: R.MemoryStore, directory: MemoryDirectoryStore,
                               consent: DirectoryConsent, now: int, outage: Outage)
    returns (r: ConsentReply)
    modifies directory
    ensures (directory.rows, r) == ConsentStep(p, store.View(), old(directory.rows), consent, now, outage)
    ensures store.View() == old(store.View())
  {
    if !ValidConsent(p, consent) { return Refused(InvalidConsent); }
    if Skew(now, CreatedAt(p, consent)) > CONSENT_WINDOW_MS { return Refused(ConsentExpired); }
    if outage.RegistryDown? { return Refused(RegistryUnavailable); }
    var agent := store.GetAgent(consent.payload.agentId);
    var key: Option<KeyDocument> := None;
    if agent.Some? { key := store.GetKey(consent.payload.keyId); }
    if agent.None? { return Refused(AgentNotFound); }
    if agent.value.status != R.ACTIVE { return Refused(AgentNotActive); }
    if agent.value.proof.payload.keyId != consent.payload.keyId { return Refused(KeyNotOperator); }
    if key.None? || key.value.role != Operator || key.value.controller != consent.payload.agentId {
      return Refused(KeyNotOperator);
    }
    if key.value.status != Active { return Refused(KeyNotActive); }
    if !p.verify(key.value.publicKey, SigningInput(ConsentOf(consent.payload)), consent.signature) {
      return Refused(SignatureInvalid);
    }
    if outage.DirectoryUnreadable? { return Refused(RegistryUnavailable); }
    var previous := directory.Get(consent.payload.agentId);
    if previous.Some?
       && AtOrAfter(p.dateParse(previous.value.consentCreatedAt), p.dateParse(consent.payload.createdAt)) {
      return Refused(ConsentSuperseded);
    }
    var record := RecordOf(p, consent, now);
    if outage.DirectoryUnwritable? { return Refused(RegistryUnavailable); }
    directory.Put(record);
    r := Recorded(record);
  }

  // ---------------------------------------------------------------- runs

  /** The registry, the directory, and the consents accepted so far, oldest first. */
  datatype Site = Site(registry: R.State, rows: seq<DirectoryRecord>, accepted: seq<DirectoryConsent>)

  datatype Action = Write(command: R.Command) | Consent(consent: DirectoryConsent, now: int, outage: Outage)

  function SiteStep(p: Platform, site: Site, a: Action): Site {
    match a
    case Write(command) => site.(registry := R.Step(p, site.registry, command))
    case Consent(c, now, outage) =>
      var (rows, reply) := ConsentStep(p, site.registry, site.rows, c, now, outage);
      if reply.Recorded? then site.(rows := rows, accepted := site.accepted + [c]) else site.(rows := rows)
  }

  function SiteRun(p: Platform, site: Site, actions: seq<Action>): Site
    decreases |actions|
  {
    if actions == [] then site else SiteRun(p, SiteStep(p, site, actions[0]), actions[1..])
  }

  const NEW_SITE := Site(R.EMPTY, [], [])

  /** The last accepted consent about an agent. */
  function LastFor(cs: seq<DirectoryConsent>, id: Text): (r: Option<DirectoryConsent>)
    ensures r.Some? ==> r.value in cs && r.value.payload.agentId == id
    ensures r.None? <==> forall c :: c in cs ==> c.payload.agentId != id
  {
    if cs == [] then None
    else
      var last := cs[|cs| - 1];
      assert cs == cs[..|cs| - 1] + [last];
      if last.payload.agentId == id then Some(last) else LastFor(cs[..|cs| - 1], id)
  }

  // ---------------------------------------------------------------- the invariant

  /** A row and the consent it was written for. */
  predicate RowFits(p: Platform, row: Option<DirectoryRecord>, last: Option<DirectoryConsent>) {
    match (row, last)
    case (None, None) => true
    case (Some(r), Some(c)) =>
      && r.agentId == c.payload.agentId && r.listed == c.payload.listed
      && r.consent == c && r.consentCreatedAt == p.toIso(CreatedAt(p, c))
    case _ => false
  }

  /** Everything a consent is checked for except the clock and its predecessors. */
  predicate ConsentStands(p: Platform, s: R.State, c: DirectoryConsent) {
    && ValidConsent(p, c) && c.payload.agentId in s.agents
    && s.agents[c.payload.agentId].proof.payload.keyId == c.payload.keyId && c.payload.keyId in s.keys
    && var key := s.keys[c.payload.keyId];
       && key.role == Operator && key.controller == c.payload.agentId && key.status == Active
       && p.verify(key.publicKey, SigningInput(ConsentOf(c.payload)), c.signature)
  }

  /** Per agent, each accepted consent is strictly newer than the ones before it. */
  predicate Newer(p: Platform, cs: seq<DirectoryConsent>) {
    forall i, j :: 0 <= i < j < |cs| && cs[i].payload.agentId == cs[j].payload.agentId ==>
      CreatedAt(p, cs[i]) < CreatedAt(p, cs[j])
  }

  ghost predicate RowsFit(p: Platform, site: Site) {
    forall id :: RowFits(p, RowOf(site.rows, id), LastFor(site.accepted, id))
  }

  predicate AcceptedStand(p: Platform, site: Site) {
    forall c :: c in site.accepted ==> ConsentStands(p, site.registry, c)
  }

  predicate OneRowEach(rows: seq<DirectoryRecord>) {
    forall i, j :: 0 <= i < j < |rows| ==> rows[i].agentId != rows[j].agentId
  }

  ghost predicate DirectoryInvariant(p: Platform, site: Site) {
    RowsFit(p, site) && OneRowEach(site.rows) && Newer(p, site.accepted) && AcceptedStand(p, site)
  }

  ghost predicate SiteInvariant(p: Platform, site: Site) {
    R.Invariant(p, site.registry) && DirectoryInvariant(p, site)
  }

  /** `toISOString` reads back as the instant of any timestamp that parses. */
  ghost predicate InstantsReadBack(p: Platform) {
    forall t :: p.dateParse(t).Some? ==> p.dateParse(p.toIso(p.dateParse(t).value)) == p.dateParse(t)
  }

  /** The consent was signed at most five minutes before or after this clock reading. */
  predicate Fresh(p: Platform, c: DirectoryConsent, now: int) {
    match p.dateParse(c.payload.createdAt) case Some(t) => -300_000 <= now - t <= 300_000 case None => false
  }

  /** A consent is recorded exactly if it stands, for an active agent, is fresh and newer than the record, and nothing
      is down; the row then shows its flag and carries the two instants. */
  lemma RecordedIff(p: Platform, s: R.State, rows: seq<DirectoryRecord>, c: DirectoryConsent, now: int, outage: Outage)
    ensures var reply := ConsentStep(p, s, rows, c, now, outage).1;
            && (reply.Recorded? <==>
                  && ConsentStands(p, s, c) && s.agents[c.payload.agentId].status == R.ACTIVE
                  && Fresh(p, c, now) && !IsSuperseded(p, rows, c) && outage.AllUp?)
            && (reply.Recorded? ==>
                  && p.dateParse(c.payload.createdAt).Some?
                  && reply.record == DirectoryRecord(c.payload.agentId, c.payload.listed, c,
                                                     p.toIso(p.dateParse(c.payload.createdAt).value), p.toIso(now))
                  && 1 <= |c.signature| <= 200 && AllBase64Url(c.signature))
  {
    hide IsSuperseded, SigningInput;
  }

  /** Which refusal is answered, in the order of the steps. */
  lemma ConsentRefusals(p: Platform, s: R.State, rows: seq<DirectoryRecord>, c: DirectoryConsent, now: int,
                        outage: Outage)
    ensures var (reply, x) := (ConsentStep(p, s, rows, c, now, outage).1, c.payload);
            var recent := ValidConsent(p, c) && Fresh(p, c, now);
            var read := recent && !outage.RegistryDown?;
            var found := read && x.agentId in s.agents;
            var active := found && s.agents[x.agentId].status == R.ACTIVE;
            var operated := && active && s.agents[x.agentId].proof.payload.keyId == x.keyId && x.keyId in s.keys
                            && s.keys[x.keyId].role == Operator && s.keys[x.keyId].controller == x.agentId;
            var usable := operated && s.keys[x.keyId].status == Active;
            var stands := usable && p.verify(s.keys[x.keyId].publicKey, SigningInput(ConsentOf(x)), c.signature);
            && (reply == Refused(InvalidConsent) <==> !ValidConsent(p, c))
            && (reply == Refused(ConsentExpired) <==> ValidConsent(p, c) && !recent)
            && (reply == Refused(AgentNotFound) <==> read && !found)
            && (reply == Refused(AgentNotActive) <==> found && !active)
            && (reply == Refused(KeyNotOperator) <==> active && !operated)
            && (reply == Refused(KeyNotActive) <==> operated && !usable)
            && (reply == Refused(SignatureInvalid) <==> usable && !stands)
            && (reply == Refused(ConsentSuperseded) <==>
                  stands && !outage.DirectoryUnreadable? && IsSuperseded(p, rows, c))
            && (reply == Refused(RegistryUnavailable) <==>
                  || (recent && outage.RegistryDown?) || (stands && outage.DirectoryUnreadable?)
                  || (stands && outage.DirectoryUnwritable? && !IsSuperseded(p, rows, c)))
  {
    hide IsSuperseded, SigningInput;
  }

  lemma AcceptedMeansStanding(p: Platform, s: R.State, rows: seq<DirectoryRecord>, c: DirectoryConsent, now: int,
                              outage: Outage)
    ensures var (after, reply) := ConsentStep(p, s, rows, c, now, outage);
            if reply.Recorded? then
              && ConsentStands(p, s, c) && Skew(now, CreatedAt(p, c)) <= CONSENT_WINDOW_MS && !IsSuperseded(p, rows, c)
              && after == WithRow(rows, RecordOf(p, c, now))
            else after == rows
  {}

  lemma RowAfterPut(rows: seq<DirectoryRecord>, r: DirectoryRecord, id: Text)
    ensures RowOf(WithRow(rows, r), id) == if id == r.agentId then Some(r) else RowOf(rows, id)
  {
    match IndexOfRow(rows, r.agentId)
    case Some(i) => RowInPlace(rows, i, r, id);
    case None => RowAtEnd(rows, r, id);
  }

  lemma {:induction false} RowInPlace(rows: seq<DirectoryRecord>, i: nat, r: DirectoryRecord, id: Text)
    requires IndexOfRow(rows, r.agentId) == Some(i)
    ensures RowOf(rows[i := r], id) == if id == r.agentId then Some(r) else RowOf(rows, id)
  {
    if i > 0 {
      assert rows[i := r][1..] == rows[1..][i - 1 := r];
      RowInPlace(rows[1..], i - 1, r, id);
    } else {
      assert rows[i := r][1..] == rows[1..];
    }
  }

  lemma {:induction false} RowAtEnd(rows: seq<DirectoryRecord>, r: DirectoryRecord, id: Text)
    requires IndexOfRow(rows, r.agentId).None?
    ensures RowOf(rows + [r], id) == if id == r.agentId then Some(r) else RowOf(rows, id)
  {
    if rows != [] {
      assert (rows + [r])[1..] == rows[1..] + [r];
      RowAtEnd(rows[1..], r, id);
    } else {
      assert rows + [r] == [r];
    }
  }

  /** The last accepted consent of an agent is its newest. */
  lemma {:induction false} LastIsNewest(p: Platform, cs: seq<DirectoryConsent>, id: Text, i: nat)
    requires Newer(p, cs) && i < |cs| && cs[i].payload.agentId == id
    ensures LastFor(cs, id).Some? && CreatedAt(p, cs[i]) <= CreatedAt(p, LastFor(cs, id).value)
    ensures cs[i] != LastFor(cs, id).value ==> CreatedAt(p, cs[i]) < CreatedAt(p, LastFor(cs, id).value)
  {
    var front := cs[..|cs| - 1];
    if cs[|cs| - 1].payload.agentId != id { LastIsNewest(p, front, id, i); }
  }

  /** Against the row of the last accepted consent, superseded means no newer. */
  lemma SupersededIff(p: Platform, rows: seq<DirectoryRecord>, last: DirectoryConsent, c: DirectoryConsent)
    requires InstantsReadBack(p) && RowFits(p, RowOf(rows, c.payload.agentId), Some(last))
    requires p.dateParse(last.payload.createdAt).Some? && p.dateParse(c.payload.createdAt).Some?
    ensures IsSuperseded(p, rows, c) <==> CreatedAt(p, c) <= CreatedAt(p, last)
  {
    assert p.dateParse(p.toIso(CreatedAt(p, last))) == p.dateParse(last.payload.createdAt);
  }

  predicate AllParse(p: Platform, cs: seq<DirectoryConsent>) {
    forall c :: c in cs ==> p.dateParse(c.payload.createdAt).Some?
  }

  lemma OneMoreAccepted(p: Platform, site: Site, c: DirectoryConsent)
    requires InstantsReadBack(p) && RowsFit(p, site) && Newer(p, site.accepted) && AllParse(p, site.accepted + [c])
    requires !IsSuperseded(p, site.rows, c)
    ensures Newer(p, site.accepted + [c])
  {
    var id, cs := c.payload.agentId, site.accepted;
    forall i | 0 <= i < |cs| && cs[i].payload.agentId == id ensures CreatedAt(p, cs[i]) < CreatedAt(p, c) {
      LastIsNewest(p, cs, id, i);
      var last := LastFor(cs, id).value;
      assert last in cs + [c] && c in cs + [c];
      assert RowFits(p, RowOf(site.rows, id), LastFor(cs, id));
      SupersededIff(p, site.rows, last, c);
    }
    OneMoreNewer(p, cs, c);
  }

  lemma OneMoreNewer(p: Platform, cs: seq<DirectoryConsent>, c: DirectoryConsent)
    requires Newer(p, cs)
    requires forall i :: 0 <= i < |cs| && cs[i].payload.agentId == c.payload.agentId ==>
              CreatedAt(p, cs[i]) < CreatedAt(p, c)
    ensures Newer(p, cs + [c])
  {}

  lemma LastAfter(cs: seq<DirectoryConsent>, c: DirectoryConsent, id: Text)
    ensures LastFor(cs + [c], id) == if c.payload.agentId == id then Some(c) else LastFor(cs, id)
  {
    assert (cs + [c])[..|cs|] == cs;
  }

  lemma RowsStillFit(p: Platform, site: Site, c: DirectoryConsent, now: int)
    requires RowsFit(p, site)
    ensures RowsFit(p, site.(rows := WithRow(site.rows, RecordOf(p, c, now)), accepted := site.accepted + [c]))
  {
    forall id: Text
      ensures RowFits(p, RowOf(WithRow(site.rows, RecordOf(p, c, now)), id), LastFor(site.accepted + [c], id))
    {
      RowAfterPut(site.rows, RecordOf(p, c, now), id);
      LastAfter(site.accepted, c, id);
      assert RowFits(p, RowOf(site.rows, id), LastFor(site.accepted, id));
    }
  }

  lemma StandingStays(p: Platform, s: R.State, t: R.State, c: DirectoryConsent)
    requires ConsentStands(p, s, c) && R.Extends(s, t)
    ensures ConsentStands(p, t, c)
  {}

  lemma OneRowEachAfterPut(rows: seq<DirectoryRecord>, r: DirectoryRecord)
    requires OneRowEach(rows)
    ensures OneRowEach(WithRow(rows, r))
  {}

  lemma {:induction false} UniqueRow(rows: seq<DirectoryRecord>, k: nat)
    requires OneRowEach(rows) && k < |rows|
    ensures RowOf(rows, rows[k].agentId) == Some(rows[k])
  {}

  lemma WriteKeeps(p: Platform, site: Site, registry: R.State)
    requires DirectoryInvariant(p, site) && R.Extends(site.registry, registry)
    ensures DirectoryInvariant(p, site.(registry := registry))
  {
    var after := site.(registry := registry);
    forall c | c in after.accepted ensures ConsentStands(p, after.registry, c) {
      StandingStays(p, site.registry, after.registry, c);
    }
    assert RowsFit(p, after) <==> RowsFit(p, site);
  }

  lemma StandingParses(p: Platform, site: Site)
    requires AcceptedStand(p, site)
    ensures AllParse(p, site.accepted)
  {
    forall c | c in site.accepted ensures p.dateParse(c.payload.createdAt).Some? {
      assert ConsentStands(p, site.registry, c);
    }
  }

  function Recording(p: Platform, site: Site, c: DirectoryConsent, now: int): Site {
    site.(rows := WithRow(site.rows, RecordOf(p, c, now)), accepted := site.accepted + [c])
  }

  lemma RecordingKeeps(p: Platform, site: Site, c: DirectoryConsent, now: int)
    requires InstantsReadBack(p) && DirectoryInvariant(p, site)
    requires ConsentStands(p, site.registry, c) && !IsSuperseded(p, site.rows, c)
    ensures DirectoryInvariant(p, Recording(p, site, c, now))
  {
    StandingParses(p, site);
    OneMoreAccepted(p, site, c);
    RowsStillFit(p, site, c, now);
    OneRowEachAfterPut(site.rows, RecordOf(p, c, now));
  }

  lemma ConsentCases(p: Platform, site: Site, c: DirectoryConsent, now: int, outage: Outage)
    ensures var after := SiteStep(p, site, Consent(c, now, outage));
            if ConsentStep(p, site.registry, site.rows, c, now, outage).1.Recorded? then
              && after == Recording(p, site, c, now)
              && ConsentStands(p, site.registry, c) && !IsSuperseded(p, site.rows, c)
            else after == site
  {
    AcceptedMeansStanding(p, site.registry, site.rows, c, now, outage);
  }

  lemma ConsentKeeps(p: Platform, site: Site, c: DirectoryConsent, now: int, outage: Outage)
    requires InstantsReadBack(p) && DirectoryInvariant(p, site)
    ensures DirectoryInvariant(p, SiteStep(p, site, Consent(c, now, outage)))
    ensures SiteStep(p, site, Consent(c, now, outage)).registry == site.registry
    ensures site.accepted <= SiteStep(p, site, Consent(c, now, outage)).accepted
  {
    ConsentCases(p, site, c, now, outage);
    if ConsentStep(p, site.registry, site.rows, c, now, outage).1.Recorded? { RecordingKeeps(p, site, c, now); }
  }

  lemma SiteStepKeeps(p: Platform, site: Site, a: Action)
    requires InstantsReadBack(p) && SiteInvariant(p, site)
    ensures SiteInvariant(p, SiteStep(p, site, a))
    ensures R.Extends(site.registry, SiteStep(p, site, a).registry) && site.accepted <= SiteStep(p, site, a).accepted
  {
    match a
    case Write(command) =>
      R.StepKeeps(p, site.registry, command);
      WriteKeeps(p, site, R.Step(p, site.registry, command));
    case Consent(c, now, outage) => ConsentKeeps(p, site, c, now, outage);
  }

  /** Over every run of registry writes and consents, in any order and through any outages. */
  lemma {:induction false} SiteRunKeeps(p: Platform, site: Site, actions: seq<Action>)
    requires InstantsReadBack(p) && SiteInvariant(p, site)
    ensures SiteInvariant(p, SiteRun(p, site, actions))
    ensures R.Extends(site.registry, SiteRun(p, site, actions).registry)
    ensures site.accepted <= SiteRun(p, site, actions).accepted
    decreases |actions|
  {
    if actions != [] {
      var next := SiteStep(p, site, actions[0]);
      SiteStepKeeps(p, site, actions[0]);
      SiteRunKeeps(p, next, actions[1..]);
      R.ExtendsTransitive(site.registry, next.registry, SiteRun(p, site, actions).registry);
    }
  }

  lemma NewSiteIsInvariant(p: Platform)
    ensures SiteInvariant(p, NEW_SITE)
  {
    R.EmptyIsInvariant(p);
    forall id: Text ensures RowFits(p, RowOf(NEW_SITE.rows, id), LastFor(NEW_SITE.accepted, id)) {}
  }

  lemma {:induction false} LastAmong(cs: seq<DirectoryConsent>, id: Text)
    ensures LastFor(cs, id).Some? <==> exists c :: c in cs && c.payload.agentId == id
    ensures LastFor(cs, id).Some? ==> LastFor(cs, id).value in cs && LastFor(cs, id).value.payload.agentId == id
  {
    if cs != [] {
      LastAmong(cs[..|cs| - 1], id);
      assert cs == cs[..|cs| - 1] + [cs[|cs| - 1]];
    }
  }

  /** However a new site is run: an agent has a row exactly when a consent about it was accepted, and whoever has a row
      is registered. */
  lemma RowsFromTheNewSite(p: Platform, actions: seq<Action>, id: Text)
    requires InstantsReadBack(p)
    ensures var site := SiteRun(p, NEW_SITE, actions);
            && SiteInvariant(p, site)
            && (RowOf(site.rows, id).Some? <==> exists c :: c in site.accepted && c.payload.agentId == id)
            && (RowOf(site.rows, id).Some? ==> id in site.registry.agents)
  {
    hide R.Invariant;
    NewSiteIsInvariant(p);
    SiteRunKeeps(p, NEW_SITE, actions);
    var site := SiteRun(p, NEW_SITE, actions);
    LastAmong(site.accepted, id);
    assert RowFits(p, RowOf(site.rows, id), LastFor(site.accepted, id));
    assert forall c :: c in site.accepted ==> ConsentStands(p, site.registry, c);
  }

  // ---------------------------------------------------------------- replay safety

  lemma AcceptedSupersedes(p: Platform, site: Site, a: DirectoryConsent, c: DirectoryConsent)
    requires InstantsReadBack(p) && DirectoryInvariant(p, site) && a in site.accepted
    requires c.payload.agentId == a.payload.agentId && p.dateParse(c.payload.createdAt).Some?
    requires CreatedAt(p, c) <= CreatedAt(p, a)
    ensures IsSuperseded(p, site.rows, c)
  {
    StandingParses(p, site);
    var i :| 0 <= i < |site.accepted| && site.accepted[i] == a;
    LastIsNewest(p, site.accepted, a.payload.agentId, i);
    assert RowFits(p, RowOf(site.rows, a.payload.agentId), LastFor(site.accepted, a.payload.agentId));
    SupersededIff(p, site.rows, LastFor(site.accepted, a.payload.agentId).value, c);
  }

  lemma RefusedWhereAccepted(p: Platform, site: Site, a: DirectoryConsent, c: DirectoryConsent, now: int,
                             outage: Outage)
    requires InstantsReadBack(p) && DirectoryInvariant(p, site) && a in site.accepted
    requires c.payload.agentId == a.payload.agentId && CreatedAt(p, c) <= CreatedAt(p, a)
    ensures ConsentStep(p, site.registry, site.rows, c, now, outage).1.Refused?
  {
    ConsentCases(p, site, c, now, outage);
    if ConsentStands(p, site.registry, c) { AcceptedSupersedes(p, site, a, c); }
  }

  /** Once a consent is accepted, neither it nor anything about its agent that is no newer, whatever its signature, is
      accepted again: not after any further run, not at any clock. */
  lemma NeverAcceptedTwice(p: Platform, site: Site, a: DirectoryConsent, now1: int, actions: seq<Action>,
                           c: DirectoryConsent, now2: int, outage: Outage)
    requires InstantsReadBack(p) && SiteInvariant(p, site)
    requires ConsentStep(p, site.registry, site.rows, a, now1, AllUp).1.Recorded?
    requires c.payload.agentId == a.payload.agentId && CreatedAt(p, c) <= CreatedAt(p, a)
    ensures var later := SiteRun(p, SiteStep(p, site, Consent(a, now1, AllUp)), actions);
            ConsentStep(p, later.registry, later.rows, c, now2, outage).1.Refused?
  {
    hide R.Invariant, DirectoryInvariant, ConsentStep, ConsentStands, IsSuperseded;
    var next := SiteStep(p, site, Consent(a, now1, AllUp));
    SiteStepKeeps(p, site, Consent(a, now1, AllUp));
    ConsentCases(p, site, a, now1, AllUp);
    assert next.accepted[|site.accepted|] == a;
    SiteRunKeeps(p, next, actions);
    RefusedWhereAccepted(p, SiteRun(p, next, actions), a, c, now2, outage);
  }

  /** Along a run an agent's row never goes away and its consent time never goes back: it rises strictly whenever the
      consent on record changes. */
  lemma ConsentTimeRises(p: Platform, site: Site, actions: seq<Action>, id: Text)
    requires InstantsReadBack(p) && SiteInvariant(p, site) && RowOf(site.rows, id).Some?
    ensures RowOf(SiteRun(p, site, actions).rows, id).Some?
    ensures var before := RowOf(site.rows, id).value.consent;
            var after := RowOf(SiteRun(p, site, actions).rows, id).value.consent;
            before == after || CreatedAt(p, before) < CreatedAt(p, after)
  {
    SiteRunKeeps(p, site, actions);
    TimeRisesBetween(p, site, SiteRun(p, site, actions), id);
  }

  lemma TimeRisesBetween(p: Platform, site: Site, end: Site, id: Text)
    requires DirectoryInvariant(p, site) && DirectoryInvariant(p, end) && site.accepted <= end.accepted
    requires RowOf(site.rows, id).Some?
    ensures RowOf(end.rows, id).Some?
    ensures var before, after := RowOf(site.rows, id).value.consent, RowOf(end.rows, id).value.consent;
            before == after || CreatedAt(p, before) < CreatedAt(p, after)
  {
    assert RowFits(p, RowOf(site.rows, id), LastFor(site.accepted, id));
    assert RowFits(p, RowOf(end.rows, id), LastFor(end.accepted, id));
    var before := LastFor(site.accepted, id).value;
    var i :| 0 <= i < |site.accepted| && site.accepted[i] == before;
    assert end.accepted[i] == before;
    LastIsNewest(p, end.accepted, id, i);
  }

  /** The consents' signatures, each with the message it was accepted for. */
  ghost function Presented(cs: seq<DirectoryConsent>): iset<(Bytes, Text)> {
    iset c | c in cs :: (SigningInput(ConsentOf(c.payload)), c.signature)
  }

  /** Every row shows the flag of the newest consent ever accepted for its agent, which is registered. If none of the
      accepted signatures was forged for its operator key, the operator signed exactly that consent. */
  lemma ListedMeansAsked(p: Platform, site: Site, k: nat, signed: iset<Payload>)
    requires DirectoryInvariant(p, site) && k < |site.rows|
    ensures var row := site.rows[k];
            && LastFor(site.accepted, row.agentId) == Some(row.consent) && row.listed == row.consent.payload.listed
            && (forall i :: 0 <= i < |site.accepted| && site.accepted[i].payload.agentId == row.agentId ==>
                  CreatedAt(p, site.accepted[i]) <= CreatedAt(p, row.consent))
            && ConsentStands(p, site.registry, row.consent) && row.consent.payload.agentId == row.agentId
            && (D.Unforged(p, OperatorKey(site.registry, row.consent), signed, Presented(site.accepted)) ==>
                  ConsentOf(row.consent.payload) in signed)
  {
    var row := site.rows[k];
    UniqueRow(site.rows, k);
    assert RowFits(p, RowOf(site.rows, row.agentId), LastFor(site.accepted, row.agentId));
    forall i | 0 <= i < |site.accepted| && site.accepted[i].payload.agentId == row.agentId
      ensures CreatedAt(p, site.accepted[i]) <= CreatedAt(p, row.consent)
    {
      LastIsNewest(p, site.accepted, row.agentId, i);
    }
    AcceptedWasAsked(p, site, row.consent, signed);
  }

  function OperatorKey(s: R.State, c: DirectoryConsent): Text {
    if c.payload.keyId in s.keys then s.keys[c.payload.keyId].publicKey else []
  }

  lemma AcceptedWasAsked(p: Platform, site: Site, c: DirectoryConsent, signed: iset<Payload>)
    requires AcceptedStand(p, site) && c in site.accepted
    ensures D.Unforged(p, OperatorKey(site.registry, c), signed, Presented(site.accepted)) ==>
              ConsentOf(c.payload) in signed
  {
    assert ConsentStands(p, site.registry, c);
    var publicKey, presented := OperatorKey(site.registry, c), Presented(site.accepted);
    assert (SigningInput(ConsentOf(c.payload)), c.signature) in presented;
    if D.Unforged(p, publicKey, signed, presented) {
      D.VerifiedMeansSigned(p, publicKey, signed, presented, ConsentOf(c.payload), c.signature);
    }
  }

  predicate VerifiesUnder(p: Platform, publicKey: Text, c: DirectoryConsent) {
    p.verify(publicKey, SigningInput(ConsentOf(c.payload)), c.signature)
  }

  /** The consent carries the signature this seed makes. */
  predicate MadeBy(p: Platform, seed: Bytes, c: DirectoryConsent) {
    c.signature == p.sign(seed, SigningInput(ConsentOf(c.payload)))
  }

  /** Honest operators meet the hypothesis: if one seed made every accepted signature that verifies under its public
      key, nothing was forged for that key. */
  lemma HonestOperatorUnforged(p: Platform, site: Site, seed: Bytes)
    requires forall c :: c in site.accepted && VerifiesUnder(p, p.publicKey(seed), c) ==> MadeBy(p, seed, c)
    ensures D.Unforged(p, p.publicKey(seed), iset c | c in site.accepted && MadeBy(p, seed, c) :: ConsentOf(c.payload),
                       Presented(site.accepted))
  {}
}
