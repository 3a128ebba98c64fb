// The resolution envelope: packages/api/src/envelope.ts.
module Envelope {
  import opened Prelude
  import opened Text
  import opened Identifier
  import opened Objects
  import opened Crypto
  import opened Registry

  datatype Check = Passed | Failed(code: Code) | KeyUnavailable

  datatype AssertionView = AssertionView(assertion: VerificationAssertion, check: Check)

  datatype ResolutionEnvelope = ResolutionEnvelope(
    record: AgentRecord,
    proofCheck: Check,
    operatorKey: Option<KeyDocument>,
    level: Level,
    validAssertions: nat,
    totalAssertions: nat,
    views: seq<AssertionView>)

  /** `LEVEL_RANK` */
  function Rank(l: Level): nat {
    match l case L1 => 1 case L2 => 2 case L3 => 3 case L4 => 4
  }

  function CheckOf(r: Result<(), Code>): Check {
    match r case Ok(_) => Passed case Err(code) => Failed(code)
  }

  function ProofCheck(p: Platform, s: State, rec: AgentRecord, now: Text): Check {
    if rec.proof.payload.keyId !in s.keys then KeyUnavailable
    else CheckOf(VerifyManifestProof(p, rec.proof, rec.manifest, s.keys[rec.proof.payload.keyId], now))
  }

  function AssertionCheck(p: Platform, s: State, rec: AgentRecord, a: VerificationAssertion, now: Text): Check {
    if a.payload.keyId !in s.keys then KeyUnavailable
    else CheckOf(VerifyVerificationAssertion(p, a, s.keys[a.payload.keyId], now, Some(rec.manifest)))
  }

  /** The envelope's loop, from the back: what the views, the count and the level are for a list of assertions. */
  function ViewsOf(p: Platform, s: State, rec: AgentRecord, xs: seq<VerificationAssertion>, now: Text)
    : (r: seq<AssertionView>)
    ensures |r| == |xs|
  {
    seq(|xs|, i requires 0 <= i < |xs| => AssertionView(xs[i], AssertionCheck(p, s, rec, xs[i], now)))
  }

  function CountPassed(p: Platform, s: State, rec: AgentRecord, xs: seq<VerificationAssertion>, now: Text): (n: nat) {
    if xs == [] then 0
    else
      CountPassed(p, s, rec, xs[..|xs| - 1], now)
      + (if AssertionCheck(p, s, rec, xs[|xs| - 1], now).Passed? then 1 else 0)
  }

  /** `level` is the highest among the assertions that pass, L1 if none does. */
  ghost predicate IsHighest(p: Platform, s: State, rec: AgentRecord, xs: seq<VerificationAssertion>, now: Text,
                            level: Level)
  {
    && (level == L1 || exists a :: PassesIn(p, s, rec, xs, now, a) && a.payload.level == level)
    && forall a :: PassesIn(p, s, rec, xs, now, a) ==> Rank(a.payload.level) <= Rank(level)
  }

  /** `buildEnvelope` */
  method BuildEnvelope(p: Platform, store: MemoryStore, rec: AgentRecord, now: Text) returns (e: ResolutionEnvelope)
    ensures e.record == rec
    ensures e.operatorKey
         == if rec.proof.payload.keyId in store.keys then Some(store.keys[rec.proof.payload.keyId]) else None
    ensures e.proofCheck == ProofCheck(p, store.View(), rec, now)
    ensures var stored := Listed(p, store.assertions, rec.agentId);
            && e.views == ViewsOf(p, store.View(), rec, stored, now)
            && e.totalAssertions == |stored|
            && e.validAssertions == CountPassed(p, store.View(), rec, stored, now)
            && IsHighest(p, store.View(), rec, stored, now, e.level)
  {
    hide VerifyManifestProof, VerifyVerificationAssertion, Tallied, Listed;
    ghost var s := store.View();
    var opKey := store.GetKey(rec.proof.payload.keyId);
    var proofCheck := KeyUnavailable;
    if opKey.Some? { proofCheck := CheckOf(VerifyManifestProof(p, rec.proof, rec.manifest, opKey.value, now)); }
    var stored := store.ListAssertionsForSubject(p, rec.agentId);
    var views: seq<AssertionView> := [];
    var level := L1;
    var valid := 0;
    NothingTallied(p, s, rec, now);
    for i := 0 to |stored|
      invariant Tallied(p, s, rec, stored[..i], now, views, valid, level)
    {
      var a := stored[i];
      var auKey := store.GetKey(a.payload.keyId);
      var check := KeyUnavailable;
      if auKey.Some? { check := CheckOf(VerifyVerificationAssertion(p, a, auKey.value, now, Some(rec.manifest))); }
      assert stored[..i + 1] == stored[..i] + [a];
      OneMoreView(p, s, rec, stored[..i], a, now, views, valid, level);
      views := views + [AssertionView(a, check)];
      if check.Passed? {
        valid := valid + 1;
        if Rank(a.payload.level) > Rank(level) { level := a.payload.level; }
      }
    }
    assert stored[..|stored|] == stored;
    Tally(p, s, rec, stored, now, views, valid, level);
    e := ResolutionEnvelope(rec, proofCheck, opKey, level, valid, |stored|, views);
  }

  /** What the loop has built from a list of assertions. */
  ghost predicate Tallied(p: Platform, s: State, rec: AgentRecord, xs: seq<VerificationAssertion>, now: Text,
                          views: seq<AssertionView>, valid: nat, level: Level)
  {
    && views == ViewsOf(p, s, rec, xs, now) && valid == CountPassed(p, s, rec, xs, now)
    && IsHighest(p, s, rec, xs, now, level)
  }

  lemma NothingTallied(p: Platform, s: State, rec: AgentRecord, now: Text)
    ensures Tallied(p, s, rec, [], now, [], 0, L1)
  {
    hide AssertionCheck;
  }

  lemma Tally(p: Platform, s: State, rec: AgentRecord, xs: seq<VerificationAssertion>, now: Text,
              views: seq<AssertionView>, valid: nat, level: Level)
    requires Tallied(p, s, rec, xs, now, views, valid, level)
    ensures views == ViewsOf(p, s, rec, xs, now) && valid == CountPassed(p, s, rec, xs, now)
    ensures IsHighest(p, s, rec, xs, now, level)
  {
    hide CountPassed, ViewsOf, IsHighest;
  }

  lemma OneMoreView(p: Platform, s: State, rec: AgentRecord, xs: seq<VerificationAssertion>, a: VerificationAssertion,
                    now: Text, views: seq<AssertionView>, valid: nat, level: Level)
    requires Tallied(p, s, rec, xs, now, views, valid, level)
    ensures var check := AssertionCheck(p, s, rec, a, now);
            Tallied(p, s, rec, xs + [a], now, views + [AssertionView(a, check)],
                    valid + (if check.Passed? then 1 else 0),
                    if check.Passed? && Rank(a.payload.level) > Rank(level) then a.payload.level else level)
  {
    ViewsOneMore(p, s, rec, xs, a, now);
    CountOneMore(p, s, rec, xs, a, now);
    HighestOneMore(p, s, rec, xs, a, now, level);
  }

  lemma ViewsOneMore(p: Platform, s: State, rec: AgentRecord, xs: seq<VerificationAssertion>, a: VerificationAssertion,
                     now: Text)
    ensures ViewsOf(p, s, rec, xs + [a], now)
         == ViewsOf(p, s, rec, xs, now) + [AssertionView(a, AssertionCheck(p, s, rec, a, now))]
  {}

  lemma CountOneMore(p: Platform, s: State, rec: AgentRecord, xs: seq<VerificationAssertion>, a: VerificationAssertion,
                     now: Text)
    ensures CountPassed(p, s, rec, xs + [a], now)
         == CountPassed(p, s, rec, xs, now) + (if AssertionCheck(p, s, rec, a, now).Passed? then 1 else 0)
  {
    assert (xs + [a])[..|xs|] == xs;
  }

  /** One assertion of the list passes. */
  predicate PassesIn(p: Platform, s: State, rec: AgentRecord, xs: seq<VerificationAssertion>, now: Text,
                     a: VerificationAssertion)
  {
    a in xs && AssertionCheck(p, s, rec, a, now).Passed?
  }

  lemma HighestOneMore(p: Platform, s: State, rec: AgentRecord, xs: seq<VerificationAssertion>,
                       a: VerificationAssertion, now: Text, level: Level)
    requires IsHighest(p, s, rec, xs, now, level)
    ensures IsHighest(p, s, rec, xs + [a], now,
                      if AssertionCheck(p, s, rec, a, now).Passed? && Rank(a.payload.level) > Rank(level)
                      then a.payload.level else level)
  {
    assert forall x :: PassesIn(p, s, rec, xs + [a], now, x) <==>
                       PassesIn(p, s, rec, xs, now, x) || (x == a && AssertionCheck(p, s, rec, a, now).Passed?);
  }

  // ---------------------------------------------------------------- in reachable states

  /** The assertions stored for an agent whose window contains `now`. */
  predicate Current(p: Platform, a: VerificationAssertion, id: Text, now: Text) {
    a.payload.subject == id && InWindow(p, now, a.payload.verifiedAt, a.payload.expiresAt)
  }

  function CountCurrent(p: Platform, xs: seq<VerificationAssertion>, id: Text, now: Text): nat {
    if xs == [] then 0 else (if Current(p, xs[0], id, now) then 1 else 0) + CountCurrent(p, xs[1..], id, now)
  }

  /** The check reports exactly where `now` lies: before the first date, after the second, or neither. */
  predicate TellsTheTime(p: Platform, check: Check, now: Text, from: Text, to: Text) {
    && (check == Failed(NotYetValid) <==> Earlier(p, now, from))
    && (check == Failed(Expired) <==> Earlier(p, to, now))
    && (check == Passed <==> InWindow(p, now, from, to))
  }

  lemma WindowTells(p: Platform, now: Text, from: Text, to: Text)
    requires Earlier(p, from, to)
    ensures TellsTheTime(p, CheckOf(WindowCheck(p, now, from, to)), now, from, to)
  {}

  /** A stored proof fails later only by the clock: `proof_check` says exactly where now lies in its window. */
  lemma ProofCheckIsTheWindow(p: Platform, s: State, id: Text, now: Text)
    requires Invariant(p, s) && id in s.agents
    ensures var rec := s.agents[id];
            TellsTheTime(p, ProofCheck(p, s, rec, now), now, rec.proof.payload.createdAt, rec.proof.payload.expiresAt)
  {
    hide VerifyManifestProof, ValidManifest, ValidKey, InService, WindowCheck, TellsTheTime;
    var rec := s.agents[id];
    assert AgentStands(p, s, id);
    ProofAcceptedIff(p, rec.proof, rec.manifest, s.keys[rec.proof.payload.keyId], now);
    ProofWindow(p, rec.proof);
    WindowTells(p, now, rec.proof.payload.createdAt, rec.proof.payload.expiresAt);
  }

  lemma ProofWindow(p: Platform, proof: ManifestProof)
    requires ValidProof(p, proof)
    ensures Earlier(p, proof.payload.createdAt, proof.payload.expiresAt)
  {}

  /** A stored assertion passes exactly when its window contains now, and otherwise says which end it is past. */
  lemma CheckIsCurrency(p: Platform, s: State, id: Text, a: VerificationAssertion, now: Text)
    requires Invariant(p, s) && id in s.agents && a in s.assertions && a.payload.subject == id
    ensures AssertionCheck(p, s, s.agents[id], a, now).Passed? <==> Current(p, a, id, now)
    ensures TellsTheTime(p, AssertionCheck(p, s, s.agents[id], a, now), now, a.payload.verifiedAt, a.payload.expiresAt)
  {
    hide VerifyVerificationAssertion, ValidAssertion, ValidManifest, ValidKey, InService, WindowCheck, InWindow;
    hide Earlier;
    assert StoredAssertionStands(p, s, a);
    AssertionAcceptedIff(p, a, s.keys[a.payload.keyId], now, Some(s.agents[id].manifest));
    AssertionWindow(p, a);
    WindowTells(p, now, a.payload.verifiedAt, a.payload.expiresAt);
  }

  lemma AssertionWindow(p: Platform, a: VerificationAssertion)
    requires ValidAssertion(p, a)
    ensures Earlier(p, a.payload.verifiedAt, a.payload.expiresAt)
  {}

  /** In any state at all: an object whose key is not published is so reported, and an assertion passes only under its
      published key, for the manifest on record. */
  lemma ChecksNeedTheKey(p: Platform, s: State, rec: AgentRecord, a: VerificationAssertion, now: Text)
    ensures ProofCheck(p, s, rec, now).KeyUnavailable? <==> rec.proof.payload.keyId !in s.keys
    ensures AssertionCheck(p, s, rec, a, now).KeyUnavailable? <==> a.payload.keyId !in s.keys
    ensures ProofCheck(p, s, rec, now).Passed? <==>
              && rec.proof.payload.keyId in s.keys
              && ProofStands(p, rec.proof, rec.manifest, s.keys[rec.proof.payload.keyId])
              && InWindow(p, now, rec.proof.payload.createdAt, rec.proof.payload.expiresAt)
    ensures AssertionCheck(p, s, rec, a, now).Passed? <==>
              && a.payload.keyId in s.keys
              && AssertionStands(p, a, s.keys[a.payload.keyId], Some(rec.manifest))
              && InWindow(p, now, a.payload.verifiedAt, a.payload.expiresAt)
  {
    hide VerifyManifestProof, VerifyVerificationAssertion, ProofStands, AssertionStands, InWindow;
    if rec.proof.payload.keyId in s.keys {
      ProofAcceptedIff(p, rec.proof, rec.manifest, s.keys[rec.proof.payload.keyId], now);
    }
    if a.payload.keyId in s.keys {
      AssertionAcceptedIff(p, a, s.keys[a.payload.keyId], now, Some(rec.manifest));
    }
  }

  function CountCurrentOf(p: Platform, xs: seq<VerificationAssertion>, id: Text, now: Text): nat {
    if xs == [] then 0
    else CountCurrentOf(p, xs[..|xs| - 1], id, now) + (if Current(p, xs[|xs| - 1], id, now) then 1 else 0)
  }

  lemma {:induction false} CountsAgree(p: Platform, xs: seq<VerificationAssertion>, id: Text, now: Text)
    ensures CountCurrentOf(p, xs, id, now) == CountCurrent(p, xs, id, now)
  {
    if xs != [] {
      var n := |xs| - 1;
      if n == 0 {
        assert xs[..0] == [] && xs[1..] == [];
      } else {
        CountsAgree(p, xs[..n], id, now);
        CountsAgree(p, xs[1..], id, now);
        CountsAgree(p, xs[1..][..n - 1], id, now);
        assert xs[..n][1..] == xs[1..][..n - 1];
      }
    }
  }

  lemma {:induction false} InsertCounts(p: Platform, a: VerificationAssertion, xs: seq<VerificationAssertion>,
                                        id: Text, now: Text)
    ensures CountCurrent(p, InsertByTime(p, a, xs), id, now)
         == CountCurrent(p, xs, id, now) + (if Current(p, a, id, now) then 1 else 0)
  {
    if xs == [] || p.collate(a.payload.verifiedAt, xs[0].payload.verifiedAt) {
      assert ([a] + xs)[1..] == xs;
    } else {
      InsertCounts(p, a, xs[1..], id, now);
      assert ([xs[0]] + InsertByTime(p, a, xs[1..]))[1..] == InsertByTime(p, a, xs[1..]);
    }
  }

  /** Filtering and sorting lose no assertion about the subject and count none twice. */
  lemma {:induction false} ListedCounts(p: Platform, xs: seq<VerificationAssertion>, id: Text, now: Text)
    ensures CountCurrent(p, Listed(p, xs, id), id, now) == CountCurrent(p, xs, id, now)
  {
    if xs != [] {
      ListedCounts(p, xs[1..], id, now);
      if xs[0].payload.subject == id { InsertCounts(p, xs[0], Listed(p, xs[1..], id), id, now); }
    }
  }

  /** On these assertions the checks say exactly which are current. */
  ghost predicate ChecksSayCurrent(p: Platform, s: State, id: Text, xs: seq<VerificationAssertion>, now: Text)
    requires id in s.agents
  {
    forall a :: a in xs ==>
      a in s.assertions && (AssertionCheck(p, s, s.agents[id], a, now).Passed? <==> Current(p, a, id, now))
  }

  lemma ListedChecks(p: Platform, s: State, id: Text, now: Text)
    requires Invariant(p, s) && id in s.agents
    ensures ChecksSayCurrent(p, s, id, Listed(p, s.assertions, id), now)
  {
    forall a | a in Listed(p, s.assertions, id)
      ensures a in s.assertions && (AssertionCheck(p, s, s.agents[id], a, now).Passed? <==> Current(p, a, id, now))
    {
      CheckIsCurrency(p, s, id, a, now);
    }
  }

  lemma {:induction false} PassedAreCurrent(p: Platform, s: State, id: Text, xs: seq<VerificationAssertion>, now: Text)
    requires id in s.agents && ChecksSayCurrent(p, s, id, xs, now)
    ensures CountPassed(p, s, s.agents[id], xs, now) == CountCurrentOf(p, xs, id, now)
  {
    if xs != [] {
      assert xs == xs[..|xs| - 1] + [xs[|xs| - 1]];
      PassedAreCurrent(p, s, id, xs[..|xs| - 1], now);
    }
  }

  lemma HighestIsLevel(p: Platform, s: State, id: Text, xs: seq<VerificationAssertion>, now: Text, level: Level)
    requires id in s.agents && ChecksSayCurrent(p, s, id, xs, now)
    requires forall a :: a in s.assertions && a.payload.subject == id ==> a in xs
    ensures IsHighest(p, s, s.agents[id], xs, now, level) <==> IsLevelOf(p, s, id, now, level)
  {
    assert forall a :: PassesIn(p, s, s.agents[id], xs, now, a) <==> a in s.assertions && Current(p, a, id, now);
  }

  /** The level an envelope must show: the highest among the current assertions about the agent, L1 if there is none. */
  predicate IsLevelOf(p: Platform, s: State, id: Text, now: Text, level: Level) {
    && (level == L1 || exists a :: a in s.assertions && Current(p, a, id, now) && a.payload.level == level)
    && forall a :: a in s.assertions && Current(p, a, id, now) ==> Rank(a.payload.level) <= Rank(level)
  }

  /** Some assertion of this level about the agent is current. */
  predicate Holds(p: Platform, s: State, id: Text, now: Text, level: Level) {
    exists a :: a in s.assertions && Current(p, a, id, now) && a.payload.level == level
  }

  /** So it is the deployment level if one is held, else the organization level, else the domain level, else that of a
      mere registration. */
  lemma LevelsInOrder(p: Platform, s: State, id: Text, now: Text, level: Level)
    ensures IsLevelOf(p, s, id, now, level) <==>
              level == (if Holds(p, s, id, now, L4) then L4 else if Holds(p, s, id, now, L3) then L3
                        else if Holds(p, s, id, now, L2) then L2 else L1)
  {
    hide Current;
    forall a | a in s.assertions && Current(p, a, id, now) ensures Holds(p, s, id, now, a.payload.level) {}
    forall l: Level | IsLevelOf(p, s, id, now, l) ensures l == L1 || Holds(p, s, id, now, l) {}
  }

  /** In every state a run can reach, `valid_assertions` is the exact number of stored assertions about the agent whose
      window contains now, and the level is the highest of theirs. */
  lemma EnvelopeIsExact(p: Platform, s: State, id: Text, now: Text, level: Level)
    requires Invariant(p, s) && id in s.agents
    ensures CountPassed(p, s, s.agents[id], Listed(p, s.assertions, id), now) == CountCurrent(p, s.assertions, id, now)
    ensures IsHighest(p, s, s.agents[id], Listed(p, s.assertions, id), now, level) <==> IsLevelOf(p, s, id, now, level)
  {
    var xs := Listed(p, s.assertions, id);
    ListedChecks(p, s, id, now);
    PassedAreCurrent(p, s, id, xs, now);
    CountsAgree(p, xs, id, now);
    ListedCounts(p, s.assertions, id, now);
    HighestIsLevel(p, s, id, xs, now, level);
  }

  lemma AgentAssertionBelowL4(p: Platform, a: VerificationAssertion)
    requires ValidAssertion(p, a) && IsAgentId(a.payload.subject)
    ensures a.payload.level != L4
  {
    hide IsAgentId, IsDeploymentId;
    if IsDeploymentId(a.payload.subject) { NamespacesDisjoint(a.payload.subject, Agents, Deployments); }
  }

  lemma StoredIsAboutAnAgent(p: Platform, s: State, a: VerificationAssertion)
    requires AgentsStand(p, s) && StoredAssertionStands(p, s, a)
    ensures ValidAssertion(p, a) && IsAgentId(a.payload.subject)
  {
    hide ValidAssertion, ValidKey, InService;
    assert AgentStands(p, s, a.payload.subject);
  }

  /** An agent's envelope never shows L4: only deployments may hold it, and no deployment is registered as an agent. */
  lemma NoAgentReachesL4(p: Platform, s: State, id: Text, now: Text, level: Level)
    requires Invariant(p, s) && id in s.agents && IsLevelOf(p, s, id, now, level)
    ensures level != L4
  {
    hide AgentsStand, StoredAssertionStands, ValidAssertion, IsAgentId;
    if level == L4 {
      var a :| a in s.assertions && Current(p, a, id, now) && a.payload.level == L4;
      StoredIsAboutAnAgent(p, s, a);
      AgentAssertionBelowL4(p, a);
    }
  }

  lemma {:induction false} CountGrows(p: Platform, xs: seq<VerificationAssertion>, more: seq<VerificationAssertion>,
                                      id: Text, now: Text)
    ensures CountCurrent(p, xs + more, id, now) >= CountCurrent(p, xs, id, now)
  {
    if xs != [] {
      assert (xs + more)[1..] == xs[1..] + more;
      CountGrows(p, xs[1..], more, id, now);
    }
  }

  /** At a fixed instant neither the level nor the count drops along a run. */
  lemma LevelNeverDrops(p: Platform, s: State, cs: seq<Command>, id: Text, now: Text, before: Level, after: Level)
    requires Invariant(p, s) && id in s.agents
    requires IsLevelOf(p, s, id, now, before) && IsLevelOf(p, Run(p, s, cs), id, now, after)
    ensures Rank(before) <= Rank(after)
    ensures CountCurrent(p, s.assertions, id, now) <= CountCurrent(p, Run(p, s, cs).assertions, id, now)
  {
    hide Invariant, Run, IsLevelOf, Rank, CountCurrent, Current;
    RunKeeps(p, s, cs);
    LevelGrows(p, s, Run(p, s, cs), id, now, before, after);
  }

  lemma LevelGrows(p: Platform, s: State, t: State, id: Text, now: Text, before: Level, after: Level)
    requires s.assertions <= t.assertions
    requires IsLevelOf(p, s, id, now, before) && IsLevelOf(p, t, id, now, after)
    ensures Rank(before) <= Rank(after)
    ensures CountCurrent(p, s.assertions, id, now) <= CountCurrent(p, t.assertions, id, now)
  {
    assert t.assertions == s.assertions + t.assertions[|s.assertions|..];
    CountGrows(p, s.assertions, t.assertions[|s.assertions|..], id, now);
    if before != L1 {
      var a :| a in s.assertions && Current(p, a, id, now) && a.payload.level == before;
      assert a in t.assertions;
    }
  }
}
