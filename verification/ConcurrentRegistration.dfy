// Registration requests in flight at the same time (packages/api/src/app.ts): each handler runs to its next
// `await`, so any two may interleave between store calls.
module ConcurrentRegistration {
  import opened Prelude
  import opened Text
  import opened Objects
  import opened Registry

  /** Where a handler stands: before its checks, or after the store call named. */
  datatype Phase = Arrived | ChecksPassed | KeyRead | AgentCreated | KeyPut | KeyEventAppended | Succeeded | Rejected

  /** A request: the key and record it would store, and the failure its own checks find, if any. */
  datatype Request = Request(key: KeyDocument, record: AgentRecord, failure: Option<ApiError>, phase: Phase)

  function Arriving(p: Platform, b: RegisterBody, serverNow: int, written: int): Request {
    Request(b.key, RecordOf(p, b, p.toIso(written)), RegisterFailure(p, b, serverNow), Arrived)
  }

  /** The store and the requests in flight; `log` holds the events appended since the requests arrived. */
  datatype World = World(
    agents: map<Text, AgentRecord>,
    keys: map<Text, KeyDocument>,
    log: seq<Event>,
    requests: seq<Request>)

  function Moved(w: World, i: nat, phase: Phase): (w2: World)
    requires i < |w.requests|
    ensures |w2.requests| == |w.requests| && forall k :: 0 <= k < |w.requests| && k != i ==>
              w2.requests[k] == w.requests[k]
  {
    w.(requests := w.requests[i := w.requests[i].(phase := phase)])
  }

  function PublishedEvent(r: Request): Event { KeyPublished(r.record.agentId, r.record.registeredAt, r.key.keyId) }

  function RegisteredEvent(r: Request)
    : Event { AgentRegistered(r.record.agentId, r.record.registeredAt, r.record.manifestDigest) }

  /** Request `i` makes its next store call. */
  function Advance(w: World, i: nat): (w2: World)
    requires i < |w.requests|
    ensures |w2.requests| == |w.requests| && forall k :: 0 <= k < |w.requests| && k != i ==>
              w2.requests[k] == w.requests[k]
  {
    var r := w.requests[i];
    match r.phase
    case Arrived => Moved(w, i, if r.failure.Some? then Rejected else ChecksPassed)
    case ChecksPassed =>
      Moved(w, i, if r.key.keyId in w.keys && w.keys[r.key.keyId] != r.key then Rejected else KeyRead)
    case KeyRead =>
      if r.record.agentId in w.agents then Moved(w, i, Rejected)
      else Moved(w.(agents := w.agents[r.record.agentId := r.record]), i, AgentCreated)
    case AgentCreated => Moved(w.(keys := w.keys[r.key.keyId := r.key]), i, KeyPut)
    case KeyPut => Moved(w.(log := w.log + [PublishedEvent(r)]), i, KeyEventAppended)
    case KeyEventAppended => Moved(w.(log := w.log + [RegisteredEvent(r)]), i, Succeeded)
    case Succeeded => w
    case Rejected => w
  }

  /** The requests move in the order a schedule names them. */
  function Interleave(w: World, schedule: seq<nat>): World
    decreases |schedule|
  {
    if schedule == [] then w
    else Interleave(if schedule[0] < |w.requests| then Advance(w, schedule[0]) else w, schedule[1..])
  }

  // ---------------------------------------------------------------- counting events

  function Registrations(log: seq<Event>, id: Text): nat {
    if log == [] then 0
    else
      var last := log[|log| - 1];
      Registrations(log[..|log| - 1], id) + (if last.AgentRegistered? && last.agentId == id then 1 else 0)
  }

  function Publications(log: seq<Event>, id: Text): nat {
    if log == [] then 0
    else
      var last := log[|log| - 1];
      Publications(log[..|log| - 1], id) + (if last.KeyPublished? && last.agentId == id then 1 else 0)
  }

  lemma OneMoreEvent(log: seq<Event>, e: Event, id: Text)
    ensures Registrations(log + [e], id)
         == Registrations(log, id) + (if e.AgentRegistered? && e.agentId == id then 1 else 0)
    ensures Publications(log + [e], id) == Publications(log, id) + (if e.KeyPublished? && e.agentId == id then 1 else 0)
  {
    assert (log + [e])[..|log|] == log;
  }

  // ---------------------------------------------------------------- the invariant

  /** The request created the agent. */
  predicate Won(r: Request) {
    r.phase.AgentCreated? || r.phase.KeyPut? || r.phase.KeyEventAppended? || r.phase.Succeeded?
  }

  /** Request `i` is the one that created agent `id`. */
  predicate Winner(w: World, i: int, id: Text) {
    0 <= i < |w.requests| && Won(w.requests[i]) && w.requests[i].record.agentId == id
  }

  /** How far the events about an agent have come when its winner stands at `phase`. */
  predicate EventsFit(w: World, phase: Phase, id: Text) {
    && Publications(w.log, id) == (if phase.KeyEventAppended? || phase.Succeeded? then 1 else 0)
    && Registrations(w.log, id) == (if phase.Succeeded? then 1 else 0)
  }

  /** Seen from one agent id: whoever won did so alone, and left its record and its events. */
  ghost predicate Settled(before: map<Text, AgentRecord>, w: World, id: Text) {
    && (forall i, j :: Winner(w, i, id) && Winner(w, j, id) ==> i == j)
    && (forall i :: Winner(w, i, id) ==>
          && id !in before && id in w.agents && w.agents[id] == w.requests[i].record
          && EventsFit(w, w.requests[i].phase, id))
    && ((forall i :: !Winner(w, i, id)) ==> EventsFit(w, Arrived, id) && (id in w.agents <==> id in before))
    && (id in before ==> id in w.agents && w.agents[id] == before[id])
  }

  /** A step of a request touches only its own agent's record and its own agent's events. */
  lemma ElsewhereUntouched(w: World, i: nat, id: Text)
    requires i < |w.requests| && w.requests[i].record.agentId != id
    ensures var w2 := Advance(w, i);
            && (id in w2.agents <==> id in w.agents) && (id in w.agents ==> w2.agents[id] == w.agents[id])
            && Registrations(w2.log, id) == Registrations(w.log, id)
            && Publications(w2.log, id) == Publications(w.log, id)
            && w2.requests[i].record == w.requests[i].record
  {
    hide Registrations, Publications;
    OneMoreEvent(w.log, PublishedEvent(w.requests[i]), id);
    OneMoreEvent(w.log, RegisteredEvent(w.requests[i]), id);
  }

  lemma SameSeenFrom(before: map<Text, AgentRecord>, w: World, w2: World, id: Text)
    requires Settled(before, w, id)
    requires (id in w2.agents <==> id in w.agents) && (id in w.agents ==> w2.agents[id] == w.agents[id])
    requires Registrations(w2.log, id) == Registrations(w.log, id)
    requires Publications(w2.log, id) == Publications(w.log, id)
    requires |w2.requests| == |w.requests| && forall k :: Winner(w2, k, id) <==> Winner(w, k, id)
    requires forall k :: Winner(w, k, id) ==> w2.requests[k] == w.requests[k]
    ensures Settled(before, w2, id)
  {
    assert EventsFit(w2, Arrived, id) <==> EventsFit(w, Arrived, id);
    forall k | Winner(w2, k, id) ensures EventsFit(w2, w2.requests[k].phase, id) {
      assert Winner(w, k, id) && EventsFit(w, w.requests[k].phase, id);
    }
    assert (forall k :: !Winner(w2, k, id)) ==> forall k :: !Winner(w, k, id);
  }

  /** A step of a request about another agent. */
  lemma AdvanceElsewhere(before: map<Text, AgentRecord>, w: World, i: nat, id: Text)
    requires i < |w.requests| && Settled(before, w, id) && w.requests[i].record.agentId != id
    ensures Settled(before, Advance(w, i), id)
  {
    ElsewhereUntouched(w, i, id);
    SameSeenFrom(before, w, Advance(w, i), id);
  }

  /** A step of a request that has not won. */
  lemma AdvanceLosing(before: map<Text, AgentRecord>, w: World, i: nat, id: Text)
    requires i < |w.requests| && Settled(before, w, id) && w.requests[i].record.agentId == id && !Won(w.requests[i])
    ensures Settled(before, Advance(w, i), id)
  {
    hide Registrations, Publications;
    var w2 := Advance(w, i);
    assert forall k :: k != i ==> (Winner(w2, k, id) <==> Winner(w, k, id));
    assert !Winner(w, i, id);
    if Won(w2.requests[i]) {
      assert Winner(w2, i, id) && id !in w.agents;
      assert forall k :: !Winner(w, k, id);
    } else {
      assert !Winner(w2, i, id);
      hide Settled, EventsFit;
      SameSeenFrom(before, w, w2, id);
    }
  }

  /** A step of the request that won. */
  lemma AdvanceWinning(before: map<Text, AgentRecord>, w: World, i: nat, id: Text)
    requires i < |w.requests| && Settled(before, w, id) && w.requests[i].record.agentId == id && Won(w.requests[i])
    ensures Settled(before, Advance(w, i), id)
  {
    hide Registrations, Publications;
    var r, w2 := w.requests[i], Advance(w, i);
    assert Winner(w, i, id) && Winner(w2, i, id);
    assert forall k :: k != i ==> (Winner(w2, k, id) <==> Winner(w, k, id));
    OneMoreEvent(w.log, PublishedEvent(r), id);
    OneMoreEvent(w.log, RegisteredEvent(r), id);
  }

  lemma {:induction false} InterleaveSettles(before: map<Text, AgentRecord>, w: World, schedule: seq<nat>, id: Text)
    requires Settled(before, w, id)
    ensures Settled(before, Interleave(w, schedule), id)
    decreases |schedule|
  {
    if schedule != [] {
      var i := schedule[0];
      if i < |w.requests| {
        if w.requests[i].record.agentId != id { AdvanceElsewhere(before, w, i, id); }
        else if Won(w.requests[i]) { AdvanceWinning(before, w, i, id); }
        else { AdvanceLosing(before, w, i, id); }
      }
      InterleaveSettles(before, if i < |w.requests| then Advance(w, i) else w, schedule[1..], id);
    }
  }

  /** The world in which a set of requests has just arrived at a store. */
  predicate JustArrived(w: World) {
    w.log == [] && forall i :: 0 <= i < |w.requests| ==> w.requests[i].phase.Arrived?
  }

  /** Request `i` registered agent `id`. */
  predicate SucceededFor(w: World, i: int, id: Text) {
    0 <= i < |w.requests| && w.requests[i].phase.Succeeded? && w.requests[i].record.agentId == id
  }

  /** Any number of requests, interleaved in any way: at most one succeeds per agent id, an earlier registration
      always wins, the winner's record stays, and a success leaves exactly one event of each kind. */
  lemma AtMostOneWins(w: World, schedule: seq<nat>, id: Text, i: int, j: int)
    requires JustArrived(w)
    ensures var end := Interleave(w, schedule);
            && (SucceededFor(end, i, id) && SucceededFor(end, j, id) ==> i == j)
            && (SucceededFor(end, i, id) ==>
                  id !in w.agents && id in end.agents && end.agents[id] == end.requests[i].record
                  && Registrations(end.log, id) == 1 && Publications(end.log, id) == 1)
            && (id in w.agents ==> id in end.agents && end.agents[id] == w.agents[id])
  {
    forall k ensures !Winner(w, k, id) {}
    assert Settled(w.agents, w, id);
    InterleaveSettles(w.agents, w, schedule, id);
    var end := Interleave(w, schedule);
    assert SucceededFor(end, i, id) ==> Winner(end, i, id);
    assert SucceededFor(end, j, id) ==> Winner(end, j, id);
  }

  /** From the moment a record is stored, no interleaving overwrites it. */
  lemma {:induction false} RecordsStay(w: World, schedule: seq<nat>, id: Text)
    requires id in w.agents
    ensures id in Interleave(w, schedule).agents && Interleave(w, schedule).agents[id] == w.agents[id]
    decreases |schedule|
  {
    if schedule != [] {
      RecordsStay(if schedule[0] < |w.requests| then Advance(w, schedule[0]) else w, schedule[1..], id);
    }
  }

  // ---------------------------------------------------------------- keys

  /** The request has passed its key check with another document under the id, and will store it unless it is refused
      as an agent already registered. */
  predicate WillReplace(w: World, r: Request, keyId: Text)
    requires keyId in w.keys
  {
    && r.key.keyId == keyId && r.key != w.keys[keyId]
    && (r.phase.AgentCreated? || (r.phase.KeyRead? && r.record.agentId !in w.agents))
  }

  predicate NoneWillReplace(w: World, keyId: Text)
    requires keyId in w.keys
  {
    forall i :: 0 <= i < |w.requests| ==> !WillReplace(w, w.requests[i], keyId)
  }

  predicate KeepsKey(w: World, end: World, keyId: Text)
    requires keyId in w.keys
  {
    keyId in end.keys && end.keys[keyId] == w.keys[keyId]
  }

  lemma AdvanceKeepsKey(w: World, i: nat, keyId: Text)
    requires keyId in w.keys && i < |w.requests| && NoneWillReplace(w, keyId)
    ensures KeepsKey(w, Advance(w, i), keyId) && NoneWillReplace(Advance(w, i), keyId)
  {
    var w2 := Advance(w, i);
    assert !WillReplace(w, w.requests[i], keyId);
    forall k | 0 <= k < |w2.requests| ensures !WillReplace(w2, w2.requests[k], keyId) {
      assert !WillReplace(w, w.requests[k], keyId);
    }
  }

  lemma {:induction false} InterleavingKeepsKey(w: World, schedule: seq<nat>, keyId: Text)
    requires keyId in w.keys && NoneWillReplace(w, keyId)
    ensures KeepsKey(w, Interleave(w, schedule), keyId)
    decreases |schedule|
  {
    if schedule != [] {
      if schedule[0] < |w.requests| { AdvanceKeepsKey(w, schedule[0], keyId); }
      InterleavingKeepsKey(if schedule[0] < |w.requests| then Advance(w, schedule[0]) else w, schedule[1..], keyId);
    }
  }

  /** Two steps of a request past its key check store its document. */
  lemma ReplacesIn(w: World, i: nat, keyId: Text)
    requires keyId in w.keys && i < |w.requests| && WillReplace(w, w.requests[i], keyId)
    ensures w.requests[i].phase.AgentCreated? ==> !KeepsKey(w, Interleave(w, [i]), keyId)
    ensures w.requests[i].phase.KeyRead? ==> !KeepsKey(w, Interleave(w, [i, i]), keyId)
  {
    var next := Advance(w, i);
    assert [i][1..] == [] && [i, i][1..] == [i];
    assert Interleave(w, [i]) == Advance(w, i);
    if w.requests[i].phase.KeyRead? {
      assert next.requests[i].phase.AgentCreated?;
      assert Interleave(next, [i]) == Advance(next, i);
      assert Interleave(w, [i, i]) == Interleave(next, [i]);
    }
  }

  /** A published key outlives every interleaving exactly when no request in flight has already passed its key check
      with another document under the id. */
  lemma KeyStaysIff(w: World, keyId: Text)
    requires keyId in w.keys
    ensures (forall schedule :: KeepsKey(w, Interleave(w, schedule), keyId)) <==> NoneWillReplace(w, keyId)
  {
    if NoneWillReplace(w, keyId) {
      forall schedule ensures KeepsKey(w, Interleave(w, schedule), keyId) { InterleavingKeepsKey(w, schedule, keyId); }
    } else {
      var i :| 0 <= i < |w.requests| && WillReplace(w, w.requests[i], keyId);
      ReplacesIn(w, i, keyId);
    }
  }

  /** So a key published before the requests arrived stays, whatever they do. */
  lemma PublishedBeforeStays(w: World, schedule: seq<nat>, keyId: Text)
    requires JustArrived(w) && keyId in w.keys
    ensures KeepsKey(w, Interleave(w, schedule), keyId)
  {
    InterleavingKeepsKey(w, schedule, keyId);
  }

  /** One interleaving of the two requests in flight stores `earlier` under the key id, then `later` over it, and
      both requests succeed. */
  predicate KeyIsReplaced(w: World, keyId: Text, earlier: KeyDocument, later: KeyDocument) {
    var first := Interleave(w, [0, 0, 1, 1, 0, 0]);
    var second := Interleave(first, [1, 1]);
    var end := Interleave(second, [0, 0, 1, 1]);
    && keyId in first.keys && first.keys[keyId] == earlier
    && keyId in second.keys && second.keys[keyId] == later
    && keyId in end.keys && end.keys[keyId] == later
    && |end.requests| == 2 && end.requests[0].phase.Succeeded? && end.requests[1].phase.Succeeded?
  }

  /** Two requests for different agents with different documents under one new key id: both pass their key check before
      either stores, both succeed, and the second document ends up stored. */
  lemma KeyReplaced(w: World, a: Request, b: Request)
    requires w.requests == [a, b] && JustArrived(w) && a.failure.None? && b.failure.None?
    requires a.key.keyId == b.key.keyId && a.key != b.key && a.key.keyId !in w.keys
    requires a.record.agentId != b.record.agentId && a.record.agentId !in w.agents && b.record.agentId !in w.agents
    ensures KeyIsReplaced(w, a.key.keyId, a.key, b.key)
  {
    hide Advance, Interleave, Twice;
    var w2 := Passed(Passed(w, 0), 1);
    BothPass(w, a, b);
    BothPassed(w, a, b);
    var w3 := Stored(w2, 0);
    var w4 := Stored(w3, 1);
    StoresTwice(w2, 0);
    StoresTwice(w3, 1);
    TwiceIs(w2, 0, []);
    TwiceIs(w3, 1, []);
    assert [0, 0] + [] == [0, 0] && [1, 1] + [] == [1, 1];
    BothFinish(w4);
  }

  /** Two requests with record and key stored go on to succeed, and touch no key. */
  lemma BothFinish(w: World)
    requires |w.requests| == 2 && w.requests[0].phase.KeyPut? && w.requests[1].phase.KeyPut?
    ensures var end := Interleave(w, [0, 0, 1, 1]);
            && end.keys == w.keys && |end.requests| == 2
            && end.requests[0].phase.Succeeded? && end.requests[1].phase.Succeeded?
  {
    hide Interleave;
    var next := Twice(w, 0);
    TwiceIs(w, 0, [1, 1]);
    TwiceIs(next, 1, []);
    assert [0, 0] + [1, 1] == [0, 0, 1, 1] && [1, 1] + [] == [1, 1];
  }

  lemma PassingBody(p: Platform, b: RegisterBody, serverNow: int)
    requires RegisterFailure(p, b, serverNow).None?
    ensures b.key.controller == b.manifest.agentId
  {
    hide ValidManifest, ValidProof, ValidKey, RegistrationTime;
  }

  /** And for what two clients send: two register bodies that pass every check, about two unregistered agents, with one
      unpublished key id. */
  lemma BodiesReplaceKey(p: Platform, s: State, a: RegisterBody, b: RegisterBody, nowA: int, nowB: int, writtenA: int,
                         writtenB: int)
    requires RegisterFailure(p, a, nowA).None? && RegisterFailure(p, b, nowB).None?
    requires a.key.keyId == b.key.keyId && a.key.keyId !in s.keys
    requires a.manifest.agentId != b.manifest.agentId
    requires a.manifest.agentId !in s.agents && b.manifest.agentId !in s.agents
    ensures var w := World(s.agents, s.keys, [], [Arriving(p, a, nowA, writtenA), Arriving(p, b, nowB, writtenB)]);
            a.key != b.key && KeyIsReplaced(w, a.key.keyId, a.key, b.key)
  {
    hide KeyIsReplaced, RegisterFailure;
    PassingBody(p, a, nowA);
    PassingBody(p, b, nowB);
    var x, y := Arriving(p, a, nowA, writtenA), Arriving(p, b, nowB, writtenB);
    KeyReplaced(World(s.agents, s.keys, [], [x, y]), x, y);
  }

  lemma BothPassed(w: World, a: Request, b: Request)
    requires w.requests == [a, b]
    ensures var w2 := Passed(Passed(w, 0), 1);
            w2.requests == [a.(phase := KeyRead), b.(phase := KeyRead)] && w2.agents == w.agents && w2.keys == w.keys
  {}

  lemma BothPass(w: World, a: Request, b: Request)
    requires w.requests == [a, b] && JustArrived(w) && a.failure.None? && b.failure.None?
    requires a.key.keyId !in w.keys && b.key.keyId !in w.keys
    ensures Interleave(w, [0, 0, 1, 1, 0, 0]) == Interleave(Passed(Passed(w, 0), 1), [0, 0])
  {
    hide Advance, Interleave, Twice;
    PassesTwice(w, 0);
    PassesTwice(Passed(w, 0), 1);
    TwiceIs(w, 0, [1, 1, 0, 0]);
    TwiceIs(Passed(w, 0), 1, [0, 0]);
    assert [0, 0] + [1, 1, 0, 0] == [0, 0, 1, 1, 0, 0] && [1, 1] + [0, 0] == [1, 1, 0, 0];
  }

  /** Request `i` past its checks and its key check. */
  function Passed(w: World, i: nat): World
    requires i < |w.requests|
  {
    Moved(w, i, KeyRead)
  }

  /** Request `i` past storing its record and its key. */
  function Stored(w: World, i: nat): World
    requires i < |w.requests|
  {
    var r := w.requests[i];
    Moved(w.(agents := w.agents[r.record.agentId := r.record], keys := w.keys[r.key.keyId := r.key]), i, KeyPut)
  }

  lemma PassesTwice(w: World, i: nat)
    requires i < |w.requests| && w.requests[i].phase.Arrived? && w.requests[i].failure.None?
    requires w.requests[i].key.keyId !in w.keys
    ensures Twice(w, i) == Passed(w, i)
  {
    var r := w.requests[i];
    assert w.requests[i := r.(phase := ChecksPassed)][i := r.(phase := KeyRead)]
        == w.requests[i := r.(phase := KeyRead)];
  }

  lemma StoresTwice(w: World, i: nat)
    requires i < |w.requests| && w.requests[i].phase.KeyRead? && w.requests[i].record.agentId !in w.agents
    ensures Twice(w, i) == Stored(w, i)
  {
    var r := w.requests[i];
    assert w.requests[i := r.(phase := AgentCreated)][i := r.(phase := KeyPut)] == w.requests[i := r.(phase := KeyPut)];
  }

  function Twice(w: World, i: nat): World
    requires i < |w.requests|
  {
    Advance(Advance(w, i), i)
  }

  lemma TwiceIs(w: World, i: nat, rest: seq<nat>)
    requires i < |w.requests|
    ensures Interleave(w, [i, i] + rest) == Interleave(Twice(w, i), rest)
    ensures rest == [] ==> Interleave(w, [i, i] + rest) == Twice(w, i)
  {
    assert ([i, i] + rest)[1..] == [i] + rest && ([i] + rest)[1..] == rest;
  }

  // ---------------------------------------------------------------- one request alone

  /** A request alone in flight, run to its end. */
  function Alone(w: World): World
    requires |w.requests| == 1
  {
    Advance(Advance(Advance(Advance(Advance(Advance(w, 0), 0), 0), 0), 0), 0)
  }

  lemma AloneFails(w: World)
    requires |w.requests| == 1 && w.requests[0].phase.Arrived? && w.log == []
    requires var r := w.requests[0];
             r.failure.Some? || (r.key.keyId in w.keys && w.keys[r.key.keyId] != r.key) || r.record.agentId in w.agents
    ensures Alone(w).agents == w.agents && Alone(w).keys == w.keys && Alone(w).log == []
    ensures Alone(w).requests[0].phase.Rejected?
  {}

  lemma AloneSucceeds(w: World)
    requires |w.requests| == 1 && w.requests[0].phase.Arrived? && w.log == []
    requires var r := w.requests[0];
             && r.failure.None? && !(r.key.keyId in w.keys && w.keys[r.key.keyId] != r.key)
             && r.record.agentId !in w.agents
    ensures var r := w.requests[0];
            && Alone(w).agents == w.agents[r.record.agentId := r.record]
            && Alone(w).keys == w.keys[r.key.keyId := r.key]
            && Alone(w).log == [PublishedEvent(r), RegisteredEvent(r)] && Alone(w).requests[0].phase.Succeeded?
  {}

  /** Run without interruption, a request does what the handler as one step does. */
  lemma AloneIsTheHandler(p: Platform, s: State, b: RegisterBody, serverNow: int, written: int)
    ensures var end := Alone(World(s.agents, s.keys, [], [Arriving(p, b, serverNow, written)]));
            var (t, reply) := RegisterStep(p, s, b, serverNow, written);
            && end.agents == t.agents && end.keys == t.keys && s.events + end.log == t.events
            && (end.requests[0].phase.Succeeded? <==> reply.Registered?)
            && (end.requests[0].phase.Rejected? <==> reply.Refused?)
  {
    hide Alone, RegisterFailure;
    var r := Arriving(p, b, serverNow, written);
    var w := World(s.agents, s.keys, [], [r]);
    if r.failure.Some? || KeyTaken(s, b.key) || b.manifest.agentId in s.agents {
      AloneFails(w);
      assert s.events + [] == s.events;
    } else {
      AloneSucceeds(w);
      assert s.events + [PublishedEvent(r)] + [RegisteredEvent(r)]
          == s.events + [PublishedEvent(r), RegisteredEvent(r)];
    }
  }
}
