// The fixed-window limiter of packages/web/lib/rate-limit.ts: an in-process floor under a durable counter.
module RateLimit {
  import opened Prelude
  import opened Text
  import Numerals

  datatype Policy = Policy(name: Text, limit: nat, windowSeconds: nat, burst: nat) {
    function WindowMs(): nat { windowSeconds * 1000 }
  }

  /** The policy table. */
  function Policies(): seq<Policy> {
    [ Policy(T("register"), 30, 60, 10), Policy(T("bind-batch"), 10, 60, 5), Policy(T("relay"), 12, 60, 4),
      Policy(T("probe"), 40, 60, 15), Policy(T("read"), 240, 60, 80) ]
  }

  function Bucket(policy: Policy, subject: Text): Text { policy.name + T(":") + subject }

  const MEMORY_MAX_KEYS := 10_000

  /** A bucket's window; a window computed from an unparsable clock (None) equals no window, as NaN equals nothing. */
  datatype MemoryWindow = MemoryWindow(windowStart: Option<int>, count: nat)

  type Memory = map<Text, MemoryWindow>

  /** The start of the window an instant falls in. */
  function WindowStart(policy: Policy, t: int): int {
    if policy.windowSeconds == 0 then t else t / policy.WindowMs() * policy.WindowMs()
  }

  /** `Math.floor(nowMs / windowMs) * windowMs`; a window of no length gives NaN. */
  function WindowAt(policy: Policy, nowMs: Option<int>): Option<int> {
    match nowMs
    case Some(t) => if policy.windowSeconds == 0 then None else Some(WindowStart(policy, t))
    case None => None
  }

  predicate HasWindow(m: Memory, bucket: Text, start: Option<int>) {
    bucket in m && start.Some? && m[bucket].windowStart == start
  }

  /** The hit drops the whole generation. */
  predicate Clears(m: Memory, bucket: Text, start: Option<int>) {
    !HasWindow(m, bucket, start) && |m| >= MEMORY_MAX_KEYS
  }

  function AfterHit(m: Memory, bucket: Text, start: Option<int>): Memory {
    if HasWindow(m, bucket, start) then m[bucket := m[bucket].(count := m[bucket].count + 1)]
    else (if Clears(m, bucket, start) then map[] else m)[bucket := MemoryWindow(start, 1)]
  }

  predicate HitAdmitted(m: Memory, bucket: Text, start: Option<int>, burst: nat) {
    HasWindow(m, bucket, start) ==> m[bucket].count + 1 <= burst
  }

  // ---------------------------------------------------------------- the decision

  /** What the durable counter answers; `Failed` covers every way it cannot be consulted. */
  datatype Durable = Counted(allowed: bool, hits: nat, resetSeconds: nat) | Failed

  datatype Layer = Instance | Durably

  datatype Decision = Decision(
    allowed: bool,
    limit: nat,
    remaining: nat,
    resetSeconds: nat,
    refusedBy: Option<Layer>,
    degraded: bool)

  function NotBelowZero(n: int): nat { if n < 0 then 0 else n }

  function Decide(admitted: bool, policy: Policy, durable: Durable): Decision {
    if !admitted then Decision(false, policy.limit, 0, policy.windowSeconds, Some(Instance), false)
    else
      match durable
      case Counted(allowed, hits, reset) =>
        Decision(allowed, policy.limit, NotBelowZero(policy.limit - hits), reset,
                 if allowed then None else Some(Durably), false)
      case Failed => Decision(true, policy.limit, NotBelowZero(policy.burst - 1), policy.windowSeconds, None, true)
  }

  /** What a decision must say: the floor's refusal stands before the durable layer is asked, and the durable layer's
      answer, where it gave one, stands for what the floor admits. */
  predicate Answers(d: Decision, admitted: bool, policy: Policy, durable: Durable) {
    var asked := admitted && durable.Counted?;
    && (d.allowed <==> admitted && (durable.Counted? ==> durable.allowed))
    && (d.refusedBy == Some(Instance) <==> !admitted)
    && (d.refusedBy == Some(Durably) <==> asked && !durable.allowed)
    && (d.degraded <==> admitted && durable.Failed?)
    && d.limit == policy.limit && d.resetSeconds == (if asked then durable.resetSeconds else policy.windowSeconds)
    && (!admitted ==> d.remaining == 0)
    && (asked && durable.hits <= policy.limit ==> d.remaining + durable.hits == policy.limit)
    && (asked && durable.hits > policy.limit ==> d.remaining == 0)
    && (d.degraded && policy.burst > 0 ==> d.remaining + 1 == policy.burst)
    && (d.degraded && policy.burst == 0 ==> d.remaining == 0)
  }

  class Limiter {
    var memory: Memory

    constructor ()
      ensures memory == map[]
    {
      memory := map[];
    }

    method MemoryHit(bucket: Text, policy: Policy, nowMs: Option<int>) returns (admitted: bool)
      modifies this
      ensures memory == AfterHit(old(memory), bucket, WindowAt(policy, nowMs))
      ensures admitted == HitAdmitted(old(memory), bucket, WindowAt(policy, nowMs), policy.burst)
      ensures |old(memory)| <= MEMORY_MAX_KEYS ==> |memory| <= MEMORY_MAX_KEYS
    {
      SizeStaysBounded(memory, bucket, WindowAt(policy, nowMs));
      var windowStart := WindowAt(policy, nowMs);
      if bucket !in memory || memory[bucket].windowStart != windowStart || windowStart.None? {
        if |memory| >= MEMORY_MAX_KEYS {
          memory := map[];
        }
        memory := memory[bucket := MemoryWindow(windowStart, 1)];
        return true;
      }
      var existing := memory[bucket];
      existing := existing.(count := existing.count + 1);
      memory := memory[bucket := existing];
      admitted := existing.count <= policy.burst;
    }

    /** `checkRateLimit`; the durable layer is asked only about what the floor admits. */
    method CheckRateLimit(policy: Policy, subject: Text, nowMs: Option<int>, durable: Durable) returns (d: Decision)
      modifies this
      ensures memory == AfterHit(old(memory), Bucket(policy, subject), WindowAt(policy, nowMs))
      ensures var admitted := HitAdmitted(old(memory), Bucket(policy, subject), WindowAt(policy, nowMs), policy.burst);
              d == Decide(admitted, policy, durable) && Answers(d, admitted, policy, durable)
      ensures |old(memory)| <= MEMORY_MAX_KEYS ==> |memory| <= MEMORY_MAX_KEYS
    {
      var admitted := MemoryHit(Bucket(policy, subject), policy, nowMs);
      if !admitted {
        return Decision(false, policy.limit, 0, policy.windowSeconds, Some(Instance), false);
      }
      match durable
      case Counted(allowed, hits, reset) =>
        d := Decision(allowed, policy.limit, NotBelowZero(policy.limit - hits), reset,
                      if allowed then None else Some(Durably), false);
      case Failed =>
        d := Decision(true, policy.limit, NotBelowZero(policy.burst - 1), policy.windowSeconds, None, true);
    }
  }

  lemma SizeStaysBounded(m: Memory, bucket: Text, start: Option<int>)
    ensures |m| <= MEMORY_MAX_KEYS ==> |AfterHit(m, bucket, start)| <= MEMORY_MAX_KEYS
  {
    var base: Memory := if Clears(m, bucket, start) then map[] else m;
    var w := MemoryWindow(start, 1);
    assert base[bucket := w].Keys == base.Keys + {bucket};
    if HasWindow(m, bucket, start) { assert AfterHit(m, bucket, start).Keys == m.Keys; }
  }

  /** One hit counts in its own bucket and leaves the others alone, unless it opens a window in a map of 10 000 keys:
      then it is all that is left. */
  lemma HitCounts(m: Memory, bucket: Text, start: Option<int>)
    ensures var after := AfterHit(m, bucket, start);
            && bucket in after && after[bucket].windowStart == start
            && after[bucket].count == (if HasWindow(m, bucket, start) then m[bucket].count + 1 else 1)
            && (HasWindow(m, bucket, start) || |m| < 10_000 ==>
                  forall k :: k != bucket ==> (k in after <==> k in m) && (k in m ==> after[k] == m[k]))
            && (!HasWindow(m, bucket, start) && |m| >= 10_000 ==> forall k :: k in after ==> k == bucket)
  {}

  /** A clock that does not parse switches the floor off: every such hit is admitted. */
  lemma UnparsableClockAdmits(m: Memory, bucket: Text, policy: Policy)
    ensures HitAdmitted(m, bucket, WindowAt(policy, None), policy.burst)
    ensures !HasWindow(AfterHit(m, bucket, WindowAt(policy, None)), bucket, WindowAt(policy, None))
  {}

  // ---------------------------------------------------------------- buckets

  lemma {:induction false} NameBeforeColon(a: Text, x: Text, b: Text, y: Text)
    requires ':' as int !in a && ':' as int !in b && a + [':' as int] + x == b + [':' as int] + y
    ensures a == b && x == y
  {
    var s, t := a + [':' as int] + x, b + [':' as int] + y;
    if a == [] || b == [] {
      assert s[|a|] == ':' as int && t[|b|] == ':' as int;
      assert s[1..] == x && t[1..] == y;
    } else {
      assert s[1..] == a[1..] + [':' as int] + x && t[1..] == b[1..] + [':' as int] + y;
      NameBeforeColon(a[1..], x, b[1..], y);
      assert s[0] == a[0] && t[0] == b[0];
      assert a == [a[0]] + a[1..] && b == [b[0]] + b[1..];
    }
  }

  lemma PolicyNamesApart()
    ensures var ps := Policies(); Apart([ps[0].name, ps[1].name, ps[2].name, ps[3].name, ps[4].name])
  {}

  lemma PolicyNames()
    ensures forall q :: q in Policies() ==> ':' as int !in q.name && q.windowSeconds > 0
    ensures forall q, r :: q in Policies() && r in Policies() && q.name == r.name ==> q == r
  {
    forall q, r | q in Policies() && r in Policies() && q.name == r.name ensures q == r { OneNameEach(q, r); }
  }

  lemma OneNameEach(q: Policy, r: Policy)
    requires q in Policies() && r in Policies() && q.name == r.name
    ensures q == r
  {
    hide Summary;
    var ps := Policies();
    var names := [ps[0].name, ps[1].name, ps[2].name, ps[3].name, ps[4].name];
    var i :| 0 <= i < 5 && ps[i] == q;
    var j :| 0 <= j < 5 && ps[j] == r;
    PolicyNamesApart();
    assert names[i] == q.name && names[j] == r.name;
    assert Summary(names[i]) == Summary(names[j]);
    assert i == j;
  }

  /** No two policies of the table share a bucket. */
  lemma BucketDeterminesPolicy(a: Policy, x: Text, b: Policy, y: Text)
    requires a in Policies() && b in Policies() && Bucket(a, x) == Bucket(b, y)
    ensures a == b && x == y
  {
    PolicyNames();
    assert T(":") == [':' as int];
    NameBeforeColon(a.name, x, b.name, y);
  }

  // ---------------------------------------------------------------- runs

  /** One call of `checkRateLimit`, with whatever the durable layer answers. */
  datatype Call = Call(policy: Policy, subject: Text, now: int, durable: Durable)

  predicate FromTable(cs: seq<Call>) { forall c :: c in cs ==> c.policy in Policies() }

  function StartOf(c: Call): Option<int> { WindowAt(c.policy, Some(c.now)) }

  function MemoryStep(m: Memory, c: Call): Memory {
    AfterHit(m, Bucket(c.policy, c.subject), StartOf(c))
  }

  function MemoryAfter(m: Memory, cs: seq<Call>): Memory
    decreases |cs|
  {
    if cs == [] then m else MemoryAfter(MemoryStep(m, cs[0]), cs[1..])
  }

  predicate Allows(m: Memory, c: Call) {
    Decide(HitAdmitted(m, Bucket(c.policy, c.subject), StartOf(c), c.policy.burst), c.policy, c.durable).allowed
  }

  /** One client under one policy, during one window. */
  datatype Seat = Seat(policy: Policy, subject: Text, start: int) {
    function Key(): Text { Bucket(policy, subject) }
    function Capacity(): nat { if policy.burst == 0 then 1 else policy.burst }
  }

  predicate InSeat(s: Seat, c: Call) {
    c.policy == s.policy && c.subject == s.subject && StartOf(c) == Some(s.start)
  }

  /** How many calls of the seat are allowed. */
  function Allowed(s: Seat, m: Memory, cs: seq<Call>): nat
    decreases |cs|
  {
    if cs == [] then 0
    else (if InSeat(s, cs[0]) && Allows(m, cs[0]) then 1 else 0) + Allowed(s, MemoryStep(m, cs[0]), cs[1..])
  }

  /** Calls made by anyone during the window of the seat. */
  predicate Within(s: Seat, c: Call) { WindowStart(s.policy, c.now) == s.start }

  /** How many calls during the seat's window drop the generation. */
  function ClearsWithin(s: Seat, m: Memory, cs: seq<Call>): nat
    decreases |cs|
  {
    if cs == [] then 0
    else
      (if Within(s, cs[0]) && Clears(m, Bucket(cs[0].policy, cs[0].subject), StartOf(cs[0])) then 1 else 0)
      + ClearsWithin(s, MemoryStep(m, cs[0]), cs[1..])
  }

  predicate Ordered(cs: seq<Call>) { forall i, j :: 0 <= i <= j < |cs| ==> cs[i].now <= cs[j].now }

  /** A call is allowed exactly if the floor admits it and the durable layer, where it answers, allows it. */
  lemma AllowsIff(m: Memory, c: Call)
    ensures Allows(m, c) <==>
              && HitAdmitted(m, Bucket(c.policy, c.subject), StartOf(c), c.policy.burst)
              && (c.durable.Counted? ==> c.durable.allowed)
  {}

  /** How many calls of one client under one policy the durable layer did not deny. */
  function NotDenied(policy: Policy, subject: Text, cs: seq<Call>): nat {
    if cs == [] then 0
    else
      var c := cs[0];
      (if c.policy == policy && c.subject == subject && (c.durable.Counted? ==> c.durable.allowed) then 1 else 0)
      + NotDenied(policy, subject, cs[1..])
  }

  /** Over every run no more is allowed than the durable layer did not deny. */
  lemma {:induction false} DenialsStand(policy: Policy, subject: Text, m: Memory, cs: seq<Call>)
    ensures AllowedEver(policy, subject, m, cs) <= NotDenied(policy, subject, cs)
    decreases |cs|
  {
    if cs != [] {
      AllowsIff(m, cs[0]);
      DenialsStand(policy, subject, MemoryStep(m, cs[0]), cs[1..]);
    }
  }

  // ---------------------------------------------------------------- windows

  lemma WindowBounds(policy: Policy, t: int)
    requires policy.windowSeconds > 0
    ensures WindowStart(policy, t) <= t < WindowStart(policy, t) + policy.WindowMs()
  {}

  /** Windows are whole minutes. */
  lemma WindowAligned(policy: Policy, t: int)
    requires policy in Policies()
    ensures WindowStart(policy, t) % 60_000 == 0
  {
    assert policy.WindowMs() == 60_000;
  }

  lemma WindowMonotone(policy: Policy, t: int, u: int)
    requires t <= u
    ensures WindowStart(policy, t) <= WindowStart(policy, u)
  {
    if policy.windowSeconds > 0 {
      var w := policy.WindowMs();
      if t / w > u / w {
        Numerals.MulMonotone(u / w + 1, t / w, w);
        WindowBounds(policy, u);
        WindowBounds(policy, t);
      } else {
        Numerals.MulMonotone(t / w, u / w, w);
      }
    }
  }

  // ---------------------------------------------------------------- the bound

  /** How many calls the seat still has left in the current generation. */
  function Room(s: Seat, m: Memory): nat {
    if HasWindow(m, s.Key(), Some(s.start)) then NotBelowZero(s.Capacity() - m[s.Key()].count) else s.Capacity()
  }

  /** Before the window begins nothing of it has been used. */
  function RoomAhead(s: Seat, m: Memory, cs: seq<Call>): nat {
    if cs != [] && WindowStart(s.policy, cs[0].now) < s.start then s.Capacity() else Room(s, m)
  }

  /** Entries are created with a count of one. */
  predicate Counting(m: Memory) { forall k :: k in m ==> m[k].count >= 1 }

  lemma {:induction false} NoneAfterTheWindow(s: Seat, m: Memory, cs: seq<Call>)
    requires Ordered(cs) && s.policy in Policies() && (cs != [] ==> WindowStart(s.policy, cs[0].now) > s.start)
    ensures Allowed(s, m, cs) == 0 && ClearsWithin(s, m, cs) == 0
    decreases |cs|
  {
    if cs != [] {
      if |cs| > 1 { WindowMonotone(s.policy, cs[0].now, cs[1].now); }
      NoneAfterTheWindow(s, MemoryStep(m, cs[0]), cs[1..]);
    }
  }

  /** What one call during the window does to the room of a seat. */
  lemma RoomStep(s: Seat, m: Memory, c: Call)
    requires s.policy in Policies() && c.policy in Policies() && Within(s, c) && Counting(m)
    ensures Counting(MemoryStep(m, c))
    ensures var used := if InSeat(s, c) && Allows(m, c) then 1 else 0;
            var refill := if Clears(m, Bucket(c.policy, c.subject), StartOf(c)) then s.Capacity() else 0;
            used + Room(s, MemoryStep(m, c)) <= Room(s, m) + refill
  {
    PolicyNames();
    if Bucket(c.policy, c.subject) == s.Key() { BucketDeterminesPolicy(c.policy, c.subject, s.policy, s.subject); }
  }

  lemma StepCounts(m: Memory, c: Call)
    requires Counting(m)
    ensures Counting(MemoryStep(m, c))
  {}

  lemma OneMore(k: nat, n: nat)
    ensures k * (n + 1) == k * n + k
  {}

  /** From any memory: what a seat is allowed is its room plus a full burst for every time the generation is dropped. */
  lemma {:induction false} AllowedWithinRoom(s: Seat, m: Memory, cs: seq<Call>)
    requires FromTable(cs) && s.policy in Policies() && Ordered(cs) && Counting(m)
    ensures Allowed(s, m, cs) <= RoomAhead(s, m, cs) + s.Capacity() * ClearsWithin(s, m, cs)
    decreases |cs|
  {
    if cs != [] {
      var next, rest := MemoryStep(m, cs[0]), cs[1..];
      StepCounts(m, cs[0]);
      if rest != [] { WindowMonotone(s.policy, cs[0].now, rest[0].now); }
      if WindowStart(s.policy, cs[0].now) > s.start {
        NoneAfterTheWindow(s, m, cs);
      } else {
        AllowedWithinRoom(s, next, rest);
        if Within(s, cs[0]) { DuringTheWindow(s, m, cs); } else { BeforeTheWindow(s, m, cs); }
      }
    }
  }

  lemma BeforeTheWindow(s: Seat, m: Memory, cs: seq<Call>)
    requires cs != [] && WindowStart(s.policy, cs[0].now) < s.start
    requires var next := MemoryStep(m, cs[0]);
             Allowed(s, next, cs[1..]) <= RoomAhead(s, next, cs[1..]) + s.Capacity() * ClearsWithin(s, next, cs[1..])
    ensures Allowed(s, m, cs) <= RoomAhead(s, m, cs) + s.Capacity() * ClearsWithin(s, m, cs)
  {
    assert !InSeat(s, cs[0]) && !Within(s, cs[0]);
  }

  lemma DuringTheWindow(s: Seat, m: Memory, cs: seq<Call>)
    requires cs != [] && s.policy in Policies() && cs[0].policy in Policies() && Within(s, cs[0]) && Counting(m)
    requires |cs| > 1 ==> WindowStart(s.policy, cs[1].now) >= s.start
    requires var next := MemoryStep(m, cs[0]);
             Allowed(s, next, cs[1..]) <= RoomAhead(s, next, cs[1..]) + s.Capacity() * ClearsWithin(s, next, cs[1..])
    ensures Allowed(s, m, cs) <= RoomAhead(s, m, cs) + s.Capacity() * ClearsWithin(s, m, cs)
  {
    RoomStep(s, m, cs[0]);
    OneMore(s.Capacity(), ClearsWithin(s, MemoryStep(m, cs[0]), cs[1..]));
  }

  /** On every run with a clock that never goes back, whatever the durable layer does: during one window a client is
      allowed at most a burst, and a burst more for each time the map was emptied in that window. */
  lemma WindowBound(s: Seat, m: Memory, cs: seq<Call>)
    requires FromTable(cs) && s.policy in Policies() && Ordered(cs) && Counting(m)
    ensures Allowed(s, m, cs) <= s.policy.burst * (1 + ClearsWithin(s, m, cs))
  {
    hide Allowed, ClearsWithin, T;
    AllowedWithinRoom(s, m, cs);
    OneMore(s.Capacity(), ClearsWithin(s, m, cs));
  }

  /** The table's limits and bursts, by policy name. */
  predicate TableRow(name: Text, limit: nat, burst: nat) {
    || (name == T("register") && limit == 30 && burst == 10) || (name == T("bind-batch") && limit == 10 && burst == 5)
    || (name == T("relay") && limit == 12 && burst == 4) || (name == T("probe") && limit == 40 && burst == 15)
    || (name == T("read") && limit == 240 && burst == 80)
  }

  /** So in every minute a client may, unless the map was emptied, register 10 times, bind 5 batches, relay 4 times,
      probe 15 times and read 80 times, on one instance. */
  lemma MinuteBounds(s: Seat, m: Memory, cs: seq<Call>, limit: nat, burst: nat)
    requires FromTable(cs) && s.policy in Policies() && Ordered(cs) && Counting(m)
    requires TableRow(s.policy.name, limit, burst) && ClearsWithin(s, m, cs) == 0
    ensures s.policy.WindowMs() == 60_000 && s.policy.limit == limit && Allowed(s, m, cs) <= burst
  {
    WindowBound(s, m, cs);
    PolicyNamesApart();
    TableRowIs(s.policy, limit, burst);
  }

  lemma TableRowIs(policy: Policy, limit: nat, burst: nat)
    requires policy in Policies() && TableRow(policy.name, limit, burst)
    ensures policy.limit == limit && policy.burst == burst && policy.WindowMs() == 60_000
  {
    var names := [T("register"), T("bind-batch"), T("relay"), T("probe"), T("read")];
    assert Apart(names);
    var i :| 0 <= i < 5 && Policies()[i] == policy;
    assert policy.name == names[i];
    var j := if policy.name == names[0] then 0 else if policy.name == names[1] then 1
             else if policy.name == names[2] then 2 else if policy.name == names[3] then 3 else 4;
    assert Summary(names[i]) == Summary(names[j]);
    assert i == j;
  }

  /** Every run keeps the map within its cap. */
  lemma {:induction false} MapStaysBounded(m: Memory, cs: seq<Call>)
    requires |m| <= MEMORY_MAX_KEYS && Counting(m)
    ensures |MemoryAfter(m, cs)| <= MEMORY_MAX_KEYS && Counting(MemoryAfter(m, cs))
    decreases |cs|
  {
    if cs != [] {
      SizeStaysBounded(m, Bucket(cs[0].policy, cs[0].subject), StartOf(cs[0]));
      StepCounts(m, cs[0]);
      MapStaysBounded(MemoryStep(m, cs[0]), cs[1..]);
    }
  }

  // ---------------------------------------------------------------- exactly how many

  function Made(s: Seat, cs: seq<Call>): nat {
    if cs == [] then 0 else (if InSeat(s, cs[0]) then 1 else 0) + Made(s, cs[1..])
  }

  function Least(a: nat, b: nat): nat { if a < b then a else b }

  /** The durable layer refuses nothing: it allows, or cannot be reached. */
  predicate NeverDenied(cs: seq<Call>) { forall c :: c in cs ==> c.durable.Counted? ==> c.durable.allowed }

  lemma RoomStepExact(s: Seat, m: Memory, c: Call)
    requires s.policy in Policies() && c.policy in Policies() && Within(s, c) && Counting(m)
    requires !Clears(m, Bucket(c.policy, c.subject), StartOf(c)) && (c.durable.Counted? ==> c.durable.allowed)
    ensures InSeat(s, c) ==>
              (Allows(m, c) <==> Room(s, m) > 0) && Room(s, MemoryStep(m, c)) == NotBelowZero(Room(s, m) - 1)
    ensures !InSeat(s, c) ==> Room(s, MemoryStep(m, c)) == Room(s, m)
  {
    PolicyNames();
    if Bucket(c.policy, c.subject) == s.Key() { BucketDeterminesPolicy(c.policy, c.subject, s.policy, s.subject); }
  }

  lemma NoneMadeAfter(s: Seat, cs: seq<Call>)
    requires Ordered(cs) && s.policy in Policies() && (cs != [] ==> WindowStart(s.policy, cs[0].now) > s.start)
    ensures Made(s, cs) == 0
  {
    if |cs| > 1 { WindowMonotone(s.policy, cs[0].now, cs[1].now); }
  }

  /** The map holds no entry of the seat's window before that window begins. */
  predicate NotEarly(s: Seat, m: Memory, cs: seq<Call>) {
    cs != [] && WindowStart(s.policy, cs[0].now) < s.start ==> !HasWindow(m, s.Key(), Some(s.start))
  }

  lemma EarlyStep(s: Seat, m: Memory, c: Call)
    requires s.policy in Policies() && c.policy in Policies()
    requires WindowStart(s.policy, c.now) < s.start && !HasWindow(m, s.Key(), Some(s.start))
    ensures !HasWindow(MemoryStep(m, c), s.Key(), Some(s.start)) && !InSeat(s, c)
  {
    if Bucket(c.policy, c.subject) == s.Key() { BucketDeterminesPolicy(c.policy, c.subject, s.policy, s.subject); }
  }

  /** While the map is not emptied and the durable layer refuses nothing, the floor allows exactly its room: from an
      empty map, the first `burst` calls of the window. */
  lemma {:induction false} ExactlyTheRoom(s: Seat, m: Memory, cs: seq<Call>)
    requires FromTable(cs) && s.policy in Policies() && Ordered(cs) && Counting(m) && NeverDenied(cs)
    requires NotEarly(s, m, cs) && ClearsWithin(s, m, cs) == 0
    ensures Allowed(s, m, cs) == Least(Made(s, cs), Room(s, m))
    decreases |cs|
  {
    if cs != [] {
      var next, rest := MemoryStep(m, cs[0]), cs[1..];
      StepCounts(m, cs[0]);
      if rest != [] { WindowMonotone(s.policy, cs[0].now, rest[0].now); }
      if WindowStart(s.policy, cs[0].now) > s.start {
        NoneAfterTheWindow(s, m, cs);
        NoneMadeAfter(s, cs);
      } else if Within(s, cs[0]) {
        ExactlyTheRoom(s, next, rest);
        RoomStepExact(s, m, cs[0]);
      } else {
        EarlyStep(s, m, cs[0]);
        ExactlyTheRoom(s, next, rest);
      }
    }
  }

  // ---------------------------------------------------------------- any interval of window length

  /** How many calls of one client under one policy are allowed, in whatever window. */
  function AllowedEver(policy: Policy, subject: Text, m: Memory, cs: seq<Call>): nat
    decreases |cs|
  {
    if cs == [] then 0
    else
      (if cs[0].policy == policy && cs[0].subject == subject && Allows(m, cs[0]) then 1 else 0)
      + AllowedEver(policy, subject, MemoryStep(m, cs[0]), cs[1..])
  }

  function Drops(m: Memory, cs: seq<Call>): nat
    decreases |cs|
  {
    if cs == [] then 0
    else
      (if Clears(m, Bucket(cs[0].policy, cs[0].subject), StartOf(cs[0])) then 1 else 0)
      + Drops(MemoryStep(m, cs[0]), cs[1..])
  }

  predicate During(policy: Policy, from: int, cs: seq<Call>) {
    forall c :: c in cs ==> from <= c.now < from + policy.WindowMs()
  }

  /** An interval as long as a window meets at most two windows. */
  lemma TwoWindows(policy: Policy, from: int, t: int)
    requires policy in Policies() && from <= t < from + policy.WindowMs()
    ensures WindowStart(policy, t)
         == WindowStart(policy, from) || WindowStart(policy, t) == WindowStart(policy, from) + policy.WindowMs()
  {
    assert policy.WindowMs() == 60_000;
  }

  lemma {:induction false} IntervalSplits(policy: Policy, subject: Text, from: int, m: Memory, cs: seq<Call>)
    requires policy in Policies() && During(policy, from, cs)
    ensures var first := Seat(policy, subject, WindowStart(policy, from));
            var second := first.(start := first.start + policy.WindowMs());
            && AllowedEver(policy, subject, m, cs) == Allowed(first, m, cs) + Allowed(second, m, cs)
            && Drops(m, cs) == ClearsWithin(first, m, cs) + ClearsWithin(second, m, cs)
    decreases |cs|
  {
    hide Policies, Allows, Clears, MemoryStep, WindowStart, Bucket;
    if cs != [] {
      PolicyNames();
      TwoWindows(policy, from, cs[0].now);
      IntervalSplits(policy, subject, from, MemoryStep(m, cs[0]), cs[1..]);
    }
  }

  /** In any interval of window length a client is allowed at most two bursts, and one more per emptying of the map;
      the calls before the interval may be any. */
  lemma IntervalBound(policy: Policy, subject: Text, from: int, m: Memory, cs: seq<Call>)
    requires policy in Policies() && During(policy, from, cs) && FromTable(cs) && Ordered(cs) && Counting(m)
    ensures AllowedEver(policy, subject, m, cs) <= policy.burst * (2 + Drops(m, cs))
  {
    var first := Seat(policy, subject, WindowStart(policy, from));
    var second := first.(start := first.start + policy.WindowMs());
    IntervalSplits(policy, subject, from, m, cs);
    WindowBound(first, m, cs);
    WindowBound(second, m, cs);
    Distribute(policy.burst, 1 + ClearsWithin(first, m, cs), 1 + ClearsWithin(second, m, cs));
  }

  lemma Distribute(k: nat, a: nat, b: nat)
    ensures k * a + k * b == k * (a + b)
  {}

  /** The allowances of a run, cut anywhere, add up. */
  lemma {:induction false} RunSplits(policy: Policy, subject: Text, m: Memory, before: seq<Call>, cs: seq<Call>)
    ensures AllowedEver(policy, subject, m, before + cs)
         == AllowedEver(policy, subject, m, before) + AllowedEver(policy, subject, MemoryAfter(m, before), cs)
    decreases |before|
  {
    if before == [] {
      assert before + cs == cs;
    } else {
      assert (before + cs)[1..] == before[1..] + cs;
      RunSplits(policy, subject, MemoryStep(m, before[0]), before[1..], cs);
    }
  }
}
