/** Per-tier concurrency limits: the queues, the permit table, and every interleaving of requests over them. */
module Admission {
  import opened Types

  /** One value for each tier the controller serves. */
  datatype PerTier<T> = PerTier(small: T, big: T) {
    function At(t: Tier): T
      requires t != Auto
    {
      if t == Small then small else big
    }

    function Set(t: Tier, x: T): PerTier<T>
      requires t != Auto
    {
      if t == Small then PerTier(x, big) else PerTier(small, x)
    }
  }

  // ---- The controller as a value ----

  /** A tier's semaphore value and waiting count. */
  datatype Queue = Queue(free: int, queued: int)

  /** held maps a session to the tier whose permit it holds. */
  datatype Controller = Controller(queues: PerTier<Queue>, held: map<SessionId, Tier>, maxQueue: int) {
    function Free(t: Tier): int
      requires t != Auto
    {
      queues.At(t).free
    }

    function Queued(t: Tier): int
      requires t != Auto
    {
      queues.At(t).queued
    }

    function Adjust(t: Tier, dFree: int, dQueued: int): Controller
      requires t != Auto
    {
      this.(queues := queues.Set(t, Queue(Free(t) + dFree, Queued(t) + dQueued)))
    }
  }

  datatype GateResult = OverBudget | NoBackend | NoQueue | QueueFull | Enqueued

  /** What gate decides before its first suspension; there is a queue for Small and Big only. */
  function GateAnswer(c: Controller, tier: Tier, withinBudget: bool, anyHealthy: bool): GateResult {
    if !withinBudget then OverBudget
    else if !anyHealthy then NoBackend
    else if tier == Auto then NoQueue
    else if c.Queued(tier) >= c.maxQueue then QueueFull
    else Enqueued
  }

  /** The wait ends with a permit, and the session is recorded as its holder. */
  function Admit(c: Controller, s: SessionId, tier: Tier): Controller
    requires tier != Auto
  {
    c.Adjust(tier, -1, -1).(held := c.held[s := tier])
  }

  /** release: the recorded tier gets its permit back, whatever tier the caller names. */
  function Release(c: Controller, s: SessionId): Controller
    requires s in c.held ==> c.held[s] != Auto
  {
    if s in c.held then c.Adjust(c.held[s], 1, 0).(held := c.held - {s}) else c
  }

  // ---- Requests over the controller ----

  /** Orphaned: admitted, but neither the completion nor the stream generator ever starts, so nothing releases. */
  datatype Phase = Waiting | Running | Orphaned

  datatype Request = Request(s: SessionId, tier: Tier, phase: Phase)

  /**
   * Three tallies the code does not keep: holder records of the tier overwritten by a later grant; finished
   * requests of the tier whose release gave no permit of that tier back; permits of the tier given back by
   * the release of a request of another tier.
   */
  datatype Tally = Tally(overwritten: nat, lost: nat, strayed: nat)

  /** The controller, the requests in flight, the ids ever used, and the tallies. */
  datatype System = System(
    c: Controller,
    capacity: PerTier<int>,
    requests: map<nat, Request>,
    used: set<nat>,
    tally: PerTier<Tally>)
  {
    function Note(t: Tier, dOverwritten: nat, dLost: nat, dStrayed: nat): PerTier<Tally>
      requires t != Auto
    {
      var y := tally.At(t);
      tally.Set(t, Tally(y.overwritten + dOverwritten, y.lost + dLost, y.strayed + dStrayed))
    }
  }

  datatype Step =
    | Arrive(id: nat, s: SessionId, tier: Tier, withinBudget: bool, anyHealthy: bool)
    | Grant(id: nat)
    | TimeOut(id: nat)
    | Cancel(id: nat)
    | Finish(id: nat)
    | Orphan(id: nat)

  predicate InPhase(sys: System, id: nat, p: Phase) {
    id in sys.requests && sys.requests[id].phase == p
  }

  predicate WellFormed(sys: System) {
    && (forall s :: s in sys.c.held ==> sys.c.held[s] != Auto)
    && (forall id :: id in sys.requests ==> sys.requests[id].tier != Auto && id in sys.used)
  }

  /** Whether a step can happen; a grant needs a free permit. */
  predicate Enabled(sys: System, step: Step)
    requires WellFormed(sys)
  {
    match step
    case Arrive(id, _, _, _, _) => id !in sys.used
    case Grant(id) => InPhase(sys, id, Waiting) && sys.c.Free(sys.requests[id].tier) > 0
    case TimeOut(id) => InPhase(sys, id, Waiting)
    case Cancel(id) => InPhase(sys, id, Waiting)
    case Finish(id) => InPhase(sys, id, Running)
    case Orphan(id) => InPhase(sys, id, Running)
  }

  function Next(sys: System, step: Step): System
    requires WellFormed(sys) && Enabled(sys, step)
  {
    match step
    case Arrive(id, s, tier, withinBudget, anyHealthy) =>
      var seen := sys.(used := sys.used + {id});
      if GateAnswer(sys.c, tier, withinBudget, anyHealthy) == Enqueued then
        seen.(c := sys.c.Adjust(tier, 0, 1), requests := sys.requests[id := Request(s, tier, Waiting)])
      else seen
    case Grant(id) =>
      var r := sys.requests[id];
      sys.(c := Admit(sys.c, r.s, r.tier), requests := sys.requests[id := r.(phase := Running)],
           tally := if r.s in sys.c.held then sys.Note(sys.c.held[r.s], 1, 0, 0) else sys.tally)
    case TimeOut(id) => GiveUp(sys, id)
    case Cancel(id) => GiveUp(sys, id)
    case Finish(id) =>
      var r := sys.requests[id];
      var lost := sys.Note(r.tier, 0, 1, 0);
      sys.(c := Release(sys.c, r.s), requests := sys.requests - {id},
           tally := if r.s !in sys.c.held then lost
                    else if sys.c.held[r.s] == r.tier then sys.tally
                    else sys.(tally := lost).Note(sys.c.held[r.s], 0, 0, 1))
    case Orphan(id) => sys.(requests := sys.requests[id := sys.requests[id].(phase := Orphaned)])
  }

  function GiveUp(sys: System, id: nat): System
    requires WellFormed(sys) && InPhase(sys, id, Waiting)
  {
    sys.(c := sys.c.Adjust(sys.requests[id].tier, 0, -1), requests := sys.requests - {id})
  }

  // ---- Counting ----

  function Holders(held: map<SessionId, Tier>, tier: Tier): set<SessionId> {
    set s | s in held && held[s] == tier
  }

  function Waiters(rs: map<nat, Request>, tier: Tier): set<nat> {
    set id | id in rs && rs[id].tier == tier && rs[id].phase == Waiting
  }

  /** Admitted and not finished. */
  function Admitted(rs: map<nat, Request>, tier: Tier): set<nat> {
    set id | id in rs && rs[id].tier == tier && rs[id].phase != Waiting
  }

  /** Every permit of a tier is free, recorded as held, or was recorded so until another grant overwrote the record. */
  predicate Conserved(sys: System, t: Tier)
    requires t != Auto
  {
    sys.c.Free(t) + |Holders(sys.c.held, t)| + sys.tally.At(t).overwritten == sys.capacity.At(t)
  }

  /** The same permits counted by the requests they serve. */
  predicate Accounted(sys: System, t: Tier)
    requires t != Auto
  {
    |Admitted(sys.requests, t)| + sys.tally.At(t).lost == sys.capacity.At(t) - sys.c.Free(t) + sys.tally.At(t).strayed
  }

  /** The waiting count is exact and bounded, and the semaphore never goes below zero. */
  predicate DepthExact(sys: System, t: Tier)
    requires t != Auto
  {
    && sys.c.Queued(t) == |Waiters(sys.requests, t)|
    && (sys.c.Queued(t) == 0 || sys.c.Queued(t) <= sys.c.maxQueue)
    && sys.c.Free(t) >= 0
  }

  predicate IsLive(sys: System, id: nat, s: SessionId, tier: Tier) {
    id in sys.requests && sys.requests[id].s == s && sys.requests[id].tier == tier && sys.requests[id].phase != Waiting
  }

  ghost predicate Live(sys: System, s: SessionId, tier: Tier) {
    exists id :: IsLive(sys, id, s, tier)
  }

  /** A holder record implies an admitted, unfinished request of that session and tier. */
  ghost predicate HoldersLive(sys: System) {
    forall s :: s in sys.c.held ==> Live(sys, s, sys.c.held[s])
  }

  ghost predicate Invariant(sys: System) {
    && WellFormed(sys)
    && (forall t :: t != Auto ==> Conserved(sys, t) && Accounted(sys, t) && DepthExact(sys, t))
    && HoldersLive(sys)
  }

  /** A freshly built controller: all permits free, nobody waiting. */
  function Start(capacity: PerTier<int>, maxQueue: int): System {
    var none := Tally(0, 0, 0);
    System(Controller(PerTier(Queue(capacity.small, 0), Queue(capacity.big, 0)), map[], maxQueue),
           capacity, map[], {}, PerTier(none, none))
  }

  lemma StartHolds(capacity: PerTier<int>, maxQueue: int)
    requires capacity.small >= 0 && capacity.big >= 0
    ensures Invariant(Start(capacity, maxQueue))
  {
    var sys := Start(capacity, maxQueue);
    forall t | t != Auto ensures Conserved(sys, t) && Accounted(sys, t) && DepthExact(sys, t) {
      assert Holders(sys.c.held, t) == {};
      assert Waiters(sys.requests, t) == {};
      assert Admitted(sys.requests, t) == {};
    }
  }

  lemma SizeWithout<T>(a: set<T>, x: T)
    ensures |a| == |a - {x}| + if x in a then 1 else 0
  {
    if x in a {
      assert a == (a - {x}) + {x};
    } else {
      assert a - {x} == a;
    }
  }

  function One(b: bool): int {
    if b then 1 else 0
  }

  ghost predicate SameBut<T(!new), U>(m: map<T, U>, m': map<T, U>, x: T) {
    forall y :: y != x ==> (y in m' <==> y in m) && (y in m ==> m'[y] == m[y])
  }

  lemma Resized<T>(a: set<T>, b: set<T>, x: T)
    requires a - {x} == b - {x}
    ensures |b| == |a| + One(x in b) - One(x in a)
  {
    SizeWithout(a, x);
    SizeWithout(b, x);
  }

  /** How one request entering, changing phase or leaving moves the two counts. */
  lemma CountsAfter(rs: map<nat, Request>, rs': map<nat, Request>, id: nat, t: Tier)
    requires SameBut(rs, rs', id)
    ensures |Waiters(rs', t)| == |Waiters(rs, t)| + One(id in Waiters(rs', t)) - One(id in Waiters(rs, t))
    ensures |Admitted(rs', t)| == |Admitted(rs, t)| + One(id in Admitted(rs', t)) - One(id in Admitted(rs, t))
  {
    assert Waiters(rs, t) - {id} == Waiters(rs', t) - {id};
    Resized(Waiters(rs, t), Waiters(rs', t), id);
    assert Admitted(rs, t) - {id} == Admitted(rs', t) - {id};
    Resized(Admitted(rs, t), Admitted(rs', t), id);
  }

  lemma StepKeepsShape(sys: System, step: Step)
    requires WellFormed(sys) && Enabled(sys, step)
    ensures var sys' := Next(sys, step);
      && WellFormed(sys') && sys'.capacity == sys.capacity && sys'.c.maxQueue == sys.c.maxQueue
      && SameBut(sys.requests, sys'.requests, step.id)
  {
  }

  /** How the holder table's count moves when only one session's record changes. */
  lemma HoldersCount(held: map<SessionId, Tier>, held': map<SessionId, Tier>, s: SessionId, t: Tier)
    requires SameBut(held, held', s)
    ensures |Holders(held', t)|
         == |Holders(held, t)| + One(s in held' && held'[s] == t) - One(s in held && held[s] == t)
  {
    assert Holders(held, t) - {s} == Holders(held', t) - {s};
    Resized(Holders(held, t), Holders(held', t), s);
  }

  lemma FinishKeepsCounts(sys: System, id: nat, t: Tier)
    requires WellFormed(sys) && InPhase(sys, id, Running) && t != Auto
    requires Conserved(sys, t) && Accounted(sys, t) && DepthExact(sys, t)
    ensures var sys' := Next(sys, Finish(id)); Conserved(sys', t) && Accounted(sys', t) && DepthExact(sys', t)
  {
    var sys' := Next(sys, Finish(id));
    CountsAfter(sys.requests, sys'.requests, id, t);
    HoldersCount(sys.c.held, sys'.c.held, sys.requests[id].s, t);
  }

  lemma GrantKeepsCounts(sys: System, id: nat, t: Tier)
    requires WellFormed(sys) && Enabled(sys, Grant(id)) && t != Auto
    requires Conserved(sys, t) && Accounted(sys, t) && DepthExact(sys, t)
    ensures var sys' := Next(sys, Grant(id)); Conserved(sys', t) && Accounted(sys', t) && DepthExact(sys', t)
  {
    var sys' := Next(sys, Grant(id));
    CountsAfter(sys.requests, sys'.requests, id, t);
    HoldersCount(sys.c.held, sys'.c.held, sys.requests[id].s, t);
  }

  /** One step of one tier's counts. */
  lemma StepKeepsCounts(sys: System, step: Step, t: Tier)
    requires WellFormed(sys) && Enabled(sys, step) && t != Auto
    requires Conserved(sys, t) && Accounted(sys, t) && DepthExact(sys, t)
    ensures var sys' := Next(sys, step); Conserved(sys', t) && Accounted(sys', t) && DepthExact(sys', t)
  {
    match step {
      case Finish(id) => FinishKeepsCounts(sys, id, t);
      case Grant(id) => GrantKeepsCounts(sys, id, t);
      case _ =>
        StepKeepsShape(sys, step);
        CountsAfter(sys.requests, Next(sys, step).requests, step.id, t);
    }
  }

  lemma StepKeepsHoldersLive(sys: System, step: Step)
    requires WellFormed(sys) && Enabled(sys, step) && HoldersLive(sys)
    ensures HoldersLive(Next(sys, step))
  {
    var sys' := Next(sys, step);
    forall s | s in sys'.c.held ensures Live(sys', s, sys'.c.held[s]) {
      if step.Grant? && sys.requests[step.id].s == s {
        assert IsLive(sys', step.id, s, sys'.c.held[s]);
      } else {
        assert s in sys.c.held && sys'.c.held[s] == sys.c.held[s];
        var id :| IsLive(sys, id, s, sys.c.held[s]);
        assert IsLive(sys', id, s, sys.c.held[s]);
      }
    }
  }

  lemma StepKeepsInvariant(sys: System, step: Step)
    requires Invariant(sys) && Enabled(sys, step)
    ensures Invariant(Next(sys, step)) && Next(sys, step).capacity == sys.capacity
  {
    StepKeepsShape(sys, step);
    StepKeepsHoldersLive(sys, step);
    forall t | t != Auto
      ensures Conserved(Next(sys, step), t) && Accounted(Next(sys, step), t) && DepthExact(Next(sys, step), t)
    {
      StepKeepsCounts(sys, step, t);
    }
  }
}
