/** Health probes and clients together: what the probes' outcomes mean for the sticky routing. */
module HealthRouting {
  import opened Types
  import opened Registry
  import Affinity
  import Health
  import Hrw

  /** A step of the health checker, at a clock reading, or a step of a client or of the admin path. */
  datatype Event = Probe(step: Health.Step, at: Time) | Client(turn: Affinity.Step)

  datatype World = World(health: Health.World, affinity: Affinity.World)

  /** What a probe step does to the registry, as the scheduler sees it: a backend leaves, returns, or nothing. */
  function Change(h: Health.World, t: Health.Thresholds, step: Health.Step, at: Time): Option<Affinity.Step>
    requires Health.Enabled(h, step)
  {
    match step
    case Begin(_, _) => None
    case End(probe, r) =>
      var b := h.inFlight[probe];
      var status := Health.Record(Health.CountersOf(h.counters, b.id), t, r).1;
      if status == b.status then None
      else if status == Healthy then Some(Affinity.Return(b.id, at))
      else Some(Affinity.Leave(b.id, status))
  }

  /** A client's step is none that changes the registry. */
  predicate Allowed(w: World, t: Health.Thresholds, e: Event) {
    && w.affinity.versions != []
    && match e
       case Probe(step, at) => Health.Enabled(w.health, step) && Affinity.NotBefore(w.affinity.clock, at)
       case Client(turn) => !turn.Leave? && !turn.Return? && Affinity.Allowed(w.affinity, turn)
  }

  /** The registry table that the clients read is the one that the probes write. */
  predicate OneTable(w: World) {
    w.affinity.versions != [] && Affinity.Current(w.affinity) == w.health.table
  }

  function Next(score: Score, ttl: int, t: Health.Thresholds, w: World, e: Event)
    : (World, seq<Option<Affinity.Choice>>)
    requires Allowed(w, t, e)
  {
    match e
    case Probe(step, at) =>
      var change := Change(w.health, t, step, at);
      var affinity := if change.None? then w.affinity else Affinity.Next(score, ttl, w.affinity, change.value).0;
      (World(Health.Next(w.health, t, step), affinity), [])
    case Client(turn) =>
      var (affinity, answers) := Affinity.Next(score, ttl, w.affinity, turn);
      (w.(affinity := affinity), answers)
  }

  lemma StepKeepsOneTable(score: Score, ttl: int, t: Health.Thresholds, w: World, e: Event)
    requires OneTable(w) && Allowed(w, t, e)
    ensures OneTable(Next(score, ttl, t, w, e).0)
  {
  }

  predicate Run(score: Score, ttl: int, t: Health.Thresholds, w: World, events: seq<Event>)
    decreases events
  {
    events != [] ==> Allowed(w, t, events[0]) && Run(score, ttl, t, Next(score, ttl, t, w, events[0]).0, events[1..])
  }

  function Replies(score: Score, ttl: int, t: Health.Thresholds, w: World, events: seq<Event>): seq<Option<BackendInfo>>
    requires Run(score, ttl, t, w, events)
    decreases events
  {
    if events == [] then []
    else
      var (w', answers) := Next(score, ttl, t, w, events[0]);
      (if answers == [] then [] else [Affinity.Routed(answers[0])]) + Replies(score, ttl, t, w', events[1..])
  }

  /** No sticky table: each select is the rendezvous choice over what the probes so far have left healthy. */
  function ProbedReplies(score: Score, t: Health.Thresholds, h: Health.World,
                         events: seq<Event>): seq<Option<BackendInfo>>
    decreases events
  {
    if events == [] then []
    else match events[0]
      case Probe(step, _) =>
        ProbedReplies(score, t, if Health.Enabled(h, step) then Health.Next(h, t, step) else h, events[1..])
      case Client(turn) =>
        var rest := ProbedReplies(score, t, h, events[1..]);
        if turn.Select? then
          var cands := HealthyOf(h.table, turn.tier);
          [if cands == [] then None else Some(Hrw.Select(score, turn.s, cands))] + rest
        else rest
  }

  /** One reply for each select, and no others: a first event's reply comes before those of the rest. */
  lemma FirstReply(score: Score, t: Health.Thresholds, h: Health.World, events: seq<Event>)
    requires events != []
    ensures var e, rest := events[0], events[1..];
      && (e.Probe? && Health.Enabled(h, e.step) ==>
            ProbedReplies(score, t, h, events) == ProbedReplies(score, t, Health.Next(h, t, e.step), rest))
      && (e.Client? && !e.turn.Select? ==> ProbedReplies(score, t, h, events) == ProbedReplies(score, t, h, rest))
      && (e.Client? && e.turn.Select? ==>
            && |ProbedReplies(score, t, h, events)| == |ProbedReplies(score, t, h, rest)| + 1
            && ProbedReplies(score, t, h, events)[1..] == ProbedReplies(score, t, h, rest)
            && ProbedReplies(score, t, h, events)[0]
               == (if HealthyOf(h.table, e.turn.tier) == [] then None
                   else Some(Hrw.Select(score, e.turn.s, HealthyOf(h.table, e.turn.tier)))))
  {
  }

  /** The change a probe makes, or the client's step, is calm for the sticky table. */
  ghost predicate Calm(score: Score, t: Health.Thresholds, w: World, e: Event)
    requires Allowed(w, t, e)
  {
    match e
    case Probe(step, at) =>
      var change := Change(w.health, t, step, at);
      change.Some? ==> Affinity.Calm(score, w.affinity, change.value)
    case Client(turn) => Affinity.Calm(score, w.affinity, turn)
  }

  ghost predicate CalmRun(score: Score, ttl: int, t: Health.Thresholds, w: World, events: seq<Event>)
    requires Run(score, ttl, t, w, events)
    decreases events
  {
    events != [] ==>
      && Calm(score, t, w, events[0])
      && CalmRun(score, ttl, t, Next(score, ttl, t, w, events[0]).0, events[1..])
  }

  lemma AffinityStepKeepsAgreement(score: Score, ttl: int, w: Affinity.World, step: Affinity.Step)
    requires Affinity.Agreeing(score, w) && Affinity.Allowed(w, step) && Affinity.Calm(score, w, step)
    ensures Affinity.Agreeing(score, Affinity.Next(score, ttl, w, step).0)
  {
    match step {
      case Leave(id, status) => Affinity.LeavingKeepsAgreement(score, w, id, status);
      case Return(id, at) => Affinity.ReturningKeepsAgreement(score, w, id, at);
      case Select(s, tier, now, stamp) => Affinity.SelectIsHrw(score, ttl, w, s, tier, now, stamp);
      case Invalidate(s) =>
      case BackendDown(id, tier, seen) => Affinity.MigrationKeepsAgreement(score, w, id, tier, seen);
    }
  }

  lemma StepKeepsAgreement(score: Score, ttl: int, t: Health.Thresholds, w: World, e: Event)
    requires Allowed(w, t, e) && Affinity.Agreeing(score, w.affinity) && Calm(score, t, w, e)
    ensures Affinity.Agreeing(score, Next(score, ttl, t, w, e).0.affinity)
  {
    match e {
      case Probe(step, at) =>
        var change := Change(w.health, t, step, at);
        if change.Some? {
          AffinityStepKeepsAgreement(score, ttl, w.affinity, change.value);
        }
      case Client(turn) => AffinityStepKeepsAgreement(score, ttl, w.affinity, turn);
    }
  }

  /**
   * Probes and clients interleaved at will: as long as every change the probes make is calm, every select returns
   * what rendezvous hashing over the backends left healthy by the probes returns.
   */
  lemma {:induction false} ProbedRunsRouteByHrw(score: Score, ttl: int, t: Health.Thresholds, w: World,
                                                events: seq<Event>)
    requires OneTable(w) && Affinity.Agreeing(score, w.affinity)
    requires Run(score, ttl, t, w, events) && CalmRun(score, ttl, t, w, events)
    ensures Replies(score, ttl, t, w, events) == ProbedReplies(score, t, w.health, events)
    decreases events
  {
    if events == [] {
    } else {
      var e := events[0];
      StepKeepsAgreement(score, ttl, t, w, e);
      StepKeepsOneTable(score, ttl, t, w, e);
      ProbedRunsRouteByHrw(score, ttl, t, Next(score, ttl, t, w, e).0, events[1..]);
      if e.Client? && e.turn.Select? {
        Affinity.SelectIsHrw(score, ttl, w.affinity, e.turn.s, e.turn.tier, e.turn.now, e.turn.stamp);
      }
    }
  }

  // ---- Until a backend recovers ----

  /** The probe does not bring its backend back: it writes HEALTHY over no other status. */
  predicate RecoversNobody(h: Health.World, t: Health.Thresholds, step: Health.Step)
    requires Health.Enabled(h, step)
  {
    step.End? ==>
      var b := h.inFlight[step.probe];
      Health.Record(Health.CountersOf(h.counters, b.id), t, step.r).1 == Healthy ==> b.status == Healthy
  }

  predicate NobodyRecovers(score: Score, ttl: int, t: Health.Thresholds, w: World, events: seq<Event>)
    requires Run(score, ttl, t, w, events)
    decreases events
  {
    events != [] ==>
      && (events[0].Probe? ==> RecoversNobody(w.health, t, events[0].step))
      && NobodyRecovers(score, ttl, t, Next(score, ttl, t, w, events[0]).0, events[1..])
  }

  lemma {:induction false} NoRecoveryIsCalm(score: Score, ttl: int, t: Health.Thresholds, w: World, events: seq<Event>)
    requires Affinity.LeftBehind(w.affinity)
    requires Run(score, ttl, t, w, events) && NobodyRecovers(score, ttl, t, w, events)
    ensures CalmRun(score, ttl, t, w, events)
    decreases events
  {
    if events == [] {
    } else {
      var e := events[0];
      if e.Probe? {
        var change := Change(w.health, t, e.step, e.at);
        assert change.Some? ==> change.value.Leave?;
        if change.Some? {
          Affinity.LeavingStaysBehind(w.affinity, change.value.id, change.value.status);
        }
      }
      NoRecoveryIsCalm(score, ttl, t, Next(score, ttl, t, w, e).0, events[1..]);
    }
  }

  /**
   * From the start of the gateway on, whatever the clients do, until a probe brings a backend back. Failing probes are
   * covered, and so are the OK probes of a backend on its way up, such as a fresh one's first.
   */
  lemma RoutingHoldsUntilARecovery(score: Score, ttl: int, t: Health.Thresholds, table: seq<BackendInfo>,
                                 events: seq<Event>)
    requires UniqueIds(table)
    requires var w := World(Health.Start(table), Affinity.NewWorld(table));
      Run(score, ttl, t, w, events) && NobodyRecovers(score, ttl, t, w, events)
    ensures Replies(score, ttl, t, World(Health.Start(table), Affinity.NewWorld(table)), events)
         == ProbedReplies(score, t, Health.Start(table), events)
  {
    var w := World(Health.Start(table), Affinity.NewWorld(table));
    NoRecoveryIsCalm(score, ttl, t, w, events);
    ProbedRunsRouteByHrw(score, ttl, t, w, events);
  }

  /** With two successes required, a fresh backend's first OK probe takes it out of routing and recovers nobody. */
  lemma FirstSuccessRecoversNobody(b: BackendInfo, t: Health.Thresholds, probe: nat)
    requires b.status == Healthy && t.successesToUp >= 2
    ensures var begun := Health.Next(Health.Start([b]), t, Health.Begin(probe, b));
      var ended := Health.Next(begun, t, Health.End(probe, Health.Ok));
      RecoversNobody(begun, t, Health.End(probe, Health.Ok)) && ended.table == [b.(status := Degraded)]
  {
    assert Mark([b], b.id, Degraded) == [b.(status := Degraded)];
  }
}
