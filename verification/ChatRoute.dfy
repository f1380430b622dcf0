/** The life of one chat request: route, select, admit, call, release. */
module ChatRoute {
  import opened Types
  import opened Registry
  import opened Admission
  import opened Accountants
  import opened Controllers
  import opened Routing
  import Affinity
  import Scheduler

  /** How the upstream call ends; a cancelled call is not caught by the error handler. */
  datatype CallEnd = Answered | CallFailed | CallCancelled

  /** What the client gets: a status, or nothing because the request was cancelled. */
  datatype Reply = Status(code: nat) | Gone

  datatype Chunk = Data(bytes: string) | Done

  /** How the wait in the queue ends. */
  datatype WaitEnd = Granted | WaitTimedOut | WaitCancelled

  /** A state that the other requests may have brought the controller into. */
  ghost predicate Reachable(c: Controller, maxQueue: int) {
    c.maxQueue == maxQueue && forall s :: s in c.held ==> c.held[s] != Auto
  }

  /** _complete: whatever the call and meanwhile the other requests do, the finally part releases once. */
  method Complete(admission: AdmissionController, s: SessionId, tier: Tier, end: CallEnd, atEnd: Controller)
    returns (reply: Reply)
    requires admission.Valid() && Reachable(atEnd, admission.View().maxQueue)
    modifies admission, admission.big, admission.small
    ensures admission.Valid() && admission.View() == Release(atEnd, s)
    ensures reply == match end case Answered => Status(200) case CallFailed => Status(502) case CallCancelled => Gone
  {
    admission.Elapse(atEnd);
    if end == Answered {
      reply := Status(200);
    } else if end == CallFailed {
      reply := Status(502);
    } else {
      reply := Gone;
    }
    admission.Release(s, tier);
  }

  /**
   * _stream: the chunks that arrived are passed on in order; an upstream error adds the end marker, a closed
   * client does not; the first chunk is timed once; and the finally part releases once in every case.
   */
  method Stream(admission: AdmissionController, s: SessionId, tier: Tier, chunks: seq<Chunk>, end: CallEnd,
                atEnd: Controller)
    returns (sent: seq<Chunk>, timed: nat)
    requires admission.Valid() && Reachable(atEnd, admission.View().maxQueue)
    modifies admission, admission.big, admission.small
    ensures admission.Valid() && admission.View() == Release(atEnd, s)
    ensures sent == chunks + (if end == CallFailed then [Done] else [])
    ensures timed == if chunks == [] then 0 else 1
  {
    sent, timed := [], 0;
    var ttftRecorded := false;
    for k := 0 to |chunks|
      invariant sent == chunks[..k] && ttftRecorded == (k > 0) && timed == (if k > 0 then 1 else 0)
      invariant admission.Valid() && admission.View() == old(admission.View())
    {
      if !ttftRecorded {
        timed := timed + 1;
        ttftRecorded := true;
      }
      sent := sent + [chunks[k]];
    }
    assert sent == chunks;
    if end == CallFailed {
      sent := sent + [Done];
    }
    admission.Elapse(atEnd);
    admission.Release(s, tier);
  }

  /** What is done once admitted: one call, or a stream whose generator may never be started. */
  datatype Work = Whole(end: CallEnd) | Streamed(started: bool, chunks: seq<Chunk>, end: CallEnd)

  /** The reply to each answer of the gate, each end of the wait and each end of the call. */
  function ReplyTo(gate: GateResult, wait: WaitEnd, work: Work): Reply {
    match gate
    case OverBudget => Status(429)
    case NoBackend => Status(503)
    case NoQueue => Status(500)
    case QueueFull => Status(429)
    case Enqueued =>
      match wait
      case WaitTimedOut => Status(429)
      case WaitCancelled => Gone
      case Granted =>
        if work.Streamed? || work.end == Answered then Status(200)
        else if work.end == CallFailed then Status(502)
        else Gone
  }

  /** The controller when the request's wait ends and when its call or stream ends, after whatever others have done. */
  datatype Meanwhile = Meanwhile(atWake: Controller, atEnd: Controller)

  /** The others' doings keep the limit; a grant means that a permit of the tier is there to take. */
  ghost predicate Possible(others: Meanwhile, maxQueue: int, tier: Tier, wait: WaitEnd) {
    && Reachable(others.atWake, maxQueue) && Reachable(others.atEnd, maxQueue)
    && (wait == Granted && tier != Auto ==> others.atWake.Free(tier) > 0)
  }

  /**
   * Permits and holder table after the request: as before if the gate refused it; as when it woke, one waiting less,
   * if it gave up; as when it woke, with a permit taken and recorded, for a stream that is never started; else as when
   * it ended, with its session released.
   */
  function Settled(c: Controller, s: SessionId, tier: Tier, gate: GateResult, wait: WaitEnd, work: Work,
                   others: Meanwhile): Controller
    requires gate == Enqueued ==> tier != Auto
    requires s in others.atEnd.held ==> others.atEnd.held[s] != Auto
  {
    if gate != Enqueued then c
    else if wait != Granted then others.atWake.Adjust(tier, 0, -1)
    else if work.Streamed? && !work.started then Admit(others.atWake, s, tier)
    else Release(others.atEnd, s)
  }

  /** Nothing else happens while the request is suspended. */
  predicate Alone(c: Controller, s: SessionId, tier: Tier, others: Meanwhile)
    requires tier != Auto
  {
    others.atWake == c.Adjust(tier, 0, 1) && others.atEnd == Admit(others.atWake, s, tier)
  }

  /**
   * A request of a session without a record, alone on the controller, leaves it as it was, unless it is an admitted
   * stream that never starts.
   */
  lemma SettledAsBefore(c: Controller, s: SessionId, tier: Tier, gate: GateResult, wait: WaitEnd, work: Work,
                        others: Meanwhile)
    requires tier != Auto && s !in c.held && Alone(c, s, tier, others)
    ensures Settled(c, s, tier, gate, wait, work, others) == c
      <==> gate != Enqueued || wait != Granted || work.Whole? || work.started
  {
    assert c.held[s := tier] - {s} == c.held;
  }

  /**
   * What the settled controller holds, tier by tier. A refusal changes nothing. A wait given up leaves every permit
   * and record as it found them and lowers its tier's waiting count by one. A stream that never starts has taken a
   * permit of its tier, left the queue, and is recorded. Everything else gives one permit back, to the tier its session
   * is recorded with, exactly if it is recorded, and the record goes.
   */
  lemma SettledMeans(c: Controller, s: SessionId, tier: Tier, gate: GateResult, wait: WaitEnd, work: Work,
                     others: Meanwhile, t: Tier)
    requires (gate == Enqueued ==> tier != Auto) && t != Auto
    requires s in others.atEnd.held ==> others.atEnd.held[s] != Auto
    ensures var c' := Settled(c, s, tier, gate, wait, work, others);
      var wake, end := others.atWake, others.atEnd;
      var one := if t == tier then 1 else 0;
      && (gate != Enqueued ==> c' == c)
      && (gate == Enqueued && wait != Granted ==>
            c'.held == wake.held && c'.Free(t) == wake.Free(t) && c'.Queued(t) == wake.Queued(t) - one)
      && (gate == Enqueued && wait == Granted && work.Streamed? && !work.started ==>
            && c'.held == wake.held[s := tier]
            && c'.Free(t) == wake.Free(t) - one && c'.Queued(t) == wake.Queued(t) - one)
      && (gate == Enqueued && wait == Granted && (work.Whole? || work.started) ==>
            && c'.held == end.held - {s} && c'.Queued(t) == end.Queued(t)
            && c'.Free(t) == end.Free(t) + (if s in end.held && end.held[s] == t then 1 else 0))
  {
    if s !in others.atEnd.held {
      assert others.atEnd.held - {s} == others.atEnd.held;
    }
  }

  /**
   * The request's life is the admission protocol's. Its gate is an Arrive; giving up is a TimeOut or a Cancel of the
   * waiting request, a grant a Grant, and the end of its work a Finish, or for a stream that never starts an Orphan:
   * each from whatever reachable system has the controller found there.
   */
  lemma LifeFollowsTheProtocol(start: System, woken: System, ended: System, id: nat, s: SessionId, tier: Tier,
                               withinBudget: bool, anyHealthy: bool, wait: WaitEnd, work: Work)
    requires WellFormed(start) && id !in start.used
    requires WellFormed(woken) && WellFormed(ended)
    requires var gate := GateAnswer(start.c, tier, withinBudget, anyHealthy);
      gate == Enqueued ==>
        && id in woken.requests && woken.requests[id] == Request(s, tier, Waiting)
        && (wait == Granted ==> woken.c.Free(tier) > 0)
        && (wait == Granted ==> id in ended.requests && ended.requests[id] == Request(s, tier, Running))
    ensures var gate := GateAnswer(start.c, tier, withinBudget, anyHealthy);
      var settled := Settled(start.c, s, tier, gate, wait, work, Meanwhile(woken.c, ended.c));
      var arrived := Next(start, Arrive(id, s, tier, withinBudget, anyHealthy));
      && (gate != Enqueued ==> settled == arrived.c && id !in arrived.requests)
      && (gate == Enqueued ==>
            && arrived.requests == start.requests[id := Request(s, tier, Waiting)]
            && (wait == WaitTimedOut ==> settled == Next(woken, TimeOut(id)).c)
            && (wait == WaitCancelled ==> settled == Next(woken, Cancel(id)).c)
            && (wait == Granted && work.Streamed? && !work.started ==>
                  settled == Next(Next(woken, Grant(id)), Orphan(id)).c)
            && (wait == Granted && (work.Whole? || work.started) ==> settled == Next(ended, Finish(id)).c))
  {
    if GateAnswer(start.c, tier, withinBudget, anyHealthy) == Enqueued && wait == Granted {
      var granted := Next(woken, Grant(id));
      assert InPhase(granted, id, Running);
    }
  }

  /** The chunks the client of an admitted stream gets. */
  function SentBy(admitted: bool, work: Work): seq<Chunk> {
    if admitted && work.Streamed? && work.started then work.chunks + (if work.end == CallFailed then [Done] else [])
    else []
  }

  /** The call or the stream of an admitted request. */
  method Perform(admission: AdmissionController, s: SessionId, tier: Tier, work: Work, atEnd: Controller)
    returns (reply: Reply, sent: seq<Chunk>)
    requires admission.Valid() && Reachable(atEnd, admission.View().maxQueue)
    modifies admission, admission.big, admission.small
    ensures admission.Valid()
    ensures admission.View() ==
      if work.Streamed? && !work.started then old(admission.View()) else Release(atEnd, s)
    ensures reply == ReplyTo(Enqueued, Granted, work)
    ensures sent == SentBy(true, work)
  {
    sent := [];
    match work {
      case Whole(end) =>
        reply := Complete(admission, s, tier, end, atEnd);
      case Streamed(started, chunks, end) =>
        reply := Status(200);
        if started {
          var timed;
          sent, timed := Stream(admission, s, tier, chunks, end, atEnd);
        }
    }
  }

  /** The gate's answer to an agent with a history, for a tier with these healthy backends. */
  function GateFor(c: Controller, past: History, window: int, budget: int, estimated: int, now: Time, tier: Tier,
                   healthy: seq<BackendInfo>): GateResult
  {
    GateAnswer(c, tier, past.Usage(window, now) + estimated <= budget, healthy != [])
  }

  /** Which request gets which reply, and what the client of a stream gets. */
  lemma RepliesMean(c: Controller, past: History, window: int, budget: int, estimated: int, now: Time, tier: Tier,
                    healthy: seq<BackendInfo>, wait: WaitEnd, work: Work)
    ensures var gate := GateFor(c, past, window, budget, estimated, now, tier, healthy);
      var reply := ReplyTo(gate, wait, work);
      var funded := past.Usage(window, now) + estimated <= budget;
      var roomy := tier != Auto && c.Queued(tier) < c.maxQueue;
      var queued := funded && healthy != [] && roomy;
      var admitted := queued && wait == Granted;
      && (gate == Enqueued <==> queued)
      && (reply == Status(503) <==> funded && healthy == [])
      && (reply == Status(500) <==> funded && healthy != [] && tier == Auto)
      && (reply == Status(429) <==>
            !funded || (healthy != [] && tier != Auto && !roomy) || (queued && wait == WaitTimedOut))
      && (reply == Status(502) <==> admitted && work == Whole(CallFailed))
      && (reply == Status(200) <==> admitted && (work.Streamed? || work == Whole(Answered)))
      && (reply == Gone <==> (queued && wait == WaitCancelled) || (admitted && work == Whole(CallCancelled)))
  {
  }

  lemma SentMeans(admitted: bool, work: Work)
    ensures var sent := SentBy(admitted, work);
      && (!admitted || work.Whole? || !work.started ==> sent == [])
      && (admitted && work.Streamed? && work.started ==>
            && work.chunks <= sent
            && sent[|work.chunks|..] == (if work.end == CallFailed then [Done] else []))
  {
  }

  /** gate, then the call or the stream if it is passed; others may do anything to the controller meanwhile. */
  method AdmitAndCall(admission: AdmissionController, s: SessionId, agent: AgentId, estimated: int, tier: Tier,
                      wait: WaitEnd, work: Work, others: Meanwhile, now: Time)
    returns (reply: Reply, sent: seq<Chunk>)
    requires admission.Valid() && admission.accountant.Valid()
    requires Possible(others, admission.View().maxQueue, tier, wait)
    modifies admission, admission.big, admission.small, admission.accountant, admission.accountant.windows
    ensures admission.Valid() && admission.accountant.Valid()
    ensures var gate := GateFor(old(admission.View()), old(admission.accountant.Past(agent)),
                                admission.accountant.windowSeconds, admission.accountant.budget, estimated, now, tier,
                                HealthyOf(admission.registry.backends, tier));
      && admission.View() == Settled(old(admission.View()), s, tier, gate, wait, work, others)
      && reply == ReplyTo(gate, wait, work)
      && sent == SentBy(gate == Enqueued && wait == Granted, work)
    ensures admission.accountant.Past(agent).Ledger() == old(admission.accountant.Past(agent)).Ledger()
    ensures forall a :: a != agent ==> admission.accountant.Past(a) == old(admission.accountant.Past(a))
  {
    var gate := admission.GateEnter(agent, tier, estimated, now);
    sent := [];
    match gate {
      case OverBudget => reply := Status(429);
      case NoBackend => reply := Status(503);
      case NoQueue => reply := Status(500);
      case QueueFull => reply := Status(429);
      case Enqueued =>
        admission.Elapse(others.atWake);
        admission.GateResume(s, tier, wait == Granted);
        match wait {
          case WaitTimedOut => reply := Status(429);
          case WaitCancelled => reply := Gone;
          case Granted => reply, sent := Perform(admission, s, tier, work, others.atEnd);
        }
    }
  }

  /** What follows the select: an error reply if it found nobody, else gate and call. */
  method AdmitSelected(admission: AdmissionController, s: SessionId, agent: AgentId, estimated: int, tier: Tier,
                       selected: bool, wait: WaitEnd, work: Work, others: Meanwhile, now: Time)
    returns (reply: Reply, sent: seq<Chunk>)
    requires admission.Valid() && admission.accountant.Valid()
    requires Possible(others, admission.View().maxQueue, tier, wait)
    requires selected <==> HealthyOf(admission.registry.backends, tier) != []
    modifies admission, admission.big, admission.small, admission.accountant, admission.accountant.windows
    ensures admission.Valid() && admission.accountant.Valid()
    ensures var gate := GateFor(old(admission.View()), old(admission.accountant.Past(agent)),
                                admission.accountant.windowSeconds, admission.accountant.budget, estimated, now, tier,
                                HealthyOf(admission.registry.backends, tier));
      && admission.View() == Settled(old(admission.View()), s, tier, gate, wait, work, others)
      && sent == SentBy(gate == Enqueued && wait == Granted, work)
      && reply == (if selected then ReplyTo(gate, wait, work) else Status(503))
    ensures reply == Status(503) <==> !selected
    ensures admission.accountant.Past(agent).Ledger() == old(admission.accountant.Past(agent)).Ledger()
  {
    if !selected {
      return Status(503), [];
    }
    reply, sent := AdmitAndCall(admission, s, agent, estimated, tier, wait, work, others, now);
  }

  /** Routing and affinity, the two stages before admission; there is no suspension between them. */
  method RouteAndSelect(router: TierRouter, scheduler: Scheduler.AffinityScheduler, s: SessionId,
                        rule: Option<(Tier, RoutingReason)>, classified: Tier, now: Time, stamp: Time)
    returns (d: Decision, candidates: seq<BackendInfo>, answer: Option<Affinity.Choice>)
    requires scheduler.Valid()
    modifies scheduler, scheduler.entries
    ensures scheduler.Valid()
    ensures d == Route(router.registry.backends, rule, classified)
    ensures candidates == HealthyOf(router.registry.backends, d.tier)
    ensures (scheduler.view, answer)
      == Affinity.SelectBackend(scheduler.score, scheduler.ttl, old(scheduler.view), s, d.tier, candidates, now, stamp)
  {
    d := router.Choose(rule, classified);
    candidates := router.registry.GetHealthyBackends(d.tier);
    answer := scheduler.SelectBackend(s, d.tier, candidates, now, stamp);
  }

  /**
   * A request, streaming or not, while others do anything to the controller. The permits and the holder table are
   * settled around what the others do; the agent's ledger is only read, never charged; the session's binding is the
   * one the select made, even when admission then turns the request away; and the reply is 503 exactly when the
   * decision's tier has no healthy backend, and otherwise the gate's, the wait's and the call's.
   */
  method ChatCompletion(router: TierRouter, scheduler: Scheduler.AffinityScheduler, admission: AdmissionController,
                        s: SessionId, agent: AgentId, estimated: int,
                        rule: Option<(Tier, RoutingReason)>, classified: Tier,
                        wait: WaitEnd, work: Work, others: Meanwhile, now: Time, stamp: Time, checked: Time)
    returns (reply: Reply, sent: seq<Chunk>)
    requires scheduler.Valid() && admission.Valid() && admission.accountant.Valid()
    requires admission.registry == router.registry
    requires Possible(others, admission.View().maxQueue, Route(router.registry.backends, rule, classified).tier, wait)
    modifies scheduler, scheduler.entries
    modifies admission, admission.big, admission.small, admission.accountant, admission.accountant.windows
    ensures scheduler.Valid() && admission.Valid() && admission.accountant.Valid()
    ensures var d := Route(router.registry.backends, rule, classified);
      var cands := HealthyOf(router.registry.backends, d.tier);
      var gate := GateFor(old(admission.View()), old(admission.accountant.Past(agent)),
                          admission.accountant.windowSeconds, admission.accountant.budget, estimated, checked, d.tier,
                          cands);
      && scheduler.view
         == Affinity.SelectBackend(scheduler.score, scheduler.ttl, old(scheduler.view), s, d.tier, cands, now, stamp).0
      && admission.View() == Settled(old(admission.View()), s, d.tier, gate, wait, work, others)
      && sent == SentBy(gate == Enqueued && wait == Granted, work)
      && reply == (if cands == [] then Status(503) else ReplyTo(gate, wait, work))
      && (reply == Status(503) <==> cands == [])
    ensures admission.accountant.Past(agent).Ledger() == old(admission.accountant.Past(agent)).Ledger()
  {
    ghost var before, past := admission.View(), admission.accountant.Past(agent);
    var d, candidates, answer := RouteAndSelect(router, scheduler, s, rule, classified, now, stamp);
    assert admission.View() == before && admission.accountant.Past(agent) == past && admission.accountant.Valid();
    ghost var table := scheduler.view;
    reply, sent := AdmitSelected(admission, s, agent, estimated, d.tier, answer.Some?, wait, work, others, checked);
    assert scheduler.view == table && scheduler.Valid();
  }
}
