/** What holds in every state that any interleaving of gates and releases can reach. */
module AdmissionRuns {
  import opened Types
  import opened Admission

  predicate Run(sys: System, steps: seq<Step>)
    decreases steps
  {
    WellFormed(sys) &&
    (steps != [] ==>
      && Enabled(sys, steps[0])
      && Run(Next(sys, steps[0]), steps[1..]))
  }

  function After(sys: System, steps: seq<Step>): System
    requires Run(sys, steps)
    decreases steps
  {
    if steps == [] then sys else After(Next(sys, steps[0]), steps[1..])
  }

  lemma {:induction false} RunKeepsInvariant(sys: System, steps: seq<Step>)
    requires Invariant(sys) && Run(sys, steps)
    ensures Invariant(After(sys, steps)) && After(sys, steps).capacity == sys.capacity
    decreases steps
  {
    if steps == [] {
    } else {
      StepKeepsInvariant(sys, steps[0]);
      RunKeepsInvariant(Next(sys, steps[0]), steps[1..]);
    }
  }

  /**
   * Permit conservation in every reachable state: free permits, holder records and overwritten records of a
   * tier add up to its capacity, so the semaphore never exceeds its initial value and never goes below zero;
   * the waiting count is the number of waiting requests and stays within the limit.
   */
  lemma PermitsAreConserved(capacity: PerTier<int>, maxQueue: int, steps: seq<Step>, t: Tier)
    requires capacity.small >= 0 && capacity.big >= 0 && t != Auto
    requires Run(Start(capacity, maxQueue), steps)
    ensures var sys := After(Start(capacity, maxQueue), steps);
      && sys.c.Free(t) + |Holders(sys.c.held, t)| + sys.tally.At(t).overwritten == capacity.At(t)
      && 0 <= sys.c.Free(t) <= capacity.At(t)
      && sys.c.Queued(t) == |Waiters(sys.requests, t)|
      && 0 <= sys.c.Queued(t) <= (if maxQueue < 0 then 0 else maxQueue)
  {
    StartHolds(capacity, maxQueue);
    RunKeepsInvariant(Start(capacity, maxQueue), steps);
    RunKeepsLimit(Start(capacity, maxQueue), steps);
    var sys := After(Start(capacity, maxQueue), steps);
    assert Conserved(sys, t) && DepthExact(sys, t);
  }

  lemma {:induction false} RunKeepsLimit(sys: System, steps: seq<Step>)
    requires Run(sys, steps)
    ensures After(sys, steps).c.maxQueue == sys.c.maxQueue
    decreases steps
  {
    if steps == [] {
    } else {
      RunKeepsLimit(Next(sys, steps[0]), steps[1..]);
    }
  }

  // ---- Who gets past the gate ----

  /** An arrival starts waiting exactly when its budget, its backends, its tier and the room in its queue allow it. */
  lemma ArrivalWaitsExactlyWhen(sys: System, id: nat, s: SessionId, tier: Tier, withinBudget: bool, anyHealthy: bool)
    requires WellFormed(sys) && Enabled(sys, Arrive(id, s, tier, withinBudget, anyHealthy))
    ensures var sys' := Next(sys, Arrive(id, s, tier, withinBudget, anyHealthy));
      && (id in sys'.requests
          <==> withinBudget && anyHealthy && tier != Auto && sys.c.Queued(tier) < sys.c.maxQueue)
      && (id in sys'.requests ==> sys'.requests[id] == Request(s, tier, Waiting))
      && (id !in sys'.requests ==> sys'.c == sys.c && sys'.requests == sys.requests)
  {
    assert id !in sys.requests;
  }

  lemma {:induction false} UsedStaysGone(sys: System, steps: seq<Step>, id: nat)
    requires Run(sys, steps) && id in sys.used && id !in sys.requests
    ensures id !in After(sys, steps).requests
    decreases steps
  {
    if steps == [] {
    } else {
      StepKeepsShape(sys, steps[0]);
      UsedStaysGone(Next(sys, steps[0]), steps[1..], id);
    }
  }

  /** A request over its budget, without a healthy backend or wanting Auto is never waiting nor served. */
  lemma {:induction false} RefusedIsNeverServed(sys: System, steps: seq<Step>, i: nat)
    requires Run(sys, steps) && i < |steps| && steps[i].Arrive?
    requires !steps[i].withinBudget || !steps[i].anyHealthy || steps[i].tier == Auto
    ensures steps[i].id !in After(sys, steps).requests
    decreases steps
  {
    if i == 0 {
      UsedStaysGone(Next(sys, steps[0]), steps[1..], steps[0].id);
    } else {
      RefusedIsNeverServed(Next(sys, steps[0]), steps[1..], i - 1);
    }
  }

  /** Every request in flight arrived within its budget, with a healthy backend, on a tier that has a queue. */
  lemma {:induction false} InFlightPassedTheGate(sys: System, steps: seq<Step>, id: nat)
    requires Run(sys, steps) && id in After(sys, steps).requests && id !in sys.requests
    ensures var r := After(sys, steps).requests[id];
      r.tier != Auto && exists i :: 0 <= i < |steps| && steps[i] == Arrive(id, r.s, r.tier, true, true)
    decreases steps
  {
    if steps == [] {
      assert false;
    } else {
      var sys' := Next(sys, steps[0]);
      StepKeepsShape(sys, steps[0]);
      if id in sys'.requests {
        RequestStaysItself(sys', steps[1..], id);
        assert steps[0] == Arrive(id, sys'.requests[id].s, sys'.requests[id].tier, true, true);
      } else {
        InFlightPassedTheGate(sys', steps[1..], id);
        var r := After(sys, steps).requests[id];
        var i :| 0 <= i < |steps[1..]| && steps[1..][i] == Arrive(id, r.s, r.tier, true, true);
        assert steps[i + 1] == Arrive(id, r.s, r.tier, true, true);
      }
    }
  }

  lemma {:induction false} RequestStaysItself(sys: System, steps: seq<Step>, id: nat)
    requires Run(sys, steps) && id in sys.requests && id in After(sys, steps).requests
    ensures After(sys, steps).requests[id].s == sys.requests[id].s
    ensures After(sys, steps).requests[id].tier == sys.requests[id].tier
    decreases steps
  {
    if steps == [] {
    } else {
      var sys' := Next(sys, steps[0]);
      if id in sys'.requests {
        RequestStaysItself(sys', steps[1..], id);
      } else {
        UsedStaysGone(sys', steps[1..], id);
      }
    }
  }

  /** How often a tier's holder record was overwritten, over both tiers. */
  function Overwritten(sys: System): nat {
    sys.tally.small.overwritten + sys.tally.big.overwritten
  }

  lemma {:induction false} RunGrowsOverwritten(sys: System, steps: seq<Step>)
    requires Run(sys, steps)
    ensures Overwritten(sys) <= Overwritten(After(sys, steps))
    decreases steps
  {
    if steps == [] {
    } else {
      RunGrowsOverwritten(Next(sys, steps[0]), steps[1..]);
    }
  }

  // ---- Runs in which no two admitted requests share a session ----

  /** No two admitted requests share a session; waiting requests may. */
  predicate AdmittedApart(sys: System) {
    forall i, j | i in sys.requests && j in sys.requests && i != j
                  && sys.requests[i].phase != Waiting && sys.requests[j].phase != Waiting ::
      sys.requests[i].s != sys.requests[j].s
  }

  predicate NeverShares(sys: System, steps: seq<Step>)
    requires Run(sys, steps)
    decreases steps
  {
    AdmittedApart(sys) && (steps != [] ==> NeverShares(Next(sys, steps[0]), steps[1..]))
  }

  /** Every admitted request is recorded as a holder of its own tier's permit, and nothing was ever miscounted. */
  predicate Clean(sys: System) {
    && (forall id :: id in sys.requests && sys.requests[id].phase != Waiting ==>
          sys.requests[id].s in sys.c.held && sys.c.held[sys.requests[id].s] == sys.requests[id].tier)
    && sys.tally == PerTier(Tally(0, 0, 0), Tally(0, 0, 0))
  }

  /** A grant finds a record of its session exactly when another admitted request has that session. */
  lemma GrantOverwritesASharer(sys: System, id: nat)
    requires Invariant(sys) && Enabled(sys, Grant(id)) && sys.requests[id].s in sys.c.held
    ensures !AdmittedApart(Next(sys, Grant(id))) && Overwritten(Next(sys, Grant(id))) > Overwritten(sys)
  {
    var s, sys' := sys.requests[id].s, Next(sys, Grant(id));
    assert Live(sys, s, sys.c.held[s]);
    var other :| IsLive(sys, other, s, sys.c.held[s]);
    assert sys'.requests[other].s == sys'.requests[id].s;
  }

  lemma StepKeepsClean(sys: System, step: Step)
    requires Invariant(sys) && Enabled(sys, step) && Clean(sys) && AdmittedApart(sys)
    requires AdmittedApart(Next(sys, step)) || Overwritten(Next(sys, step)) == 0
    ensures Clean(Next(sys, step)) && AdmittedApart(Next(sys, step))
  {
    if step.Grant? && sys.requests[step.id].s in sys.c.held {
      GrantOverwritesASharer(sys, step.id);
    }
  }

  lemma {:induction false} NeverSharingStaysClean(sys: System, steps: seq<Step>)
    requires Invariant(sys) && Clean(sys) && AdmittedApart(sys) && Run(sys, steps)
    ensures NeverShares(sys, steps) <==> Overwritten(After(sys, steps)) == 0
    ensures NeverShares(sys, steps) ==> Clean(After(sys, steps))
    decreases steps
  {
    if steps == [] {
    } else {
      var sys' := Next(sys, steps[0]);
      StepKeepsInvariant(sys, steps[0]);
      RunGrowsOverwritten(sys', steps[1..]);
      if AdmittedApart(sys') || Overwritten(sys') == 0 {
        StepKeepsClean(sys, steps[0]);
        NeverSharingStaysClean(sys', steps[1..]);
      }
    }
  }

  /** Some holder record is overwritten in a run exactly when two admitted requests share a session somewhere in it. */
  lemma OverwrittenExactlyWhen(capacity: PerTier<int>, maxQueue: int, steps: seq<Step>)
    requires capacity.small >= 0 && capacity.big >= 0 && Run(Start(capacity, maxQueue), steps)
    ensures Overwritten(After(Start(capacity, maxQueue), steps)) == 0 <==> NeverShares(Start(capacity, maxQueue), steps)
    ensures NeverShares(Start(capacity, maxQueue), steps) ==> Clean(After(Start(capacity, maxQueue), steps))
  {
    StartHolds(capacity, maxQueue);
    NeverSharingStaysClean(Start(capacity, maxQueue), steps);
  }

  /**
   * The clean law: if admitted requests never share a session, no record is ever overwritten and no release goes
   * astray, so the permits that are not free are exactly those of the admitted requests, orphans included.
   */
  lemma DistinctSessionsConserve(capacity: PerTier<int>, maxQueue: int, steps: seq<Step>, t: Tier)
    requires capacity.small >= 0 && capacity.big >= 0 && t != Auto
    requires Run(Start(capacity, maxQueue), steps) && NeverShares(Start(capacity, maxQueue), steps)
    ensures var sys := After(Start(capacity, maxQueue), steps);
      && sys.tally.At(t).overwritten == 0
      && sys.c.Free(t) + |Admitted(sys.requests, t)| == capacity.At(t)
      && sys.c.Free(t) + |Holders(sys.c.held, t)| == capacity.At(t)
      && (sys.requests == map[] ==> sys.c.Free(t) == capacity.At(t) && sys.c.held == map[])
  {
    var sys := After(Start(capacity, maxQueue), steps);
    StartHolds(capacity, maxQueue);
    RunKeepsInvariant(Start(capacity, maxQueue), steps);
    OverwrittenExactlyWhen(capacity, maxQueue, steps);
    assert Conserved(sys, t) && Accounted(sys, t);
    if sys.requests == map[] {
      NobodyHolds(sys);
      assert Holders(sys.c.held, t) == {};
    }
  }

  predicate NobodyAdmitted(sys: System) {
    forall id :: id in sys.requests ==> sys.requests[id].phase == Waiting
  }

  predicate Whole(sys: System) {
    sys.c.Free(Small) == sys.capacity.small && sys.c.Free(Big) == sys.capacity.big
  }

  lemma NobodyHolds(sys: System)
    requires Invariant(sys) && NobodyAdmitted(sys)
    ensures sys.c.held == map[]
  {
    assert forall s :: s in sys.c.held ==> Live(sys, s, sys.c.held[s]);
  }

  /** All permits are free exactly when nobody is recorded as a holder and no record was ever overwritten. */
  lemma WholeWithoutHolders(sys: System)
    requires Invariant(sys)
    ensures Whole(sys) <==> sys.c.held == map[] && Overwritten(sys) == 0
  {
    assert Conserved(sys, Small) && Conserved(sys, Big);
    if sys.c.held == map[] {
      assert Holders(sys.c.held, Small) == {} == Holders(sys.c.held, Big);
    } else {
      var s :| s in sys.c.held;
      assert s in Holders(sys.c.held, sys.c.held[s]);
      assert |Holders(sys.c.held, sys.c.held[s])| > 0;
    }
  }

  /**
   * When capacity is back: in every reachable state, both tiers have all their permits exactly when nobody is
   * admitted and admitted requests never shared a session on the way. So at quiescence capacity is back exactly
   * when none ever shared, and otherwise each tier misses its overwritten records; and when only orphans are in
   * flight it is back exactly when there is not even one of them and none ever shared.
   */
  lemma CapacityIsBackExactlyWhen(capacity: PerTier<int>, maxQueue: int, steps: seq<Step>)
    requires capacity.small >= 0 && capacity.big >= 0 && Run(Start(capacity, maxQueue), steps)
    ensures var sys := After(Start(capacity, maxQueue), steps);
      Whole(sys) <==> NobodyAdmitted(sys) && NeverShares(Start(capacity, maxQueue), steps)
  {
    var sys := After(Start(capacity, maxQueue), steps);
    StartHolds(capacity, maxQueue);
    RunKeepsInvariant(Start(capacity, maxQueue), steps);
    OverwrittenExactlyWhen(capacity, maxQueue, steps);
    WholeWithoutHolders(sys);
    if NobodyAdmitted(sys) {
      NobodyHolds(sys);
    }
  }

  lemma CapacityAtQuiescence(capacity: PerTier<int>, maxQueue: int, steps: seq<Step>, t: Tier)
    requires capacity.small >= 0 && capacity.big >= 0 && t != Auto && Run(Start(capacity, maxQueue), steps)
    requires After(Start(capacity, maxQueue), steps).requests == map[]
    ensures var sys := After(Start(capacity, maxQueue), steps);
      && sys.c.held == map[]
      && sys.c.Free(t) == capacity.At(t) - sys.tally.At(t).overwritten
      && (Whole(sys) <==> NeverShares(Start(capacity, maxQueue), steps))
  {
    var sys := After(Start(capacity, maxQueue), steps);
    StartHolds(capacity, maxQueue);
    RunKeepsInvariant(Start(capacity, maxQueue), steps);
    CapacityIsBackExactlyWhen(capacity, maxQueue, steps);
    NobodyHolds(sys);
    assert Holders(sys.c.held, t) == {};
    assert Conserved(sys, t);
  }

  /** With only orphans in flight. */
  lemma OrphansKeepTheirPermits(capacity: PerTier<int>, maxQueue: int, steps: seq<Step>)
    requires capacity.small >= 0 && capacity.big >= 0 && Run(Start(capacity, maxQueue), steps)
    requires var rs := After(Start(capacity, maxQueue), steps).requests;
      forall id :: id in rs ==> rs[id].phase == Orphaned
    ensures var sys := After(Start(capacity, maxQueue), steps);
      Whole(sys) <==> sys.requests == map[] && NeverShares(Start(capacity, maxQueue), steps)
  {
    CapacityIsBackExactlyWhen(capacity, maxQueue, steps);
  }

  /**
   * Exactly once: a finish gives one permit back if its session is still recorded, to the recorded tier, and none
   * otherwise; releasing the session again gives nothing. If admitted requests never shared a session, the session
   * is recorded, and with the request's own tier.
   */
  lemma FinishReleasesExactlyOnce(capacity: PerTier<int>, maxQueue: int, steps: seq<Step>, id: nat, t: Tier)
    requires capacity.small >= 0 && capacity.big >= 0 && t != Auto && Run(Start(capacity, maxQueue), steps)
    requires WellFormed(After(Start(capacity, maxQueue), steps))
    requires Enabled(After(Start(capacity, maxQueue), steps), Finish(id))
    ensures var sys := After(Start(capacity, maxQueue), steps);
      var r, sys' := sys.requests[id], Next(sys, Finish(id));
      && sys'.c.Free(t) == sys.c.Free(t) + One(r.s in sys.c.held && sys.c.held[r.s] == t)
      && Release(sys'.c, r.s) == sys'.c
      && (NeverShares(Start(capacity, maxQueue), steps) ==> sys'.c.Free(t) == sys.c.Free(t) + One(t == r.tier))
  {
    OverwrittenExactlyWhen(capacity, maxQueue, steps);
  }

  // ---- The concurrency bound ----

  /** All admitted requests of a session use one tier; the session may be used by several requests. */
  predicate OneTierPerSession(sys: System) {
    forall i, j | i in sys.requests && j in sys.requests
                  && sys.requests[i].phase != Waiting && sys.requests[j].phase != Waiting ::
      sys.requests[i].s == sys.requests[j].s ==> sys.requests[i].tier == sys.requests[j].tier
  }

  predicate OneTierRun(sys: System, steps: seq<Step>)
    requires Run(sys, steps)
    decreases steps
  {
    OneTierPerSession(sys) && (steps != [] ==> OneTierRun(Next(sys, steps[0]), steps[1..]))
  }

  lemma StepStraysNothing(sys: System, step: Step, t: Tier)
    requires Invariant(sys) && Enabled(sys, step) && OneTierPerSession(sys) && t != Auto
    ensures Next(sys, step).tally.At(t).strayed == sys.tally.At(t).strayed
  {
    if step.Finish? {
      var r := sys.requests[step.id];
      if r.s in sys.c.held {
        assert Live(sys, r.s, sys.c.held[r.s]);
        var id :| IsLive(sys, id, r.s, sys.c.held[r.s]);
        assert sys.requests[id].tier == r.tier;
      }
    }
  }

  lemma {:induction false} OneTierRunStraysNothing(sys: System, steps: seq<Step>, t: Tier)
    requires Invariant(sys) && Run(sys, steps) && OneTierRun(sys, steps) && t != Auto
    ensures After(sys, steps).tally.At(t).strayed == sys.tally.At(t).strayed
    decreases steps
  {
    if steps == [] {
    } else {
      StepKeepsInvariant(sys, steps[0]);
      StepStraysNothing(sys, steps[0], t);
      OneTierRunStraysNothing(Next(sys, steps[0]), steps[1..], t);
    }
  }

  /**
   * The concurrency bound. In every run the admitted, unfinished requests of a tier exceed its capacity by at
   * most the permits that releases of other tiers gave it; if a session's admitted requests always share a
   * tier, also with duplicated session ids, there are none of those and the bound is the capacity.
   */
  lemma ConcurrencyIsBounded(capacity: PerTier<int>, maxQueue: int, steps: seq<Step>, t: Tier)
    requires capacity.small >= 0 && capacity.big >= 0 && t != Auto
    requires Run(Start(capacity, maxQueue), steps)
    ensures var sys := After(Start(capacity, maxQueue), steps);
      && |Admitted(sys.requests, t)| <= capacity.At(t) + sys.tally.At(t).strayed
      && (OneTierRun(Start(capacity, maxQueue), steps) ==> |Admitted(sys.requests, t)| <= capacity.At(t))
  {
    var sys := After(Start(capacity, maxQueue), steps);
    StartHolds(capacity, maxQueue);
    RunKeepsInvariant(Start(capacity, maxQueue), steps);
    assert Accounted(sys, t) && DepthExact(sys, t);
    if OneTierRun(Start(capacity, maxQueue), steps) {
      OneTierRunStraysNothing(Start(capacity, maxQueue), steps, t);
    }
  }
}
