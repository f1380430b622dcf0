/** Exactly which mixes of sessions and tiers keep every tier within its capacity. */
module AdmissionBound {
  import opened Types
  import opened Admission
  import opened AdmissionRuns

  /** Every request that arrives is of an allowed session and tier. */
  predicate Uses(steps: seq<Step>, pairs: set<(SessionId, Tier)>) {
    forall st :: st in steps && st.Arrive? ==> (st.s, st.tier) in pairs
  }

  /** No session is allowed on both tiers. */
  ghost predicate OneTierEach(pairs: set<(SessionId, Tier)>) {
    forall s: SessionId :: (s, Small) in pairs ==> (s, Big) !in pairs
  }

  /** Whatever the allowed requests do, no tier ever serves more of them than its capacity. */
  ghost predicate Bounded(capacity: PerTier<int>, maxQueue: int, pairs: set<(SessionId, Tier)>) {
    forall steps, t :: t != Auto && Run(Start(capacity, maxQueue), steps) && Uses(steps, pairs) ==>
      |Admitted(After(Start(capacity, maxQueue), steps).requests, t)| <= capacity.At(t)
  }

  // ---- One tier per session: the bound holds ----

  predicate RequestsOf(sys: System, pairs: set<(SessionId, Tier)>) {
    forall id :: id in sys.requests ==> (sys.requests[id].s, sys.requests[id].tier) in pairs
  }

  lemma {:induction false} AllowedRunIsOneTier(sys: System, steps: seq<Step>, pairs: set<(SessionId, Tier)>)
    requires Run(sys, steps) && Uses(steps, pairs) && RequestsOf(sys, pairs) && OneTierEach(pairs)
    ensures OneTierRun(sys, steps)
    decreases steps
  {
    assert OneTierPerSession(sys) by {
      forall i, j | i in sys.requests && j in sys.requests && sys.requests[i].s == sys.requests[j].s
        ensures sys.requests[i].tier == sys.requests[j].tier
      {
        assert (sys.requests[i].s, sys.requests[i].tier) in pairs && (sys.requests[j].s, sys.requests[j].tier) in pairs;
      }
    }
    if steps == [] {
    } else {
      assert steps[0] in steps && forall st :: st in steps[1..] ==> st in steps;
      AllowedRunIsOneTier(Next(sys, steps[0]), steps[1..], pairs);
    }
  }

  /** Without a place to wait nobody is ever admitted. */
  lemma {:induction false} NoQueueNoRequests(sys: System, steps: seq<Step>)
    requires Invariant(sys) && Run(sys, steps) && sys.requests == map[] && sys.c.maxQueue < 1
    ensures After(sys, steps).requests == map[]
    decreases steps
  {
    if steps == [] {
    } else {
      StepKeepsShape(sys, steps[0]);
      assert steps[0].Arrive?;
      if steps[0].tier != Auto {
        assert DepthExact(sys, steps[0].tier) && Waiters(sys.requests, steps[0].tier) == {};
      }
      StepKeepsInvariant(sys, steps[0]);
      NoQueueNoRequests(Next(sys, steps[0]), steps[1..]);
    }
  }

  lemma BoundHoldsWhen(capacity: PerTier<int>, maxQueue: int, pairs: set<(SessionId, Tier)>)
    requires capacity.small >= 1 && capacity.big >= 1 && (maxQueue < 1 || OneTierEach(pairs))
    ensures Bounded(capacity, maxQueue, pairs)
  {
    var start := Start(capacity, maxQueue);
    StartHolds(capacity, maxQueue);
    forall steps, t | t != Auto && Run(start, steps) && Uses(steps, pairs)
      ensures |Admitted(After(start, steps).requests, t)| <= capacity.At(t)
    {
      if maxQueue < 1 {
        NoQueueNoRequests(start, steps);
        assert Admitted(map[], t) == {};
      } else {
        AllowedRunIsOneTier(start, steps, pairs);
        ConcurrencyIsBounded(capacity, maxQueue, steps, t);
      }
    }
  }

  // ---- A session on both tiers: the bound breaks ----

  lemma {:induction false} RunConcat(sys: System, a: seq<Step>, b: seq<Step>)
    requires Run(sys, a) && Run(After(sys, a), b)
    ensures Run(sys, a + b) && After(sys, a + b) == After(After(sys, a), b)
    decreases a
  {
    if a == [] {
      assert a + b == b;
    } else {
      RunConcat(Next(sys, a[0]), a[1..], b);
      assert (a + b)[1..] == a[1..] + b;
    }
  }

  /** A request that arrives when a permit is free and is granted at once. */
  lemma ServeOne(sys: System, id: nat, s: SessionId, tier: Tier) returns (steps: seq<Step>)
    requires WellFormed(sys) && id !in sys.used && id !in sys.requests && tier != Auto
    requires sys.c.Queued(tier) < sys.c.maxQueue && sys.c.Free(tier) > 0
    ensures Run(sys, steps) && Uses(steps, {(s, tier)})
    ensures var sys' := After(sys, steps);
      && WellFormed(sys')
      && sys'.c == sys.c.Adjust(tier, -1, 0).(held := sys.c.held[s := tier])
      && sys'.requests == sys.requests[id := Request(s, tier, Running)]
      && sys'.used == sys.used + {id}
  {
    steps := [Arrive(id, s, tier, true, true), Grant(id)];
    var sys1 := Next(sys, steps[0]);
    var sys2 := Next(sys1, steps[1]);
    assert steps[1..] == [Grant(id)] && [Grant(id)][1..] == [];
    assert Run(sys2, []) && Run(sys1, [Grant(id)]);
    assert After(sys1, [Grant(id)]) == sys2;
    assert sys2.requests == sys.requests[id := Request(s, tier, Running)];
  }

  function FirstIds(n: nat): (ids: set<nat>)
    ensures forall i: nat :: i in ids <==> i < n
    ensures |ids| == n
  {
    if n == 0 then {} else FirstIds(n - 1) + {n - 1}
  }

  /** Request 0 of a session runs on Small and its requests 1 to k on Big; one record is left, of the last of them. */
  predicate BothTaken(sys: System, capacity: PerTier<int>, maxQueue: int, s: SessionId, k: nat) {
    && WellFormed(sys) && sys.c.maxQueue == maxQueue
    && sys.c.queues == PerTier(Queue(capacity.small - 1, 0), Queue(capacity.big - k, 0))
    && sys.c.held == map[s := if k == 0 then Small else Big]
    && sys.requests.Keys == FirstIds(k + 1) == sys.used
    && forall i :: i in sys.requests ==> sys.requests[i] == Request(s, if i == 0 then Small else Big, Running)
  }

  lemma FirstIsTaken(sys: System, capacity: PerTier<int>, maxQueue: int, s: SessionId)
    requires WellFormed(sys)
    requires sys.c == Start(capacity, maxQueue).c.Adjust(Small, -1, 0).(held := map[s := Small])
    requires sys.requests == map[0 := Request(s, Small, Running)] && sys.used == {0}
    ensures BothTaken(sys, capacity, maxQueue, s, 0)
  {
    assert FirstIds(1) == {0} == sys.requests.Keys;
  }

  lemma NextIsTaken(sys: System, sys': System, capacity: PerTier<int>, maxQueue: int, s: SessionId, k: nat)
    requires BothTaken(sys, capacity, maxQueue, s, k) && WellFormed(sys')
    requires sys'.c == sys.c.Adjust(Big, -1, 0).(held := sys.c.held[s := Big])
    requires sys'.requests == sys.requests[k + 1 := Request(s, Big, Running)]
    requires sys'.used == sys.used + {k + 1}
    ensures BothTaken(sys', capacity, maxQueue, s, k + 1)
  {
    assert sys'.requests.Keys == sys.requests.Keys + {k + 1};
    assert map[s := if k == 0 then Small else Big][s := Big] == map[s := Big];
  }

  lemma TakeOneMore(sys: System, capacity: PerTier<int>, maxQueue: int, s: SessionId, k: nat) returns (steps: seq<Step>)
    requires k < capacity.big && maxQueue >= 1 && BothTaken(sys, capacity, maxQueue, s, k)
    ensures Run(sys, steps) && Uses(steps, {(s, Big)})
    ensures BothTaken(After(sys, steps), capacity, maxQueue, s, k + 1)
  {
    steps := ServeOne(sys, k + 1, s, Big);
    NextIsTaken(sys, After(sys, steps), capacity, maxQueue, s, k);
  }

  lemma TakeFirst(capacity: PerTier<int>, maxQueue: int, s: SessionId) returns (steps: seq<Step>)
    requires capacity.small >= 1 && capacity.big >= 1 && maxQueue >= 1
    ensures Run(Start(capacity, maxQueue), steps) && Uses(steps, {(s, Small)})
    ensures BothTaken(After(Start(capacity, maxQueue), steps), capacity, maxQueue, s, 0)
  {
    steps := ServeOne(Start(capacity, maxQueue), 0, s, Small);
    FirstIsTaken(After(Start(capacity, maxQueue), steps), capacity, maxQueue, s);
  }

  /** One session can hold any number of Big permits besides a Small one, with one record for all of them. */
  lemma {:induction false} BothTakenIsReachable(capacity: PerTier<int>, maxQueue: int, s: SessionId, k: nat)
    returns (steps: seq<Step>)
    requires capacity.small >= 1 && capacity.big >= 1 && k <= capacity.big && maxQueue >= 1
    ensures Run(Start(capacity, maxQueue), steps) && Uses(steps, {(s, Small), (s, Big)})
    ensures BothTaken(After(Start(capacity, maxQueue), steps), capacity, maxQueue, s, k)
  {
    var start := Start(capacity, maxQueue);
    if k == 0 {
      steps := TakeFirst(capacity, maxQueue, s);
    } else {
      var before := BothTakenIsReachable(capacity, maxQueue, s, k - 1);
      var more := TakeOneMore(After(start, before), capacity, maxQueue, s, k - 1);
      RunConcat(start, before, more);
      steps := before + more;
    }
  }

  /** Finishing request 0 frees a Big permit instead of its own Small one. */
  lemma FinishFreesBig(sys: System, capacity: PerTier<int>, maxQueue: int, s: SessionId, k: nat)
    requires k == capacity.big >= 1 && BothTaken(sys, capacity, maxQueue, s, k)
    ensures Enabled(sys, Finish(0))
    ensures var freed := Next(sys, Finish(0));
      && WellFormed(freed) && freed.used == sys.used && freed.requests == sys.requests - {0}
      && freed.c.maxQueue == maxQueue && freed.c.Free(Big) == 1 && freed.c.Queued(Big) == 0
      && Run(sys, [Finish(0)]) && After(sys, [Finish(0)]) == freed
  {
    var freed := Next(sys, Finish(0));
    assert [Finish(0)][1..] == [];
    assert Run(freed, []);
  }

  lemma OneTooMany(sys: System, capacity: PerTier<int>, maxQueue: int, s: SessionId) returns (steps: seq<Step>)
    requires capacity.big >= 1 && maxQueue >= 1 && BothTaken(sys, capacity, maxQueue, s, capacity.big)
    ensures Run(sys, steps) && Uses(steps, {(s, Big)})
    ensures |Admitted(After(sys, steps).requests, Big)| == capacity.big + 1
  {
    var k: nat := capacity.big;
    FinishFreesBig(sys, capacity, maxQueue, s, k);
    var freed := Next(sys, Finish(0));
    var more := ServeOne(freed, k + 1, s, Big);
    RunConcat(sys, [Finish(0)], more);
    steps := [Finish(0)] + more;
    var rs := After(freed, more).requests;
    assert Admitted(rs, Big) == FirstIds(k + 2) - {0};
  }

  /** One session on both tiers is enough to get the Big tier over its capacity, whatever the limits are. */
  lemma TwoTierSessionBreaksTheBound(capacity: PerTier<int>, maxQueue: int, s: SessionId) returns (steps: seq<Step>)
    requires capacity.small >= 1 && capacity.big >= 1 && maxQueue >= 1
    ensures Run(Start(capacity, maxQueue), steps) && Uses(steps, {(s, Small), (s, Big)})
    ensures |Admitted(After(Start(capacity, maxQueue), steps).requests, Big)| == capacity.big + 1
  {
    var start := Start(capacity, maxQueue);
    var before := BothTakenIsReachable(capacity, maxQueue, s, capacity.big);
    var more := OneTooMany(After(start, before), capacity, maxQueue, s);
    RunConcat(start, before, more);
    steps := before + more;
  }

  /**
   * The concurrency bound, exactly: with at least one permit a tier, no run of the allowed requests gets a tier over
   * its capacity if and only if no session is allowed on both tiers (or there is no place to wait, and so nobody is
   * ever admitted).
   */
  lemma BoundHoldsExactlyWhen(capacity: PerTier<int>, maxQueue: int, pairs: set<(SessionId, Tier)>)
    requires capacity.small >= 1 && capacity.big >= 1
    ensures Bounded(capacity, maxQueue, pairs) <==> maxQueue < 1 || OneTierEach(pairs)
  {
    if maxQueue < 1 || OneTierEach(pairs) {
      BoundHoldsWhen(capacity, maxQueue, pairs);
    } else {
      var s: SessionId :| (s, Small) in pairs && (s, Big) in pairs;
      var steps := TwoTierSessionBreaksTheBound(capacity, maxQueue, s);
      assert Uses(steps, pairs);
      assert |Admitted(After(Start(capacity, maxQueue), steps).requests, Big)| > capacity.At(Big);
    }
  }
}
