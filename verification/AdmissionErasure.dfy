/** Gates that end in an exception leave no trace in the permits or the holder table. */
module AdmissionErasure {
  import opened Types
  import opened Admission
  import opened AdmissionRuns

  /** The ids whose gate succeeds somewhere in the run. */
  function Granted(steps: seq<Step>): set<nat> {
    set st | st in steps && st.Grant? :: st.id
  }

  /** The run with everything that concerns other ids erased. */
  function Keep(steps: seq<Step>, ids: set<nat>): seq<Step> {
    if steps == [] then []
    else (if steps[0].id in ids then [steps[0]] else []) + Keep(steps[1..], ids)
  }

  predicate Rejected(sys: System, step: Step) {
    step.Arrive? && GateAnswer(sys.c, step.tier, step.withinBudget, step.anyHealthy) != Enqueued
  }

  /** ids separates the steps: a gate that fails here is not among them, a gate that succeeds here is. */
  predicate Separates(sys: System, step: Step, ids: set<nat>) {
    && (step.Grant? ==> step.id in ids)
    && (step.TimeOut? || step.Cancel? || Rejected(sys, step) ==> step.id !in ids)
  }

  /** low is sys without the requests outside ids. */
  ghost predicate Shadows(sys: System, low: System, ids: set<nat>) {
    && low.c.held == sys.c.held && low.c.maxQueue == sys.c.maxQueue
    && low.c.Free(Small) == sys.c.Free(Small) && low.c.Free(Big) == sys.c.Free(Big)
    && low.tally == sys.tally && low.used <= sys.used
    && (forall id :: id in low.requests <==> id in sys.requests && id in ids)
    && (forall id :: id in low.requests ==> low.requests[id] == sys.requests[id])
    && (forall id :: id in sys.requests && sys.requests[id].phase != Waiting ==> id in ids)
  }

  lemma ShadowWaitsNoMore(sys: System, low: System, ids: set<nat>, t: Tier)
    requires Invariant(sys) && Invariant(low) && Shadows(sys, low, ids) && t != Auto
    ensures low.c.Queued(t) <= sys.c.Queued(t)
  {
    assert DepthExact(sys, t) && DepthExact(low, t);
    SubsetSize(Waiters(low.requests, t), Waiters(sys.requests, t));
  }

  lemma SubsetSize<T>(a: set<T>, b: set<T>)
    requires a <= b
    ensures |a| <= |b|
  {
    assert b == a + (b - a);
  }

  /** A step of a kept id happens in both systems, with the same effect. */
  lemma KeptStepShadows(sys: System, low: System, step: Step, ids: set<nat>)
    requires Invariant(sys) && Invariant(low) && Shadows(sys, low, ids)
    requires Enabled(sys, step) && Separates(sys, step, ids) && step.id in ids
    ensures Enabled(low, step) && Shadows(Next(sys, step), Next(low, step), ids)
  {
    if step.Arrive? {
      ShadowWaitsNoMore(sys, low, ids, step.tier);
    } else {
      assert low.requests[step.id] == sys.requests[step.id];
    }
  }

  /** A step of an erased id changes nothing that the kept system has. */
  lemma ErasedStepShadows(sys: System, low: System, step: Step, ids: set<nat>)
    requires Invariant(sys) && Shadows(sys, low, ids)
    requires Enabled(sys, step) && Separates(sys, step, ids) && step.id !in ids
    ensures Shadows(Next(sys, step), low, ids)
  {
  }

  /** A used id without a request in flight is never granted again. */
  lemma {:induction false} GoneIsNeverGranted(sys: System, steps: seq<Step>, id: nat)
    requires Run(sys, steps) && id in sys.used && id !in sys.requests
    ensures id !in Granted(steps)
    decreases steps
  {
    if steps == [] {
    } else {
      StepKeepsShape(sys, steps[0]);
      GoneIsNeverGranted(Next(sys, steps[0]), steps[1..], id);
      assert steps == [steps[0]] + steps[1..];
    }
  }

  /** Every id of the set is granted later, or is past its gate already. */
  predicate Settled(sys: System, steps: seq<Step>, ids: set<nat>) {
    && Granted(steps) <= ids
    && forall id :: id in ids ==> id in Granted(steps) || (id in sys.used && !InPhase(sys, id, Waiting))
  }

  lemma SettledSeparates(sys: System, steps: seq<Step>, ids: set<nat>)
    requires Run(sys, steps) && steps != [] && Settled(sys, steps, ids)
    ensures Separates(sys, steps[0], ids) && Settled(Next(sys, steps[0]), steps[1..], ids)
  {
    var step, rest := steps[0], steps[1..];
    var sys' := Next(sys, step);
    StepKeepsShape(sys, step);
    assert steps == [step] + rest;
    assert Granted(steps) == Granted(rest) + (if step.Grant? then {step.id} else {});
    if step.TimeOut? || step.Cancel? || Rejected(sys, step) {
      GoneIsNeverGranted(sys', rest, step.id);
    }
    forall id | id in ids ensures id in Granted(rest) || (id in sys'.used && !InPhase(sys', id, Waiting)) {
      if id !in Granted(rest) && id != step.id {
        assert id in sys.used;
      }
    }
  }

  lemma {:induction false} KeptRunShadows(sys: System, low: System, steps: seq<Step>, ids: set<nat>)
    requires Invariant(sys) && Invariant(low) && Shadows(sys, low, ids)
    requires Run(sys, steps) && Settled(sys, steps, ids)
    ensures Run(low, Keep(steps, ids)) && Shadows(After(sys, steps), After(low, Keep(steps, ids)), ids)
    decreases steps
  {
    if steps == [] {
    } else {
      var step := steps[0];
      SettledSeparates(sys, steps, ids);
      StepKeepsInvariant(sys, step);
      if step.id in ids {
        KeptStepShadows(sys, low, step, ids);
        StepKeepsInvariant(low, step);
        KeptRunShadows(Next(sys, step), Next(low, step), steps[1..], ids);
        assert Keep(steps, ids)[1..] == Keep(steps[1..], ids);
      } else {
        ErasedStepShadows(sys, low, step, ids);
        KeptRunShadows(Next(sys, step), low, steps[1..], ids);
        assert Keep(steps, ids) == Keep(steps[1..], ids);
      }
    }
  }

  lemma {:induction false} KeptStepsAreOfIds(steps: seq<Step>, ids: set<nat>)
    ensures forall st :: st in Keep(steps, ids) ==> st in steps && st.id in ids
  {
    if steps == [] {
    } else {
      KeptStepsAreOfIds(steps[1..], ids);
    }
  }

  /** Only granted gates are left: no wait is given up, whatever the run was. */
  lemma {:induction false} NobodyGivesUp(sys: System, steps: seq<Step>, ids: set<nat>)
    requires Run(sys, steps) && Settled(sys, steps, ids)
    ensures forall st :: st in Keep(steps, ids) ==> !st.TimeOut? && !st.Cancel?
    decreases steps
  {
    if steps == [] {
    } else {
      SettledSeparates(sys, steps, ids);
      NobodyGivesUp(Next(sys, steps[0]), steps[1..], ids);
    }
  }

  /**
   * Failed gates are invisible. Erase from any run every request whose gate ends in an exception (over budget,
   * no backend, no queue, full, timed out, cancelled) or is still waiting: what is left is a run, nobody in it
   * gives up, and it ends with the same free permits, the same holder table and the same admitted requests.
   */
  lemma FailedGatesLeaveNoTrace(capacity: PerTier<int>, maxQueue: int, steps: seq<Step>)
    requires capacity.small >= 0 && capacity.big >= 0
    requires Run(Start(capacity, maxQueue), steps)
    ensures var start, kept := Start(capacity, maxQueue), Keep(steps, Granted(steps));
      && Run(start, kept)
      && (forall st :: st in kept ==> st.id in Granted(steps) && !st.TimeOut? && !st.Cancel?)
      && After(start, kept).c.held == After(start, steps).c.held
      && (forall t :: t != Auto ==> After(start, kept).c.Free(t) == After(start, steps).c.Free(t))
      && (forall t :: t != Auto ==>
            Admitted(After(start, kept).requests, t) == Admitted(After(start, steps).requests, t))
  {
    var start, ids := Start(capacity, maxQueue), Granted(steps);
    StartHolds(capacity, maxQueue);
    KeptRunShadows(start, start, steps, ids);
    KeptStepsAreOfIds(steps, ids);
    NobodyGivesUp(start, steps, ids);
  }
}
