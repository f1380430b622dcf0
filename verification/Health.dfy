/** Health probing with hysteresis, and the registry statuses it produces. */
module Health {
  import opened Types
  import opened Registry

  datatype Probe = Ok | TimedOut | Failed

  datatype Hysteresis = Hysteresis(failures: nat, successes: nat)

  datatype Thresholds = Thresholds(failuresToDown: int, successesToUp: int)

  /** Counting one probe result, and the status it yields. */
  function Record(h: Hysteresis, t: Thresholds, r: Probe): (Hysteresis, BackendStatus) {
    if r == Ok then
      var h' := Hysteresis(0, h.successes + 1);
      (h', if h'.successes >= t.successesToUp then Healthy else Degraded)
    else
      var h' := Hysteresis(h.failures + 1, 0);
      (h', if h'.failures >= t.failuresToDown then Down else Degraded)
  }

  // ---- The same, read off the probe history ----

  /** The last n probes exist and all went one way. */
  predicate LastAre(history: seq<Probe>, n: nat, ok: bool) {
    n <= |history| && forall i :: |history| - n <= i < |history| ==> (history[i] == Ok) == ok
  }

  /** A threshold below one acts like one. */
  function AtLeastOne(n: int): nat {
    if n < 1 then 1 else n
  }

  function StatusAfter(history: seq<Probe>, t: Thresholds): BackendStatus {
    if history == [] || LastAre(history, AtLeastOne(t.successesToUp), true) then Healthy
    else if LastAre(history, AtLeastOne(t.failuresToDown), false) then Down
    else Degraded
  }

  /** Length of the trailing run of probes that went one way. */
  function Streak(history: seq<Probe>, ok: bool): nat {
    if history == [] || (history[|history| - 1] == Ok) != ok then 0 else Streak(history[..|history| - 1], ok) + 1
  }

  function Streaks(history: seq<Probe>): Hysteresis {
    Hysteresis(Streak(history, false), Streak(history, true))
  }

  lemma {:induction false} StreakIsSuffix(history: seq<Probe>, n: nat, ok: bool)
    ensures Streak(history, ok) >= n <==> LastAre(history, n, ok)
  {
    if history == [] || n == 0 || (history[|history| - 1] == Ok) != ok {
    } else {
      var init := history[..|history| - 1];
      StreakIsSuffix(init, n - 1, ok);
      if LastAre(init, n - 1, ok) {
        forall i | |history| - n <= i < |history| ensures (history[i] == Ok) == ok {
          assert i < |init| ==> init[i] == history[i];
        }
      }
      if LastAre(history, n, ok) {
        forall i | |init| - (n - 1) <= i < |init| ensures (init[i] == Ok) == ok {
          assert init[i] == history[i];
        }
      }
    }
  }

  /** The two counters carry exactly what the history's suffix says. */
  lemma RecordReadsTheSuffix(history: seq<Probe>, t: Thresholds, r: Probe)
    ensures Record(Streaks(history), t, r) == (Streaks(history + [r]), StatusAfter(history + [r], t))
  {
    var grown := history + [r];
    assert grown[..|history|] == history && grown[|history|] == r;
    StreakIsSuffix(grown, AtLeastOne(t.successesToUp), true);
    StreakIsSuffix(grown, AtLeastOne(t.failuresToDown), false);
  }

  // ---- Interleaved probes of many backends ----

  /**
   * The registry table, the counters, the probes in flight with the registry entry each was started with,
   * and, for the record, the results completed so far for each backend.
   */
  datatype World = World(
    table: seq<BackendInfo>,
    counters: map<BackendId, Hysteresis>,
    inFlight: map<nat, BackendInfo>,
    history: map<BackendId, seq<Probe>>)

  datatype Step = Begin(probe: nat, b: BackendInfo) | End(probe: nat, r: Probe)

  function CountersOf(counters: map<BackendId, Hysteresis>, id: BackendId): Hysteresis {
    if id in counters then counters[id] else Hysteresis(0, 0)
  }

  function HistoryOf(w: World, id: BackendId): seq<Probe> {
    if id in w.history then w.history[id] else []
  }

  predicate Enabled(w: World, step: Step) {
    match step
    case Begin(probe, b) => probe !in w.inFlight && b in w.table
    case End(probe, _) => probe in w.inFlight
  }

  /** The second half of a probe: count the result; write the status unless it equals the one the probe began with. */
  function EndProbe(table: seq<BackendInfo>, counters: map<BackendId, Hysteresis>, t: Thresholds, b: BackendInfo,
                    r: Probe)
    : (seq<BackendInfo>, map<BackendId, Hysteresis>)
  {
    var (h, status) := Record(CountersOf(counters, b.id), t, r);
    (if status != b.status then Mark(table, b.id, status) else table, counters[b.id := h])
  }

  function Next(w: World, t: Thresholds, step: Step): World
    requires Enabled(w, step)
  {
    match step
    case Begin(probe, b) =>
      w.(counters := w.counters[b.id := CountersOf(w.counters, b.id)], inFlight := w.inFlight[probe := b])
    case End(probe, r) =>
      var b := w.inFlight[probe];
      var (table, counters) := EndProbe(w.table, w.counters, t, b, r);
      World(table, counters, w.inFlight - {probe}, w.history[b.id := HistoryOf(w, b.id) + [r]])
  }

  predicate Run(w: World, t: Thresholds, steps: seq<Step>)
    decreases steps
  {
    steps != [] ==> Enabled(w, steps[0]) && Run(Next(w, t, steps[0]), t, steps[1..])
  }

  function After(w: World, t: Thresholds, steps: seq<Step>): World
    requires Run(w, t, steps)
    decreases steps
  {
    if steps == [] then w else After(Next(w, t, steps[0]), t, steps[1..])
  }

  /** Counters follow the history in every run, overlapping probes included. */
  ghost predicate Counted(w: World) {
    forall id: BackendId :: CountersOf(w.counters, id) == Streaks(HistoryOf(w, id))
  }

  lemma StepKeepsCounted(w: World, t: Thresholds, step: Step)
    requires Counted(w) && Enabled(w, step)
    ensures Counted(Next(w, t, step))
  {
    var w' := Next(w, t, step);
    if step.End? {
      RecordReadsTheSuffix(HistoryOf(w, w.inFlight[step.probe].id), t, step.r);
    }
    forall id: BackendId ensures CountersOf(w'.counters, id) == Streaks(HistoryOf(w', id)) {
      assert CountersOf(w.counters, id) == Streaks(HistoryOf(w, id));
    }
  }

  /** In every run, overlapping or not, the counters follow the history and only statuses change in the table. */
  lemma {:induction false} RunKeepsCounted(w: World, t: Thresholds, steps: seq<Step>)
    requires Counted(w) && Run(w, t, steps)
    ensures Counted(After(w, t, steps)) && SameShape(w.table, After(w, t, steps).table)
    decreases steps
  {
    if steps == [] {
    } else {
      StepKeepsCounted(w, t, steps[0]);
      RunKeepsCounted(Next(w, t, steps[0]), t, steps[1..]);
    }
  }

  /** No two probes of one backend are in flight together. */
  predicate NonOverlapping(w: World) {
    forall p, q :: p in w.inFlight && q in w.inFlight && p != q ==> w.inFlight[p].id != w.inFlight[q].id
  }

  predicate NonOverlappingRun(w: World, t: Thresholds, steps: seq<Step>)
    requires Run(w, t, steps)
    decreases steps
  {
    NonOverlapping(w) && (steps != [] ==> NonOverlappingRun(Next(w, t, steps[0]), t, steps[1..]))
  }

  /** Every status is what the history says, and every probe in flight began with the current entry. */
  predicate InStep(w: World, t: Thresholds) {
    && UniqueIds(w.table)
    && (forall i :: 0 <= i < |w.table| ==> w.table[i].status == StatusAfter(HistoryOf(w, w.table[i].id), t))
    && (forall p :: p in w.inFlight ==> w.inFlight[p] in w.table)
  }

  /** The table after a probe that began with the current entry: that entry has the status the history calls for. */
  lemma EndMarks(w: World, t: Thresholds, step: Step)
    requires Counted(w) && step.End? && Enabled(w, step) && w.inFlight[step.probe] in w.table
    requires InStep(w, t)
    ensures var b, w' := w.inFlight[step.probe], Next(w, t, step);
      w'.table == Mark(w.table, b.id, StatusAfter(HistoryOf(w', b.id), t))
  {
    var b := w.inFlight[step.probe];
    RecordReadsTheSuffix(HistoryOf(w, b.id), t, step.r);
    var k :| 0 <= k < |w.table| && w.table[k] == b;
    forall i | 0 <= i < |w.table| && w.table[i].id == b.id ensures i == k {}
  }

  lemma EndKeepsInStep(w: World, t: Thresholds, step: Step)
    requires Counted(w) && InStep(w, t) && NonOverlapping(w) && step.End? && Enabled(w, step)
    ensures InStep(Next(w, t, step), t) && SameShape(w.table, Next(w, t, step).table)
  {
    var b, w' := w.inFlight[step.probe], Next(w, t, step);
    EndMarks(w, t, step);
    forall p | p in w'.inFlight ensures w'.inFlight[p] in w'.table {
      assert w.inFlight[p].id != b.id;
      var i :| 0 <= i < |w.table| && w.table[i] == w.inFlight[p];
      assert w'.table[i] == w.table[i];
    }
  }

  lemma {:induction false} RunStaysInStep(w: World, t: Thresholds, steps: seq<Step>)
    requires Counted(w) && InStep(w, t) && Run(w, t, steps) && NonOverlappingRun(w, t, steps)
    ensures InStep(After(w, t, steps), t) && SameShape(w.table, After(w, t, steps).table)
    decreases steps
  {
    if steps == [] {
    } else {
      StepKeepsCounted(w, t, steps[0]);
      if steps[0].End? {
        EndKeepsInStep(w, t, steps[0]);
      }
      RunStaysInStep(Next(w, t, steps[0]), t, steps[1..]);
    }
  }

  function Start(table: seq<BackendInfo>): World {
    World(table, map[], map[], map[])
  }

  /**
   * Status is a function of the probe suffix: with non-overlapping probes, in any interleaving over any number
   * of backends, a backend is in its tier's healthy list exactly when no probe of it has completed or its last
   * successesToUp probes were all OK, and it is DOWN exactly when its last failuresToDown probes all failed.
   * Ids, tiers and registry order never change.
   */
  lemma StatusIsAFunctionOfTheSuffix(table: seq<BackendInfo>, t: Thresholds, steps: seq<Step>)
    requires UniqueIds(table) && forall b :: b in table ==> b.status == Healthy
    requires Run(Start(table), t, steps) && NonOverlappingRun(Start(table), t, steps)
    ensures var w := After(Start(table), t, steps);
      && SameShape(table, w.table)
      && forall b :: b in w.table ==>
           var h := HistoryOf(w, b.id);
           && (b in HealthyOf(w.table, b.tier) <==> h == [] || LastAre(h, AtLeastOne(t.successesToUp), true))
           && (b.status == Down <==> LastAre(h, AtLeastOne(t.failuresToDown), false))
  {
    RunStaysInStep(Start(table), t, steps);
    var w := After(Start(table), t, steps);
    forall b | b in w.table
      ensures b in HealthyOf(w.table, b.tier) <==> b.status == Healthy
      ensures b.status == StatusAfter(HistoryOf(w, b.id), t)
    {
      HealthyMembers(w.table, b.tier);
    }
    forall h: seq<Probe> | LastAre(h, AtLeastOne(t.successesToUp), true)
      ensures !LastAre(h, AtLeastOne(t.failuresToDown), false)
    {
      assert h[|h| - 1] == Ok;
    }
  }

  lemma CompletionAgreesExactlyWhen(w: World, t: Thresholds, step: Step, k: nat)
    requires Counted(w) && step.End? && Enabled(w, step)
    requires UniqueIds(w.table) && k < |w.table| && w.table[k].id == w.inFlight[step.probe].id
    ensures var b, w' := w.inFlight[step.probe], Next(w, t, step);
      w'.table[k].status == StatusAfter(HistoryOf(w', b.id), t)
      <==> Record(CountersOf(w.counters, b.id), t, step.r).1 != b.status || w.table[k].status == b.status
  {
    RecordReadsTheSuffix(HistoryOf(w, w.inFlight[step.probe].id), t, step.r);
  }

  /**
   * In every run from the start, overlapping probes included, a completion leaves the status the history calls for
   * exactly when its result differs from the status the probe began with, or that status is still the current one.
   */
  lemma OverlapAgreesExactlyWhen(table: seq<BackendInfo>, t: Thresholds, steps: seq<Step>, step: Step, k: nat)
    requires UniqueIds(table) && Run(Start(table), t, steps)
    requires step.End? && Enabled(After(Start(table), t, steps), step)
    requires k < |table| && table[k].id == After(Start(table), t, steps).inFlight[step.probe].id
    ensures var w := After(Start(table), t, steps);
      var b, w' := w.inFlight[step.probe], Next(w, t, step);
      && SameShape(table, w.table) && SameShape(table, w'.table)
      && (w'.table[k].status == StatusAfter(HistoryOf(w', b.id), t)
          <==> Record(CountersOf(w.counters, b.id), t, step.r).1 != b.status || w.table[k].status == b.status)
  {
    RunKeepsCounted(Start(table), t, steps);
    CompletionAgreesExactlyWhen(After(Start(table), t, steps), t, step, k);
  }

  /** No probe of a backend completes in these steps. */
  predicate NoneCompletes(w: World, t: Thresholds, steps: seq<Step>, id: BackendId)
    requires Run(w, t, steps)
    decreases steps
  {
    steps != [] ==>
      && (steps[0].End? ==> w.inFlight[steps[0].probe].id != id)
      && NoneCompletes(Next(w, t, steps[0]), t, steps[1..], id)
  }

  lemma {:induction false} UndisturbedStays(w: World, t: Thresholds, steps: seq<Step>, probe: nat, k: nat)
    requires Run(w, t, steps) && k < |w.table| && probe in w.inFlight && w.inFlight[probe] == w.table[k]
    requires NoneCompletes(w, t, steps, w.table[k].id)
    ensures var w' := After(w, t, steps);
      && |w'.table| == |w.table| && w'.table[k] == w.table[k]
      && probe in w'.inFlight && w'.inFlight[probe] == w.table[k]
    decreases steps
  {
    if steps == [] {
    } else {
      UndisturbedStays(Next(w, t, steps[0]), t, steps[1..], probe, k);
    }
  }

  /**
   * Recovery: whatever earlier overlaps did to a backend's status, one probe during which no other of the backend
   * completes, others may be in flight all the same, leaves the status the history calls for.
   */
  lemma UndisturbedProbeRecovers(table: seq<BackendInfo>, t: Thresholds, before: seq<Step>, probe: nat, k: nat,
                                 during: seq<Step>, r: Probe)
    requires UniqueIds(table) && k < |table| && Run(Start(table), t, before)
    requires var w := After(Start(table), t, before);
      && |w.table| == |table| && Enabled(w, Begin(probe, w.table[k]))
      && var begun := Next(w, t, Begin(probe, w.table[k]));
         Run(begun, t, during) && NoneCompletes(begun, t, during, table[k].id)
    ensures var w := After(Start(table), t, before);
      var ready := After(Next(w, t, Begin(probe, w.table[k])), t, during);
      && Enabled(ready, End(probe, r)) && |Next(ready, t, End(probe, r)).table| == |table|
      && var w' := Next(ready, t, End(probe, r));
         w'.table[k].id == table[k].id && w'.table[k].status == StatusAfter(HistoryOf(w', table[k].id), t)
  {
    var w := After(Start(table), t, before);
    RunKeepsCounted(Start(table), t, before);
    var begun := Next(w, t, Begin(probe, w.table[k]));
    StepKeepsCounted(w, t, Begin(probe, w.table[k]));
    RunKeepsCounted(begun, t, during);
    UndisturbedStays(begun, t, during, probe, k);
    CompletionAgreesExactlyWhen(After(begun, t, during), t, End(probe, r), k);
  }

  /** Two overlapping probes can leave a backend out of the healthy list although its last probe was OK. */
  lemma OverlapLosesARecovery(b: BackendInfo)
    requires b.status == Healthy
    ensures var t := Thresholds(3, 1);
      var steps := [Begin(0, b), Begin(1, b), End(0, Failed), End(1, Ok)];
      && Run(Start([b]), t, steps)
      && After(Start([b]), t, steps).table == [b.(status := Degraded)]
      && HistoryOf(After(Start([b]), t, steps), b.id) == [Failed, Ok]
  {
    var t := Thresholds(3, 1);
    var steps := [Begin(0, b), Begin(1, b), End(0, Failed), End(1, Ok)];
    var lost := [b.(status := Degraded)];
    var w1 := World([b], map[b.id := Hysteresis(0, 0)], map[0 := b], map[]);
    var w2 := World([b], map[b.id := Hysteresis(0, 0)], map[0 := b, 1 := b], map[]);
    var w3 := World(lost, map[b.id := Hysteresis(1, 0)], map[1 := b], map[b.id := [Failed]]);
    var w4 := World(lost, map[b.id := Hysteresis(0, 1)], map[], map[b.id := [Failed, Ok]]);
    assert Mark([b], b.id, Degraded) == lost;
    assert map[0 := b, 1 := b] - {0} == map[1 := b] && map[1 := b] - {1} == map[];
    var h0, h1 := Hysteresis(0, 0), Hysteresis(1, 0);
    var h2 := Hysteresis(0, 1);
    assert map[b.id := h0][b.id := h1] == map[b.id := h1] && map[b.id := h1][b.id := h2] == map[b.id := h2];
    assert HistoryOf(w2, b.id) + [Failed] == [Failed] && HistoryOf(w3, b.id) + [Ok] == [Failed, Ok];
    assert w3.history == w2.history[b.id := [Failed]] && w4.history == w3.history[b.id := [Failed, Ok]];
    Unroll(w3, t, steps[3..], w4);
    Unroll(w2, t, steps[2..], w3);
    Unroll(w1, t, steps[1..], w2);
    Unroll(Start([b]), t, steps, w1);
  }

  lemma Unroll(w: World, t: Thresholds, steps: seq<Step>, w': World)
    requires steps != [] && Enabled(w, steps[0]) && w' == Next(w, t, steps[0]) && Run(w', t, steps[1..])
    ensures Run(w, t, steps) && After(w, t, steps) == After(w', t, steps[1..])
  {
  }

  /** A failing probe can only take its backend out of the healthy lists: for the scheduler it leaves. */
  lemma FailedProbeOnlyRemoves(table: seq<BackendInfo>, counters: map<BackendId, Hysteresis>, t: Thresholds,
                               b: BackendInfo, r: Probe)
    requires r != Ok
    ensures var table' := EndProbe(table, counters, t, b, r).0;
      && (table' == table || exists status :: status != Healthy && table' == Mark(table, b.id, status))
      && (forall tier :: HealthyOf(table', tier) == HealthyOf(table, tier)
                      || HealthyOf(table', tier) == Without(HealthyOf(table, tier), {b.id}))
  {
    var status := Record(CountersOf(counters, b.id), t, r).1;
    forall tier ensures HealthyOf(Mark(table, b.id, status), tier) == Without(HealthyOf(table, tier), {b.id}) {
      LeavingFilters(table, b.id, status, tier);
    }
  }

  // ---- The objects ----

  class BackendHealthState {
    const failuresToDown: int
    const successesToUp: int
    var consecutiveFailures: nat
    var consecutiveSuccesses: nat
    /** The backend whose probes are counted. */
    ghost const id: BackendId

    ghost function Counters(): Hysteresis
      reads this
    {
      Hysteresis(consecutiveFailures, consecutiveSuccesses)
    }

    constructor (t: Thresholds, ghost id: BackendId)
      ensures Counters() == Hysteresis(0, 0) && this.id == id
      ensures failuresToDown == t.failuresToDown && successesToUp == t.successesToUp
    {
      failuresToDown := t.failuresToDown;
      successesToUp := t.successesToUp;
      consecutiveFailures, consecutiveSuccesses := 0, 0;
      this.id := id;
    }

    method RecordSuccess() returns (status: BackendStatus)
      modifies this
      ensures (Counters(), status) == Record(old(Counters()), Thresholds(failuresToDown, successesToUp), Ok)
    {
      consecutiveFailures := 0;
      consecutiveSuccesses := consecutiveSuccesses + 1;
      if consecutiveSuccesses >= successesToUp {
        return Healthy;
      }
      status := Degraded;
    }

    method RecordFailure(r: Probe) returns (status: BackendStatus)
      requires r != Ok
      modifies this
      ensures (Counters(), status) == Record(old(Counters()), Thresholds(failuresToDown, successesToUp), r)
    {
      consecutiveSuccesses := 0;
      consecutiveFailures := consecutiveFailures + 1;
      if consecutiveFailures >= failuresToDown {
        return Down;
      }
      status := Degraded;
    }
  }

  class HealthChecker {
    const registry: BackendRegistry
    const thresholds: Thresholds
    var states: map<BackendId, BackendHealthState>

    ghost predicate Valid()
      reads this, registry
    {
      && registry.Valid()
      && forall id :: id in states ==>
           && states[id].id == id
           && states[id].failuresToDown == thresholds.failuresToDown
           && states[id].successesToUp == thresholds.successesToUp
    }

    ghost function View(): map<BackendId, Hysteresis>
      reads this, states.Values
    {
      map id | id in states :: states[id].Counters()
    }

    constructor (registry: BackendRegistry, thresholds: Thresholds)
      requires registry.Valid()
      ensures Valid() && View() == map[] && this.registry == registry && this.thresholds == thresholds
    {
      this.registry := registry;
      this.thresholds := thresholds;
      states := map[];
    }

    /** The probe up to its await. */
    method BeginProbe(b: BackendInfo)
      requires Valid()
      modifies this
      ensures Valid() && b.id in states && fresh(states.Values - old(states.Values))
      ensures View() == old(View())[b.id := CountersOf(old(View()), b.id)]
    {
      if b.id !in states {
        var made := new BackendHealthState(thresholds, b.id);
        states := states[b.id := made];
      }
    }

    /** The probe after its await, with the entry it began with and whatever result came. */
    method FinishProbe(b: BackendInfo, r: Probe)
      requires Valid() && b.id in states
      modifies states[b.id], registry
      ensures Valid()
      ensures registry.backends == EndProbe(old(registry.backends), old(View()), thresholds, b, r).0
      ensures View() == EndProbe(old(registry.backends), old(View()), thresholds, b, r).1
    {
      var state := states[b.id];
      var status;
      if r == Ok {
        status := state.RecordSuccess();
      } else {
        status := state.RecordFailure(r);
      }
      if status != b.status {
        registry.MarkStatus(b.id, status);
      }
    }
  }
}
