/** The accountant's objects, and saving and restoring them. */
module Accountants {
  import opened Types
  import opened Accounting
  import opened Restarts

  class WindowState {
    const budget: int
    const windowSeconds: int
    var entries: seq<Entry>
    /** The agent the window was made for. */
    ghost const agent: AgentId

    constructor (budget: int, windowSeconds: int, ghost agent: AgentId)
      ensures entries == [] && this.agent == agent
      ensures this.budget == budget && this.windowSeconds == windowSeconds
    {
      this.budget := budget;
      this.windowSeconds := windowSeconds;
      this.agent := agent;
      entries := [];
    }

    method EvictExpired(now: Time)
      modifies this`entries
      ensures entries == Since(old(entries), now - windowSeconds as real)
    {
      entries := Recent(entries, now - windowSeconds as real);
    }

    method CurrentUsage(now: Time) returns (used: int)
      modifies this`entries
      ensures entries == Since(old(entries), now - windowSeconds as real)
      ensures used == Sum(entries)
    {
      EvictExpired(now);
      used := Total(entries);
    }

    method Add(now: Time, tokens: int)
      modifies this`entries
      ensures entries == Since(old(entries), now - windowSeconds as real) + [Entry(now, tokens)]
    {
      EvictExpired(now);
      entries := entries + [Entry(now, tokens)];
    }

    method HasBudget(now: Time, estimated: int) returns (ok: bool)
      modifies this`entries
      ensures entries == Since(old(entries), now - windowSeconds as real)
      ensures ok <==> Sum(entries) + estimated <= budget
    {
      var used := CurrentUsage(now);
      ok := used + estimated <= budget;
    }
  }

  lemma ChronologicalInit(log: seq<Op>, op: Op)
    requires Chronological(log + [op])
    ensures Chronological(log) && NotAfter(log, op.now)
  {
    var all := log + [op];
    forall i, j | 0 <= i < j < |log| ensures log[i].now <= log[j].now {
      assert all[i] == log[i] && all[j] == log[j];
    }
    forall i | 0 <= i < |log| ensures log[i].now <= op.now {
      assert all[i] == log[i] && all[|log|] == op;
    }
  }

  /** The comprehension that keeps the entries not older than a cutoff. */
  method Recent(ds: seq<Entry>, cutoff: Time) returns (r: seq<Entry>)
    ensures r == Since(ds, cutoff)
  {
    r := [];
    for k := 0 to |ds|
      invariant r == Since(ds[..k], cutoff)
    {
      assert ds[..k + 1][..k] == ds[..k];
      if ds[k].at >= cutoff {
        r := r + [ds[k]];
      }
    }
    assert ds[..|ds|] == ds;
  }

  method Total(ds: seq<Entry>) returns (total: int)
    ensures total == Sum(ds)
  {
    total := 0;
    for k := 0 to |ds|
      invariant total == Sum(ds[..k])
    {
      SumAppend(ds[..k], ds[k]);
      assert ds[..k + 1] == ds[..k] + [ds[k]];
      total := total + ds[k].tokens;
    }
    assert ds[..|ds|] == ds;
  }

  /** What a window started with, and every operation on it since. */
  datatype History = History(base: seq<Entry>, log: seq<Op>) {
    function Then(op: Op): History {
      History(base, log + [op])
    }

    /** The entry list that lazy eviction leaves. */
    function Kept(window: int): seq<Entry> {
      Accounting.Kept(window, base, log)
    }

    function Usage(window: int, now: Time): int {
      Accounting.Usage(window, base, log, now)
    }

    /** Every debit ever made. */
    function Ledger(): seq<Entry> {
      Accounting.Ledger(base, log)
    }
  }

  const NEW := History([], [])

  lemma KeptThen(h: History, window: int, op: Op)
    ensures h.Then(op).Kept(window)
         == Since(h.Kept(window), op.now - window as real) + (if op.Add? then [Entry(op.now, op.tokens)] else [])
    ensures Sum(Since(h.Kept(window), op.now - window as real)) == h.Usage(window, op.now)
  {
    KeptLast(window, h.base, h.log + [op]);
    assert (h.log + [op])[..|h.log|] == h.log;
  }

  /** Under a nondecreasing clock, what a query adds up is every debit ever made inside the window. */
  lemma UsageOfHistory(h: History, window: int, now: Time)
    ensures Chronological(h.Then(Query(now)).log) ==>
      h.Usage(window, now) == Sum(Since(h.Ledger(), now - window as real))
  {
    if Chronological(h.log + [Query(now)]) {
      ChronologicalInit(h.log, Query(now));
      UsageIsLedgerSum(window, h.base, h.log, now);
    }
  }

  datatype Saved = Saved(entries: seq<Entry>, budget: int, windowSeconds: int)

  class TokenAccountant {
    const budget: int
    const windowSeconds: int
    var states: map<AgentId, WindowState>
    /** The window objects in use, and the windows as values: what each started with and its log. */
    ghost var windows: set<WindowState>
    ghost var view: map<AgentId, History>

    ghost predicate Valid()
      reads this, windows
    {
      && view.Keys == states.Keys
      && forall a :: a in states ==> states[a] in windows && InStep(a, states[a])
    }

    /** An agent's window holds the entries that its history leaves. */
    ghost predicate InStep(a: AgentId, state: WindowState)
      requires a in view
      reads this, state
    {
      && state.agent == a
      && state.budget == budget && state.windowSeconds == windowSeconds
      && state.entries == view[a].Kept(windowSeconds)
    }

    /** After an operation on one agent's window its history follows. */
    ghost method Follow(a: AgentId, history: History)
      requires view.Keys == states.Keys && a in states && states[a] in windows && states[a].agent == a
      requires states[a].budget == budget && states[a].windowSeconds == windowSeconds
      requires states[a].entries == history.Kept(windowSeconds)
      requires forall x :: x in states && x != a ==> states[x] in windows && InStep(x, states[x])
      modifies this`view
      ensures Valid() && view == old(view)[a := history]
    {
      view := view[a := history];
      assert forall x :: x in states && x != a ==> view[x] == old(view)[x];
    }

    /** What an agent's window started with and what happened to it; an agent never seen has had no operation. */
    ghost function Past(a: AgentId): History
      reads `view
    {
      if a in view then view[a] else NEW
    }

    constructor (budget: int, windowSeconds: int)
      ensures Valid() && states == map[] && windows == {}
      ensures this.budget == budget && this.windowSeconds == windowSeconds
    {
      this.budget := budget;
      this.windowSeconds := windowSeconds;
      states, view, windows := map[], map[], {};
    }

    /** The agent's window, made on first access. */
    method StateOf(a: AgentId) returns (state: WindowState)
      requires Valid()
      modifies this`states, this`view, this`windows
      ensures Valid() && a in states && states[a] == state
      ensures a in old(states) ==> states == old(states) && view == old(view)
      ensures a !in old(states) ==> fresh(state) && states == old(states)[a := state] && view == old(view)[a := NEW]
      ensures fresh(windows - old(windows)) && Past(a) == old(Past(a))
    {
      if a !in states {
        var made := new WindowState(budget, windowSeconds, a);
        states, view := states[a := made], view[a := NEW];
        windows := windows + {made};
      }
      state := states[a];
    }

    // One operation on a window that is there, and its history with it.

    method CheckOn(a: AgentId, state: WindowState, estimated: int, now: Time) returns (ok: bool)
      requires Valid() && a in states && states[a] == state
      modifies this`view, state`entries
      ensures Valid() && view == old(view)[a := old(view)[a].Then(Query(now))]
      ensures ok <==> old(view)[a].Usage(windowSeconds, now) + estimated <= budget
    {
      KeptThen(view[a], windowSeconds, Query(now));
      ok := state.HasBudget(now, estimated);
      Follow(a, view[a].Then(Query(now)));
    }

    method AddOn(a: AgentId, state: WindowState, tokens: int, now: Time)
      requires Valid() && a in states && states[a] == state
      modifies this`view, state`entries
      ensures Valid() && view == old(view)[a := old(view)[a].Then(Op.Add(now, tokens))]
    {
      KeptThen(view[a], windowSeconds, Op.Add(now, tokens));
      state.Add(now, tokens);
      Follow(a, view[a].Then(Op.Add(now, tokens)));
    }

    method UsageOn(a: AgentId, state: WindowState, now: Time) returns (used: int)
      requires Valid() && a in states && states[a] == state
      modifies this`view, state`entries
      ensures Valid() && view == old(view)[a := old(view)[a].Then(Query(now))]
      ensures used == old(view)[a].Usage(windowSeconds, now)
    {
      KeptThen(view[a], windowSeconds, Query(now));
      used := state.CurrentUsage(now);
      Follow(a, view[a].Then(Query(now)));
    }

    method CheckBudget(a: AgentId, estimated: int, now: Time) returns (ok: bool)
      requires Valid()
      modifies this, windows
      ensures Valid() && fresh(windows - old(windows))
      ensures Past(a) == old(Past(a)).Then(Query(now))
      ensures ok <==> old(Past(a)).Usage(windowSeconds, now) + estimated <= budget
      ensures forall x :: x != a ==> Past(x) == old(Past(x))
    {
      var state := StateOf(a);
      ok := CheckOn(a, state, estimated, now);
    }

    method DebitTotal(a: AgentId, tokens: int, now: Time)
      requires Valid()
      modifies this, windows
      ensures Valid() && fresh(windows - old(windows))
      ensures Past(a) == old(Past(a)).Then(Op.Add(now, tokens))
      ensures forall x :: x != a ==> Past(x) == old(Past(x))
    {
      var state := StateOf(a);
      AddOn(a, state, tokens, now);
    }

    method Debit(a: AgentId, inputTokens: int, outputTokens: int, now: Time)
      requires Valid()
      modifies this, windows
      ensures Valid() && fresh(windows - old(windows))
      ensures Past(a) == old(Past(a)).Then(Op.Add(now, inputTokens + outputTokens))
      ensures forall x :: x != a ==> Past(x) == old(Past(x))
    {
      DebitTotal(a, inputTokens + outputTokens, now);
    }

    method GetUsage(a: AgentId, now: Time) returns (used: int)
      requires Valid()
      modifies this, windows
      ensures Valid() && fresh(windows - old(windows))
      ensures Past(a) == old(Past(a)).Then(Query(now))
      ensures used == old(Past(a)).Usage(windowSeconds, now)
      ensures forall x :: x != a ==> Past(x) == old(Past(x))
    {
      var state := StateOf(a);
      used := UsageOn(a, state, now);
    }

    /** The snapshot: every agent's entries as they are, nothing evicted. */
    method Save() returns (snapshot: map<AgentId, Saved>)
      requires Valid()
      ensures snapshot.Keys == states.Keys
      ensures forall a :: a in snapshot ==>
        snapshot[a] == Saved(Past(a).Kept(windowSeconds), budget, windowSeconds)
    {
      snapshot := map a | a in states :: Saved(states[a].entries, states[a].budget, states[a].windowSeconds);
    }

    /** One saved agent's window starts over with its saved entries that are not older than the saved window. */
    method RestoreOne(a: AgentId, saved: Saved, now: Time)
      requires Valid()
      modifies this, windows
      ensures Valid() && fresh(windows - old(windows))
      ensures Past(a) == History(Since(saved.entries, now - saved.windowSeconds as real), [])
      ensures forall x :: x != a ==> Past(x) == old(Past(x))
    {
      var state := StateOf(a);
      state.entries := Recent(saved.entries, now - saved.windowSeconds as real);
      Follow(a, History(state.entries, []));
    }

    /** Every saved agent's window is replaced; the others stay as they are. */
    method Restore(snapshot: map<AgentId, Saved>, now: Time)
      requires Valid()
      modifies this, windows
      ensures Valid()
      ensures forall a :: a in snapshot ==>
        Past(a) == History(Since(snapshot[a].entries, now - snapshot[a].windowSeconds as real), [])
      ensures forall a :: a !in snapshot ==> Past(a) == old(Past(a))
    {
      var left := snapshot.Keys;
      while left != {}
        invariant Valid() && left <= snapshot.Keys
        invariant fresh(windows - old(windows))
        invariant forall a :: a in snapshot && a !in left ==>
          Past(a) == History(Since(snapshot[a].entries, now - snapshot[a].windowSeconds as real), [])
        invariant forall a :: a !in snapshot ==> Past(a) == old(Past(a))
        decreases left
      {
        var a :| a in left;
        RestoreOne(a, snapshot[a], now);
        left := left - {a};
      }
    }
  }

  // ---- The whole restart, on the objects ----

  /** Starting up: a new accountant, restored from a snapshot. */
  method StartFrom(snapshot: map<AgentId, Saved>, budget: int, windowSeconds: int, now: Time)
    returns (after: TokenAccountant)
    ensures after.Valid() && fresh(after) && after.budget == budget && after.windowSeconds == windowSeconds
    ensures forall a :: after.Past(a).log == []
    ensures forall a :: a in snapshot ==>
      after.Past(a).base == Since(snapshot[a].entries, now - snapshot[a].windowSeconds as real)
    ensures forall a :: a !in snapshot ==> after.Past(a).base == []
  {
    after := new TokenAccountant(budget, windowSeconds);
    after.Restore(snapshot, now);
  }

  /** Saving and starting up again, window by window; an agent without a window counts as one with no history. */
  method Reload(before: TokenAccountant, budget: int, windowSeconds: int, restored: Time)
    returns (after: TokenAccountant)
    requires before.Valid()
    ensures after.Valid() && fresh(after) && after.budget == budget && after.windowSeconds == windowSeconds
    ensures forall a :: after.Past(a).log == []
    ensures forall a :: var History(base, log) := old(before.Past(a));
      after.Past(a).base == Since(Kept(before.windowSeconds, base, log), restored - before.windowSeconds as real)
  {
    var snapshot := before.Save();
    assert forall a :: a !in snapshot ==> old(before.Past(a)) == NEW;
    after := StartFrom(snapshot, budget, windowSeconds, restored);
  }

  /**
   * A whole restart: save, build a new accountant, restore. Every agent's later answers, whatever is debited after
   * the restart, are those of its ledger without what was older than the saved window at the restore; if the new
   * window is not longer that makes no difference, and they are those of its full ledger.
   */
  method Restart(before: TokenAccountant, budget: int, windowSeconds: int, restored: Time)
    returns (after: TokenAccountant)
    requires before.Valid()
    ensures after.Valid() && fresh(after) && after.budget == budget && after.windowSeconds == windowSeconds
    ensures forall a :: after.Past(a).log == []
    ensures forall a :: var History(base, log) := old(before.Past(a));
      Continues(before.windowSeconds, windowSeconds, after.Past(a).base, base, log, restored)
  {
    after := Reload(before, budget, windowSeconds, restored);
    forall a
      ensures var History(base, log) := old(before.Past(a));
        Continues(before.windowSeconds, windowSeconds, after.Past(a).base, base, log, restored)
    {
      ghost var History(base, log) := old(before.Past(a));
      RestoredContinues(before.windowSeconds, windowSeconds, base, log, restored);
    }
  }
}
