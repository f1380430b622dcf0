/** The queue and controller objects; every await splits a method in two. */
module Controllers {
  import opened Types
  import Accounting
  import opened Registry
  import opened Accountants
  import opened Admission

  class BackpressureQueue {
    /** The semaphore's value. */
    var free: int
    var queued: int
    const maxQueue: int

    constructor (maxInflight: int, maxQueue: int)
      ensures free == maxInflight && queued == 0 && this.maxQueue == maxQueue
    {
      this.free := maxInflight;
      this.queued := 0;
      this.maxQueue := maxQueue;
    }

    /** acquire up to its await: false stands for the "queue full" error. */
    method Enter() returns (ok: bool)
      modifies this`queued
      ensures ok <==> old(queued) < maxQueue
      ensures queued == if ok then old(queued) + 1 else old(queued)
    {
      if queued >= maxQueue {
        return false;
      }
      queued := queued + 1;
      ok := true;
    }

    /** acquire after its await, which ended with a permit or without one; the finally part runs either way. */
    method Resume(granted: bool)
      requires granted ==> free > 0
      modifies this`free, this`queued
      ensures free == (if granted then old(free) - 1 else old(free)) && queued == old(queued) - 1
    {
      if granted {
        free := free - 1;
      }
      queued := queued - 1;
    }

    method Release()
      modifies this`free
      ensures free == old(free) + 1
    {
      free := free + 1;
    }
  }

  /** A debit adds exactly one entry to the ledger. */
  lemma DebitExtendsLedger(past: History, now: Time, tokens: int)
    ensures past.Then(Accounting.Add(now, tokens)).Ledger() == past.Ledger() + [Accounting.Entry(now, tokens)]
  {
    assert (past.log + [Accounting.Add(now, tokens)])[..|past.log|] == past.log;
  }

  lemma QueryKeepsLedger(past: History, now: Time)
    ensures past.Then(Accounting.Query(now)).Ledger() == past.Ledger()
  {
    assert (past.log + [Accounting.Query(now)])[..|past.log|] == past.log;
  }

  /** What the backends of a list take together. */
  function Inflight(bs: seq<BackendInfo>): int {
    if bs == [] then 0 else Inflight(bs[..|bs| - 1]) + bs[|bs| - 1].maxInflight
  }

  /** It adds: over lists put together, and so over lists with the same backends in any order. */
  lemma {:induction false} InflightAdds(a: seq<BackendInfo>, b: seq<BackendInfo>)
    ensures Inflight(a + b) == Inflight(a) + Inflight(b)
    decreases b
  {
    if b == [] {
      assert a + b == a;
    } else {
      InflightAdds(a, b[..|b| - 1]);
      assert (a + b)[..|a + b| - 1] == a + b[..|b| - 1];
    }
  }

  lemma InflightOfOne(b: BackendInfo)
    ensures Inflight([]) == 0 && Inflight([b]) == b.maxInflight
  {
    assert [b][..0] == [];
  }

  /** A backend more adds exactly its own limit, wherever it stands. */
  lemma InflightOneMore(before: seq<BackendInfo>, x: BackendInfo, after: seq<BackendInfo>)
    ensures Inflight(before + [x] + after) == Inflight(before + after) + x.maxInflight
  {
    InflightOfOne(x);
    InflightAdds(before + [x], after);
    InflightAdds(before, [x]);
    InflightAdds(before, after);
  }

  lemma SplitAt(b: seq<BackendInfo>, x: BackendInfo) returns (before: seq<BackendInfo>, after: seq<BackendInfo>)
    requires x in multiset(b)
    ensures b == before + [x] + after && multiset(b) == multiset(before + after) + multiset{x}
  {
    var k :| 0 <= k < |b| && b[k] == x;
    before, after := b[..k], b[k + 1..];
    assert b == before + [x] + after;
  }

  lemma {:induction false} InflightIgnoresOrder(a: seq<BackendInfo>, b: seq<BackendInfo>)
    requires multiset(a) == multiset(b)
    ensures Inflight(a) == Inflight(b)
    decreases a
  {
    if a == [] {
      assert |multiset(b)| == |b|;
    } else {
      var x, rest := a[0], a[1..];
      HeadAndTail(a);
      var before, after := SplitAt(b, x);
      Cancel(multiset(rest), multiset(before + after), x);
      InflightIgnoresOrder(rest, before + after);
      InflightOneMore([], x, rest);
      InflightOneMore(before, x, after);
    }
  }

  lemma Cancel<T>(m: multiset<T>, n: multiset<T>, x: T)
    requires m + multiset{x} == n + multiset{x}
    ensures m == n
  {
    assert m == m + multiset{x} - multiset{x} && n == n + multiset{x} - multiset{x};
  }

  lemma HeadAndTail(a: seq<BackendInfo>)
    requires a != []
    ensures multiset(a) == multiset(a[1..]) + multiset{a[0]}
    ensures [] + [a[0]] + a[1..] == a && [] + a[1..] == a[1..]
  {
    assert a == [a[0]] + a[1..];
  }

  lemma {:induction false} InflightCovers(bs: seq<BackendInfo>)
    requires forall b :: b in bs ==> b.maxInflight >= 0
    ensures forall b :: b in bs ==> b.maxInflight <= Inflight(bs)
    ensures Inflight(bs) >= 0
  {
    if bs == [] {
    } else {
      InflightCovers(bs[..|bs| - 1]);
    }
  }

  class AdmissionController {
    const accountant: TokenAccountant
    const registry: BackendRegistry
    const big: BackpressureQueue
    const small: BackpressureQueue
    var held: map<SessionId, Tier>

    ghost predicate Valid()
      reads this
    {
      && big != small && big.maxQueue == small.maxQueue
      && forall s :: s in held ==> held[s] != Auto
    }

    ghost function View(): Controller
      reads this, big, small
    {
      Controller(PerTier(Queue(small.free, small.queued), Queue(big.free, big.queued)), held, big.maxQueue)
    }

    /** A tier starts with as many permits as its healthy backends take together, but at least one. */
    constructor (maxQueue: int, accountant: TokenAccountant, registry: BackendRegistry)
      ensures Valid() && fresh(big) && fresh(small)
      ensures this.accountant == accountant && this.registry == registry
      ensures var cap := (t: Tier) => var n := Inflight(HealthyOf(old(registry.backends), t)); if n < 1 then 1 else n;
        && View() == Start(PerTier(cap(Small), cap(Big)), maxQueue).c
        && QueueOf(Small).free == cap(Small) && QueueOf(Big).free == cap(Big) && held == map[]
        && QueueOf(Small).queued == QueueOf(Big).queued == 0
        && QueueOf(Small).maxQueue == QueueOf(Big).maxQueue == maxQueue
    {
      var b := TotalInflight(registry, Big);
      var s := TotalInflight(registry, Small);
      var bigQueue := new BackpressureQueue(b, maxQueue);
      var smallQueue := new BackpressureQueue(s, maxQueue);
      this.accountant, this.registry := accountant, registry;
      big := bigQueue;
      small := smallQueue;
      held := map[];
    }

    static method TotalInflight(registry: BackendRegistry, tier: Tier) returns (total: int)
      ensures var n := Inflight(HealthyOf(registry.backends, tier)); total == if n < 1 then 1 else n
      ensures (forall b :: b in registry.backends ==> b.maxInflight >= 0) ==>
        forall b :: b in registry.backends && b.tier == tier && b.status == Healthy ==> b.maxInflight <= total
    {
      var healthy := registry.GetHealthyBackends(tier);
      total := 0;
      for k := 0 to |healthy|
        invariant total == Inflight(healthy[..k])
      {
        assert healthy[..k + 1][..k] == healthy[..k];
        total := total + healthy[k].maxInflight;
      }
      assert healthy[..|healthy|] == healthy;
      HealthyMembers(registry.backends, tier);
      if forall b :: b in registry.backends ==> b.maxInflight >= 0 {
        InflightCovers(healthy);
      }
      if total < 1 {
        total := 1;
      }
    }

    function QueueOf(tier: Tier): BackpressureQueue
      requires tier != Auto
    {
      if tier == Big then big else small
    }

    /** The budget check; on refusal the usage is read once more for the error message. Nothing is ever charged. */
    method CheckFunds(agent: AgentId, estimated: int, now: Time) returns (ok: bool)
      requires accountant.Valid()
      modifies accountant, accountant.windows
      ensures accountant.Valid()
      ensures ok <==> old(accountant.Past(agent)).Usage(accountant.windowSeconds, now) + estimated <= accountant.budget
      ensures accountant.Past(agent).Ledger() == old(accountant.Past(agent)).Ledger()
      ensures forall a :: a != agent ==> accountant.Past(a) == old(accountant.Past(a))
    {
      ghost var past := accountant.Past(agent);
      ok := accountant.CheckBudget(agent, estimated, now);
      QueryKeepsLedger(past, now);
      if !ok {
        var used := accountant.GetUsage(agent, now);
        QueryKeepsLedger(past.Then(Accounting.Query(now)), now);
      }
    }

    /** What is left of gate once the budget and the registry have answered. */
    method EnterQueue(tier: Tier, withinBudget: bool, anyHealthy: bool) returns (r: GateResult)
      requires Valid()
      modifies big, small
      ensures Valid() && r == GateAnswer(old(View()), tier, withinBudget, anyHealthy)
      ensures View() == if r == Enqueued then old(View()).Adjust(tier, 0, 1) else old(View())
      // The budget comes first, then the backends, then the tier, then the room in its queue.
      ensures r == OverBudget <==> !withinBudget
      ensures r == NoBackend <==> withinBudget && !anyHealthy
      ensures r == NoQueue <==> withinBudget && anyHealthy && tier == Auto
      ensures r == QueueFull <==> withinBudget && anyHealthy && tier != Auto
                                  && old(QueueOf(tier).queued) >= QueueOf(tier).maxQueue
      // Only being enqueued shows, in the tier's own waiting count.
      ensures big.free == old(big.free) && small.free == old(small.free)
      ensures big.queued == old(big.queued) + (if r == Enqueued && big == QueueOf(tier) then 1 else 0)
      ensures small.queued == old(small.queued) + (if r == Enqueued && small == QueueOf(tier) then 1 else 0)
    {
      if !withinBudget {
        return OverBudget;
      }
      if !anyHealthy {
        return NoBackend;
      }
      if tier == Auto {
        return NoQueue;
      }
      var ok := QueueOf(tier).Enter();
      r := if ok then Enqueued else QueueFull;
    }

    /** gate up to its await. */
    method GateEnter(agent: AgentId, tier: Tier, estimated: int, now: Time) returns (r: GateResult)
      requires Valid() && accountant.Valid()
      modifies accountant, accountant.windows, big, small
      ensures Valid() && accountant.Valid()
      ensures var withinBudget :=
          old(accountant.Past(agent)).Usage(accountant.windowSeconds, now) + estimated <= accountant.budget;
        r == GateAnswer(old(View()), tier, withinBudget, HealthyOf(registry.backends, tier) != [])
      ensures View() == if r == Enqueued then old(View()).Adjust(tier, 0, 1) else old(View())
      ensures var withinBudget :=
          old(accountant.Past(agent)).Usage(accountant.windowSeconds, now) + estimated <= accountant.budget;
        var anyHealthy := exists b :: b in registry.backends && b.tier == tier && b.status == Healthy;
        && (r == OverBudget <==> !withinBudget)
        && (r == NoBackend <==> withinBudget && !anyHealthy)
        && (r == NoQueue <==> withinBudget && anyHealthy && tier == Auto)
        && (r == QueueFull <==> withinBudget && anyHealthy && tier != Auto
                                && old(QueueOf(tier).queued) >= QueueOf(tier).maxQueue)
      ensures accountant.Past(agent).Ledger() == old(accountant.Past(agent)).Ledger()
      ensures forall a :: a != agent ==> accountant.Past(a) == old(accountant.Past(a))
    {
      var withinBudget := CheckFunds(agent, estimated, now);
      var healthy := registry.GetHealthyBackends(tier);
      HealthyMembers(registry.backends, tier);
      assert healthy != [] ==> healthy[0] in healthy;
      r := EnterQueue(tier, withinBudget, healthy != []);
    }

    /** While a request is suspended the others may bring the controller into any state with the same queue limit. */
    method Elapse(state: Controller)
      requires Valid() && state.maxQueue == View().maxQueue && forall s :: s in state.held ==> state.held[s] != Auto
      modifies this, big, small
      ensures Valid() && View() == state
    {
      small.free, small.queued := state.queues.small.free, state.queues.small.queued;
      big.free, big.queued := state.queues.big.free, state.queues.big.queued;
      held := state.held;
    }

    /** gate after its await: a grant is recorded, a timeout or cancellation only leaves the queue. */
    method GateResume(s: SessionId, tier: Tier, granted: bool)
      requires Valid() && tier != Auto && (granted ==> View().Free(tier) > 0)
      modifies this, big, small
      ensures Valid()
      ensures View() == if granted then Admit(old(View()), s, tier) else old(View()).Adjust(tier, 0, -1)
      ensures held == if granted then old(held)[s := tier] else old(held)
      ensures QueueOf(tier).free == old(QueueOf(tier).free) - (if granted then 1 else 0)
      ensures QueueOf(tier).queued == old(QueueOf(tier).queued) - 1
      ensures forall q :: q in {big, small} && q != QueueOf(tier) ==> q.free == old(q.free) && q.queued == old(q.queued)
    {
      QueueOf(tier).Resume(granted);
      if granted {
        held := held[s := tier];
      }
    }

    /** The permit of the recorded tier is given back; the tier named by the caller is not looked at. */
    method Release(s: SessionId, tier: Tier)
      requires Valid()
      modifies this, big, small
      ensures Valid() && View() == Admission.Release(old(View()), s)
      ensures held == old(held) - {s}
      ensures big.queued == old(big.queued) && small.queued == old(small.queued)
      ensures forall q :: q in {big, small} ==>
        q.free == old(q.free) + (if s in old(held) && q == QueueOf(old(held)[s]) then 1 else 0)
    {
      if s in held {
        var recorded := held[s];
        held := held - {s};
        QueueOf(recorded).Release();
      }
    }
  }
}
