/** The scheduler object: sticky entries live on the heap and are updated in place. */
module Scheduler {
  import opened Types
  import opened Registry
  import opened Affinity
  import Hrw

  /** A metric labelled by tier. */
  datatype Counter = Counter(small: nat, big: nat, auto: nat) {
    function Plus(tier: Tier, n: nat): (c: Counter)
      ensures c.small == small + (if tier == Small then n else 0)
      ensures c.big == big + (if tier == Big then n else 0)
      ensures c.auto == auto + (if tier == Auto then n else 0)
    {
      match tier
      case Small => this.(small := small + n)
      case Big => this.(big := big + n)
      case Auto => this.(auto := auto + n)
    }
  }

  lemma CounterAdds(c: Counter, tier: Tier, n: nat)
    ensures c.Plus(tier, n).Plus(tier, 1) == c.Plus(tier, n + 1)
  {
  }

  class StickyEntry {
    var backendId: BackendId
    var tier: Tier
    var expiresAt: Time
    /** The session the entry was made for. */
    ghost const session: SessionId

    constructor (backendId: BackendId, tier: Tier, ttl: int, now: Time, ghost session: SessionId)
      ensures this.backendId == backendId && this.tier == tier && expiresAt == now + ttl as real
      ensures this.session == session
    {
      this.session := session;
      this.backendId := backendId;
      this.tier := tier;
      expiresAt := now + ttl as real;
    }
  }

  class AffinityScheduler {
    const registry: BackendRegistry
    const ttl: int
    const score: Score
    var sticky: map<SessionId, StickyEntry>
    var hits: Counter
    var misses: Counter
    var broken: Counter

    /** The table as a value, and the entry objects in use. */
    ghost var view: Sticky
    ghost var entries: set<StickyEntry>

    /** The view is what the entry objects hold, and every session has an entry object of its own. */
    ghost predicate Valid()
      reads this`view, this`sticky, this`entries, entries
    {
      && (forall s :: s in view ==> s in sticky)
      && forall s :: s in sticky ==>
           && s in view
           && sticky[s] in entries && sticky[s].session == s
           && view[s] == Entry(sticky[s].backendId, sticky[s].tier, sticky[s].expiresAt)
    }

    constructor (registry: BackendRegistry, score: Score, ttl: int)
      ensures Valid() && view == map[]
      ensures this.registry == registry && this.score == score && this.ttl == ttl
      ensures hits == misses == broken == Counter(0, 0, 0)
    {
      this.registry := registry;
      this.score := score;
      this.ttl := ttl;
      sticky := map[];
      view := map[];
      entries := {};
      hits, misses, broken := Counter(0, 0, 0), Counter(0, 0, 0), Counter(0, 0, 0);
    }

    /** Slide a session's window, in place. */
    method Refresh(s: SessionId, now: Time)
      requires Valid() && s in sticky
      modifies this`view, {sticky[s]}`expiresAt
      ensures Valid() && view == old(view)[s := old(view)[s].(expiresAt := now + ttl as real)]
    {
      sticky[s].expiresAt := now + ttl as real;
      view := view[s := view[s].(expiresAt := now + ttl as real)];
    }

    /** Store a fresh entry object for a session. */
    method Bind(s: SessionId, backendId: BackendId, tier: Tier, stamp: Time)
      requires Valid()
      modifies this`view, this`sticky, this`entries
      ensures Valid() && fresh(entries - old(entries))
      ensures view == old(view)[s := Entry(backendId, tier, stamp + ttl as real)]
    {
      var entry := new StickyEntry(backendId, tier, ttl, stamp, s);
      sticky := sticky[s := entry];
      entries := entries + {entry};
      view := view[s := Entry(backendId, tier, stamp + ttl as real)];
    }

    method SelectBackend(s: SessionId, tier: Tier, cands: seq<BackendInfo>, now: Time, stamp: Time)
      returns (answer: Option<Choice>)
      requires Valid()
      modifies this, entries
      ensures Valid() && fresh(entries - old(entries))
      ensures view == Affinity.SelectBackend(score, ttl, old(view), s, tier, cands, now, stamp).0
      ensures answer == Affinity.SelectBackend(score, ttl, old(view), s, tier, cands, now, stamp).1
      ensures hits == if answer.Some? && answer.value.hit then old(hits).Plus(tier, 1) else old(hits)
      ensures misses == if answer.Some? && !answer.value.hit then old(misses).Plus(tier, 1) else old(misses)
      ensures broken == old(broken)
      // The counter of the tier asked for grows by one, no other.
      ensures var hit, miss := answer.Some? && answer.value.hit, answer.Some? && !answer.value.hit;
        && hits.small == old(hits.small) + (if hit && tier == Small then 1 else 0)
        && hits.big == old(hits.big) + (if hit && tier == Big then 1 else 0)
        && hits.auto == old(hits.auto) + (if hit && tier == Auto then 1 else 0)
        && misses.small == old(misses.small) + (if miss && tier == Small then 1 else 0)
        && misses.big == old(misses.big) + (if miss && tier == Big then 1 else 0)
        && misses.auto == old(misses.auto) + (if miss && tier == Auto then 1 else 0)
    {
      if cands == [] {
        return None;
      }
      if s in sticky {
        var entry := sticky[s];
        if entry.expiresAt > now && entry.backendId in Ids(cands) {
          Refresh(s, now);
          hits := hits.Plus(tier, 1);
          var found := Next(cands, entry.backendId);
          return Some(Choice(found, true));
        }
      }
      var chosen := Best(s, cands);
      Bind(s, chosen.id, tier, stamp);
      misses := misses.Plus(tier, 1);
      answer := Some(Choice(chosen, false));
    }

    /** The scan behind next(b for b in candidates if b.id == ...). */
    method Next(cands: seq<BackendInfo>, id: BackendId) returns (b: BackendInfo)
      requires id in Ids(cands)
      ensures b == FirstWithId(cands, id)
    {
      var k := 0;
      while cands[k].id != id
        invariant k < |cands| && id in Ids(cands[k..])
        invariant FirstWithId(cands[k..], id) == FirstWithId(cands, id)
        decreases |cands| - k
      {
        assert cands[k..] == [cands[k]] + cands[k + 1..];
        assert cands[k..][1..] == cands[k + 1..];
        k := k + 1;
      }
      b := cands[k];
    }

    /** The scan behind max(candidates, key=...): the first candidate of maximal score. */
    method Best(s: SessionId, cands: seq<BackendInfo>) returns (b: BackendInfo)
      requires cands != []
      ensures b == Hrw.Select(score, s, cands)
    {
      b := cands[0];
      assert cands[..1][..0] == [];
      for k := 1 to |cands|
        invariant b == Hrw.Select(score, s, cands[..k])
      {
        assert cands[..k + 1][..k] == cands[..k];
        if score(s, cands[k].id) > score(s, b.id) {
          b := cands[k];
        }
      }
      assert cands[..|cands|] == cands;
    }

    method Invalidate(s: SessionId)
      requires Valid()
      modifies this`sticky, this`view
      ensures Valid() && sticky == old(sticky) - {s}
      ensures view == old(view) - {s}
    {
      sticky := sticky - {s};
      view := view - {s};
    }

    /** The registry is read first; other steps may run between the read and the migration. */
    method ReadSurvivors(id: BackendId, tier: Tier) returns (survivors: seq<BackendInfo>)
      ensures survivors == Survivors(registry.backends, id, tier)
    {
      var healthy := registry.GetHealthyBackends(tier);
      survivors := [];
      for k := 0 to |healthy|
        invariant survivors == Without(healthy[..k], {id})
      {
        assert healthy[..k + 1][..k] == healthy[..k];
        if healthy[k].id != id {
          survivors := survivors + [healthy[k]];
        }
      }
      assert healthy[..|healthy|] == healthy;
    }

    /** One affected session: pointed at its best survivor in place, or dropped. */
    method MigrateOne(s: SessionId, tier: Tier, survivors: seq<BackendInfo>)
      requires Valid() && s in sticky
      modifies this`sticky, this`view, this`broken, {sticky[s]}`backendId
      ensures Valid()
      ensures broken == old(broken).Plus(tier, 1)
      ensures broken.small == old(broken.small) + (if tier == Small then 1 else 0)
      ensures broken.big == old(broken.big) + (if tier == Big then 1 else 0)
      ensures broken.auto == old(broken.auto) + (if tier == Auto then 1 else 0)
      ensures view == if survivors == [] then old(view) - {s}
                        else old(view)[s := old(view)[s].(backendId := Hrw.Select(score, s, survivors).id)]
    {
      if survivors != [] {
        var best := Best(s, survivors);
        sticky[s].backendId := best.id;
        view := view[s := view[s].(backendId := best.id)];
      } else {
        sticky := sticky - {s};
        view := view - {s};
      }
      broken := broken.Plus(tier, 1);
    }

    /**
     * One round of the migration loop, on a table in which the sessions in done are already migrated, and counted in
     * as many rounds on top of where the counter started.
     */
    method MigrateRound(ghost before: Sticky, ghost start: Counter, ghost done: set<SessionId>, ghost rounds: nat,
                        s: SessionId, tier: Tier, survivors: seq<BackendInfo>)
      requires Valid() && s in before && s !in done
      requires view == MigrateSome(score, before, done, survivors) && broken == start.Plus(tier, rounds)
      modifies this`sticky, this`view, this`broken, entries
      ensures Valid() && view == MigrateSome(score, before, done + {s}, survivors)
      ensures broken == start.Plus(tier, rounds + 1)
    {
      MigrateOneMore(score, before, done, s, survivors);
      MigrateOne(s, tier, survivors);
      CounterAdds(start, tier, rounds);
    }

    /** The migration loop over the sessions it is to migrate. */
    method MigrateEach(affected: set<SessionId>, tier: Tier, survivors: seq<BackendInfo>)
      requires Valid() && affected <= view.Keys
      modifies this`sticky, this`view, this`broken, entries
      ensures Valid() && view == MigrateSome(score, old(view), affected, survivors)
      ensures broken == old(broken).Plus(tier, |affected|)
    {
      ghost var before, start, rounds: nat := view, broken, 0;
      var pending := affected;
      MigrateNobody(score, before, survivors);
      assert affected - pending == {};
      while pending != {}
        invariant Valid() && pending <= affected
        invariant view == MigrateSome(score, before, affected - pending, survivors)
        invariant broken == start.Plus(tier, rounds) && rounds + |pending| == |affected|
        decreases pending
      {
        var s :| s in pending;
        MigrateRound(before, start, affected - pending, rounds, s, tier, survivors);
        assert (affected - pending) + {s} == affected - (pending - {s});
        pending, rounds := pending - {s}, rounds + 1;
      }
      assert affected - {} == affected;
    }

    /** The locked part of on_backend_down, over whatever survivor list was read. */
    method MigrateSessions(id: BackendId, tier: Tier, survivors: seq<BackendInfo>)
      requires Valid()
      modifies this`sticky, this`view, this`broken, entries
      ensures Valid()
      ensures view == Migrate(score, old(view), id, tier, survivors)
      ensures var moved := |AffectedSessions(old(view), id, tier)|;
        && broken.small == old(broken.small) + (if tier == Small then moved else 0)
        && broken.big == old(broken.big) + (if tier == Big then moved else 0)
        && broken.auto == old(broken.auto) + (if tier == Auto then moved else 0)
    {
      MigrateEverybody(score, view, id, tier, survivors);
      var affected := set s | s in sticky && sticky[s].backendId == id && sticky[s].tier == tier;
      assert affected == AffectedSessions(view, id, tier);
      MigrateEach(affected, tier, survivors);
    }
  }

  function AffectedSessions(m: Sticky, id: BackendId, tier: Tier): set<SessionId> {
    set s | s in m && Affected(m[s], id, tier)
  }

  lemma AffectedSessionsAre(m: Sticky, id: BackendId, tier: Tier)
    ensures forall s :: s in AffectedSessions(m, id, tier) <==> s in m && m[s].backendId == id && m[s].tier == tier
  {
  }

  /** Migration of some sessions only. */
  function MigrateSome(score: Score, m: Sticky, some: set<SessionId>, survivors: seq<BackendInfo>): Sticky {
    map s | s in m && (s in some ==> survivors != []) ::
      if s in some then m[s].(backendId := Hrw.Select(score, s, survivors).id) else m[s]
  }

  lemma MigrateNobody(score: Score, m: Sticky, survivors: seq<BackendInfo>)
    ensures MigrateSome(score, m, {}, survivors) == m
  {
  }

  lemma MigrateEverybody(score: Score, m: Sticky, id: BackendId, tier: Tier, survivors: seq<BackendInfo>)
    ensures MigrateSome(score, m, AffectedSessions(m, id, tier), survivors) == Migrate(score, m, id, tier, survivors)
  {
  }

  lemma MigrateOneMore(score: Score, m: Sticky, some: set<SessionId>, s: SessionId, survivors: seq<BackendInfo>)
    requires s in m && s !in some
    ensures var m' := MigrateSome(score, m, some, survivors);
      && s in m' && m'[s] == m[s]
      && MigrateSome(score, m, some + {s}, survivors)
         == if survivors == [] then m' - {s} else m'[s := m[s].(backendId := Hrw.Select(score, s, survivors).id)]
  {
    var m' := MigrateSome(score, m, some, survivors);
    var m'' := MigrateSome(score, m, some + {s}, survivors);
    if survivors == [] {
      assert m''.Keys == m'.Keys - {s};
    } else {
      assert m''.Keys == m'.Keys;
    }
  }
}
