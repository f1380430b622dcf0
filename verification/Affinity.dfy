/** The sticky session table as a value, and runs of it against a changing registry. */
module Affinity {
  import opened Types
  import opened Registry
  import Hrw

  datatype Entry = Entry(backendId: BackendId, tier: Tier, expiresAt: Time)

  type Sticky = map<SessionId, Entry>

  datatype Choice = Choice(backend: BackendInfo, hit: bool)

  predicate Usable(e: Entry, now: Time, cands: seq<BackendInfo>) {
    e.expiresAt > now && e.backendId in Ids(cands)
  }

  /** The first candidate carrying an id. */
  function FirstWithId(cands: seq<BackendInfo>, id: BackendId): (b: BackendInfo)
    requires id in Ids(cands)
    ensures b in cands && b.id == id
  {
    if cands[0].id == id then cands[0]
    else
      assert cands == [cands[0]] + cands[1..];
      FirstWithId(cands[1..], id)
  }

  /** It is the first one listed under that id. */
  lemma {:induction false} FirstIsFirst(cands: seq<BackendInfo>, id: BackendId)
    requires id in Ids(cands)
    ensures exists k ::
      0 <= k < |cands| && cands[k] == FirstWithId(cands, id) && forall j :: 0 <= j < k ==> cands[j].id != id
  {
    if cands[0].id == id {
      assert cands[0] == FirstWithId(cands, id);
    } else {
      var rest := cands[1..];
      assert cands == [cands[0]] + rest;
      FirstIsFirst(rest, id);
      var k :| 0 <= k < |rest| && rest[k] == FirstWithId(rest, id) && forall j :: 0 <= j < k ==> rest[j].id != id;
      assert cands[k + 1] == FirstWithId(cands, id);
      forall j | 0 <= j < k + 1 ensures cands[j].id != id {
        assert j > 0 ==> cands[j] == rest[j - 1];
      }
    }
  }

  /**
   * One select: the new table and the answer, None standing for the "no backend available" error.
   * A miss reads the clock a second time (stamp) when it builds the entry.
   */
  function SelectBackend(score: Score, ttl: int, m: Sticky, s: SessionId, tier: Tier,
                         cands: seq<BackendInfo>, now: Time, stamp: Time): (Sticky, Option<Choice>)
  {
    if cands == [] then (m, None)
    else if s in m && Usable(m[s], now, cands) then
      (m[s := m[s].(expiresAt := now + ttl as real)], Some(Choice(FirstWithId(cands, m[s].backendId), true)))
    else
      var chosen := Hrw.Select(score, s, cands);
      (m[s := Entry(chosen.id, tier, stamp + ttl as real)], Some(Choice(chosen, false)))
  }

  /**
   * What one select writes: nothing on an error; on a hit the session's expiry, while its backend and the tier it was
   * bound on stay; on a miss an entry for the backend answered, on the tier asked for. No other session is touched.
   */
  lemma SelectWrites(score: Score, ttl: int, m: Sticky, s: SessionId, tier: Tier, cands: seq<BackendInfo>,
                     now: Time, stamp: Time)
    ensures var (m', answer) := SelectBackend(score, ttl, m, s, tier, cands, now, stamp);
      && (answer.None? ==> m' == m)
      && (forall x :: x != s ==> (x in m' <==> x in m) && (x in m ==> m'[x] == m[x]))
      && (answer.Some? ==> s in m' && m'[s].backendId == answer.value.backend.id)
      && (answer.Some? && answer.value.hit ==>
            s in m && m'[s].tier == m[s].tier && m'[s].expiresAt == now + ttl as real)
      && (answer.Some? && !answer.value.hit ==> m'[s].tier == tier && m'[s].expiresAt == stamp + ttl as real)
  {
  }

  predicate Affected(e: Entry, id: BackendId, tier: Tier) {
    e.backendId == id && e.tier == tier
  }

  /** Every binding to a backend of a tier moved to its best survivor, or dropped when there is none. */
  function Migrate(score: Score, m: Sticky, id: BackendId, tier: Tier, survivors: seq<BackendInfo>): Sticky {
    map s | s in m && (Affected(m[s], id, tier) ==> survivors != []) ::
      if Affected(m[s], id, tier) then m[s].(backendId := Hrw.Select(score, s, survivors).id) else m[s]
  }

  function Survivors(bs: seq<BackendInfo>, id: BackendId, tier: Tier): seq<BackendInfo> {
    Without(HealthyOf(bs, tier), {id})
  }

  /**
   * What one on_backend_down call does: no binding to that backend and tier is left, all other entries
   * are as before, and an affected session is evicted exactly when nobody survives; if it is kept, its
   * tier and expiry are kept and it sits on its best survivor.
   */
  lemma MigrationIsExact(score: Score, m: Sticky, id: BackendId, tier: Tier, bs: seq<BackendInfo>)
    ensures var survivors := Survivors(bs, id, tier);
      var m' := Migrate(score, m, id, tier, survivors);
      && (forall b :: b in survivors <==> b in bs && b.tier == tier && b.status == Healthy && b.id != id)
      && (forall s :: s in m' ==> !(m'[s].backendId == id && m'[s].tier == tier))
      && (forall s :: s in m && !Affected(m[s], id, tier) ==> s in m' && m'[s] == m[s])
      && (forall s :: s in m' ==> s in m && m'[s].tier == m[s].tier && m'[s].expiresAt == m[s].expiresAt)
      && m.Keys - m'.Keys == (if survivors == [] then set s | s in m && Affected(m[s], id, tier) else {})
      && (forall s :: s in m' && Affected(m[s], id, tier) ==>
            survivors != [] && m'[s].backendId == Hrw.Select(score, s, survivors).id)
  {
    var survivors := Survivors(bs, id, tier);
    HealthyMembers(bs, tier);
    WithoutMembers(HealthyOf(bs, tier), {id});
    if survivors != [] {
      forall s ensures Hrw.Select(score, s, survivors) in survivors {}
    }
  }

  // ---- Runs over a changing registry ----

  /**
   * All registry tables seen so far, the current one last, the sticky table, and the clock reading of the latest
   * return of a backend, if there was one.
   */
  datatype World = World(versions: seq<seq<BackendInfo>>, sticky: Sticky, clock: Option<Time>)

  datatype Step =
    | Leave(id: BackendId, status: BackendStatus)
    | Return(id: BackendId, at: Time)
    | Select(s: SessionId, tier: Tier, now: Time, stamp: Time)
    | Invalidate(s: SessionId)
      // on_backend_down whose survivor list was read from table number `seen`, maybe long ago
    | BackendDown(id: BackendId, tier: Tier, seen: nat)

  function Current(w: World): seq<BackendInfo>
    requires w.versions != []
  {
    w.versions[|w.versions| - 1]
  }

  /** No later turn or return reads the clock before the latest return. */
  predicate NotBefore(clock: Option<Time>, now: Time) {
    clock.Some? ==> clock.value <= now
  }

  predicate Allowed(w: World, step: Step) {
    w.versions != [] &&
    match step
    case Leave(_, status) => status != Healthy
    case Return(_, at) => NotBefore(w.clock, at)
    case Select(_, _, now, _) => NotBefore(w.clock, now)
    case Invalidate(_) => true
    case BackendDown(id, tier, seen) => seen < |w.versions| && id !in Ids(HealthyOf(Current(w), tier))
  }

  /** One atomic step, and the answers it gives (one for a select, none otherwise). */
  function Next(score: Score, ttl: int, w: World, step: Step): (World, seq<Option<Choice>>)
    requires Allowed(w, step)
  {
    match step
    case Leave(id, status) => (w.(versions := w.versions + [Mark(Current(w), id, status)]), [])
    case Return(id, at) => (w.(versions := w.versions + [Mark(Current(w), id, Healthy)], clock := Some(at)), [])
    case Select(s, tier, now, stamp) =>
      var (m, answer) := SelectBackend(score, ttl, w.sticky, s, tier, HealthyOf(Current(w), tier), now, stamp);
      (w.(sticky := m), [answer])
    case Invalidate(s) => (w.(sticky := w.sticky - {s}), [])
    case BackendDown(id, tier, seen) =>
      (w.(sticky := Migrate(score, w.sticky, id, tier, Survivors(w.versions[seen], id, tier))), [])
  }

  predicate Run(score: Score, ttl: int, w: World, steps: seq<Step>)
    decreases steps
  {
    steps != [] ==> Allowed(w, steps[0]) && Run(score, ttl, Next(score, ttl, w, steps[0]).0, steps[1..])
  }

  function Routed(answer: Option<Choice>): Option<BackendInfo> {
    if answer.None? then None else Some(answer.value.backend)
  }

  /** The backends that the selects of a run return, in order. */
  function Replies(score: Score, ttl: int, w: World, steps: seq<Step>): seq<Option<BackendInfo>>
    requires Run(score, ttl, w, steps)
    decreases steps
  {
    if steps == [] then []
    else
      var (w', answers) := Next(score, ttl, w, steps[0]);
      (if answers == [] then [] else [Routed(answers[0])]) + Replies(score, ttl, w', steps[1..])
  }

  /** The simple form: no table at all, each select is the rendezvous choice over the current healthy list. */
  function StatelessReplies(score: Score, bs: seq<BackendInfo>, steps: seq<Step>): seq<Option<BackendInfo>>
    decreases steps
  {
    if steps == [] then []
    else match steps[0]
      case Leave(id, status) => StatelessReplies(score, Mark(bs, id, status), steps[1..])
      case Return(id, _) => StatelessReplies(score, Mark(bs, id, Healthy), steps[1..])
      case Select(s, tier, _, _) =>
        var cands := HealthyOf(bs, tier);
        [if cands == [] then None else Some(Hrw.Select(score, s, cands))] + StatelessReplies(score, bs, steps[1..])
      case _ => StatelessReplies(score, bs, steps[1..])
  }

  /** An invalidated session's next turn is a miss, whatever was bound; nobody else notices. */
  lemma InvalidateForgets(score: Score, ttl: int, w: World, s: SessionId, tier: Tier, now: Time, stamp: Time)
    requires w.versions != [] && HealthyOf(Current(w), tier) != []
    ensures var w' := Next(score, ttl, w, Invalidate(s)).0;
      var cands := HealthyOf(Current(w), tier);
      && w'.versions == w.versions
      && (forall x :: x != s ==> (x in w'.sticky <==> x in w.sticky) && (x in w.sticky ==> w'.sticky[x] == w.sticky[x]))
      && SelectBackend(score, ttl, w'.sticky, s, tier, cands, now, stamp).1
         == Some(Choice(Hrw.Select(score, s, cands), false))
  {
  }

  /** The entry names a table position of its own tier that no healthy backend of that tier beats. */
  ghost predicate WellBound(score: Score, s: SessionId, bs: seq<BackendInfo>, e: Entry) {
    exists k: nat :: Hrw.Unbeaten(score, s, bs, e.tier, k) && bs[k].id == e.backendId
  }

  /** Whoever is routable in the later table already was in the earlier one. */
  predicate OnlyLeft(earlier: seq<BackendInfo>, later: seq<BackendInfo>) {
    SameShape(earlier, later) &&
    forall i :: 0 <= i < |later| && later[i].status == Healthy ==> earlier[i].status == Healthy
  }

  /** The registry after some steps. */
  function TableAfter(bs: seq<BackendInfo>, steps: seq<Step>): seq<BackendInfo> {
    if steps == [] then bs
    else
      var before := TableAfter(bs, steps[..|steps| - 1]);
      match steps[|steps| - 1]
      case Leave(id, status) => Mark(before, id, status)
      case Return(id, _) => Mark(before, id, Healthy)
      case _ => before
  }

  /** The stateless replies: one for each select, the choice over the healthy backends of that moment, and no others. */
  lemma {:induction false} LastReply(score: Score, bs: seq<BackendInfo>, steps: seq<Step>, step: Step)
    ensures StatelessReplies(score, bs, steps + [step]) == StatelessReplies(score, bs, steps)
      + if !step.Select? then []
        else if HealthyOf(TableAfter(bs, steps), step.tier) == [] then [None]
        else [Some(Hrw.Select(score, step.s, HealthyOf(TableAfter(bs, steps), step.tier)))]
    decreases steps
  {
    if steps == [] {
      assert [] + [step] == [step] && [step][1..] == [];
    } else {
      var bs' := TableAfter(bs, [steps[0]]);
      assert [steps[0]][..0] == [];
      LastReply(score, bs', steps[1..], step);
      TableAfterFirst(bs, steps);
      assert (steps + [step])[1..] == steps[1..] + [step];
    }
  }

  lemma {:induction false} TableAfterFirst(bs: seq<BackendInfo>, steps: seq<Step>)
    requires steps != []
    ensures TableAfter(bs, steps) == TableAfter(TableAfter(bs, [steps[0]]), steps[1..])
    decreases steps
  {
    if |steps| == 1 {
      assert steps == [steps[0]];
    } else {
      var init := steps[..|steps| - 1];
      TableAfterFirst(bs, init);
      assert steps[1..][..|steps[1..]| - 1] == init[1..];
    }
  }

  /** The entry can still be reused after the latest return. */
  predicate Open(w: World, e: Entry) {
    w.clock.Some? ==> e.expiresAt > w.clock.value
  }

  /** The inductive invariant behind the sticky table. */
  ghost predicate Agreeing(score: Score, w: World) {
    && w.versions != []
    && UniqueIds(Current(w))
    && (forall v :: v in w.versions ==> SameShape(v, Current(w)))
    && (forall s :: s in w.sticky && Open(w, w.sticky[s]) ==> WellBound(score, s, Current(w), w.sticky[s]))
  }

  /** The backend at table position r beats the one an entry is bound to, for a session, on the entry's tier. */
  ghost predicate BeatsBinding(score: Score, s: SessionId, bs: seq<BackendInfo>, r: nat, e: Entry)
    requires r < |bs|
  {
    bs[r].tier == e.tier && exists k: nat :: k < |bs| && bs[k].id == e.backendId && Hrw.Beats(score, s, bs, r, k)
  }

  /**
   * A return is calm if the returning backend beats no binding of its tier that is still live, an on_backend_down
   * call if nobody has returned since it read its survivors; all other steps are.
   */
  ghost predicate Calm(score: Score, w: World, step: Step)
    requires Allowed(w, step)
  {
    match step
    case Return(id, at) =>
      var bs := Current(w);
      forall s, r: nat :: s in w.sticky && w.sticky[s].expiresAt > at && r < |bs| && bs[r].id == id ==>
        !BeatsBinding(score, s, bs, r, w.sticky[s])
    case BackendDown(_, _, seen) => OnlyLeft(w.versions[seen], Current(w))
    case _ => true
  }

  ghost predicate CalmRun(score: Score, ttl: int, w: World, steps: seq<Step>)
    requires Run(score, ttl, w, steps)
    decreases steps
  {
    steps != [] ==>
      Calm(score, w, steps[0]) && CalmRun(score, ttl, Next(score, ttl, w, steps[0]).0, steps[1..])
  }

  lemma UnbeatenStays(score: Score, s: SessionId, earlier: seq<BackendInfo>, later: seq<BackendInfo>, tier: Tier,
                      k: nat)
    requires SameShape(earlier, later)
    requires forall i :: 0 <= i < |later| && Routable(later[i], tier) ==> Routable(earlier[i], tier)
    requires Hrw.Unbeaten(score, s, earlier, tier, k)
    ensures Hrw.Unbeaten(score, s, later, tier, k) && later[k].id == earlier[k].id
  {
    forall i | 0 <= i < |later| && i != k && Routable(later[i], tier) ensures Hrw.Beats(score, s, later, k, i) {
      assert Hrw.Beats(score, s, earlier, k, i);
    }
  }

  /** A usable well-bound entry is the rendezvous choice; so hit and miss return the same backend. */
  lemma SelectIsHrw(score: Score, ttl: int, w: World, s: SessionId, tier: Tier, now: Time, stamp: Time)
    requires Agreeing(score, w) && NotBefore(w.clock, now)
    ensures var cands := HealthyOf(Current(w), tier);
      var (m, answer) := SelectBackend(score, ttl, w.sticky, s, tier, cands, now, stamp);
      && Routed(answer) == (if cands == [] then None else Some(Hrw.Select(score, s, cands)))
      && Agreeing(score, w.(sticky := m))
  {
    var bs := Current(w);
    var cands := HealthyOf(bs, tier);
    var (m, answer) := SelectBackend(score, ttl, w.sticky, s, tier, cands, now, stamp);
    if cands != [] {
      HealthyMembers(bs, tier);
      if s in w.sticky && Usable(w.sticky[s], now, cands) {
        var k: nat :| Hrw.Unbeaten(score, s, bs, w.sticky[s].tier, k) && bs[k].id == w.sticky[s].backendId;
        var i :| 0 <= i < |bs| && bs[i] == FirstWithId(cands, w.sticky[s].backendId);
        assert i == k;
        Hrw.UnbeatenIsChoice(score, s, bs, tier, k);
        assert WellBound(score, s, bs, m[s]);
      } else {
        var k := Hrw.ChoiceIsUnbeaten(score, s, bs, tier);
        assert WellBound(score, s, bs, m[s]);
      }
    }
  }

  /** A session moved over a survivor list read from an older table is well bound in the current one. */
  lemma MigratedIsWellBound(score: Score, s: SessionId, older: seq<BackendInfo>, bs: seq<BackendInfo>, id: BackendId,
                            e: Entry)
    requires OnlyLeft(older, bs) && id !in Ids(HealthyOf(bs, e.tier))
    requires Survivors(older, id, e.tier) != []
    ensures WellBound(score, s, bs, e.(backendId := Hrw.Select(score, s, Survivors(older, id, e.tier)).id))
  {
    var fallen := Mark(older, id, Down);
    LeavingFilters(older, id, Down, e.tier);
    HealthyMembers(bs, e.tier);
    var k := Hrw.ChoiceIsUnbeaten(score, s, fallen, e.tier);
    forall i | 0 <= i < |bs| && Routable(bs[i], e.tier) ensures Routable(fallen[i], e.tier) {
      assert bs[i] in HealthyOf(bs, e.tier);
    }
    UnbeatenStays(score, s, fallen, bs, e.tier, k);
  }

  /** Migration keeps the invariant even over a survivor list read from an older table. */
  lemma MigrationKeepsAgreement(score: Score, w: World, id: BackendId, tier: Tier, seen: nat)
    requires Agreeing(score, w) && Allowed(w, BackendDown(id, tier, seen))
    requires Calm(score, w, BackendDown(id, tier, seen))
    ensures Agreeing(score, Next(score, 0, w, BackendDown(id, tier, seen)).0)
  {
    var older := w.versions[seen];
    assert older in w.versions;
    var m' := Migrate(score, w.sticky, id, tier, Survivors(older, id, tier));
    forall s | s in m' && Open(w, m'[s]) ensures WellBound(score, s, Current(w), m'[s]) {
      if Affected(w.sticky[s], id, tier) {
        MigratedIsWellBound(score, s, older, Current(w), id, w.sticky[s]);
      }
    }
  }

  lemma LeavingKeepsAgreement(score: Score, w: World, id: BackendId, status: BackendStatus)
    requires Agreeing(score, w) && status != Healthy
    ensures Agreeing(score, w.(versions := w.versions + [Mark(Current(w), id, status)]))
  {
    var bs, bs' := Current(w), Mark(Current(w), id, status);
    forall s | s in w.sticky && Open(w, w.sticky[s]) ensures WellBound(score, s, bs', w.sticky[s]) {
      var k: nat :| Hrw.Unbeaten(score, s, bs, w.sticky[s].tier, k) && bs[k].id == w.sticky[s].backendId;
      UnbeatenStays(score, s, bs, bs', w.sticky[s].tier, k);
    }
  }

  lemma ReturningKeepsAgreement(score: Score, w: World, id: BackendId, at: Time)
    requires Agreeing(score, w) && Allowed(w, Return(id, at)) && Calm(score, w, Return(id, at))
    ensures Agreeing(score, Next(score, 0, w, Return(id, at)).0)
  {
    var bs, bs' := Current(w), Mark(Current(w), id, Healthy);
    forall s | s in w.sticky && w.sticky[s].expiresAt > at ensures WellBound(score, s, bs', w.sticky[s]) {
      var e := w.sticky[s];
      assert Open(w, e);
      var k: nat :| Hrw.Unbeaten(score, s, bs, e.tier, k) && bs[k].id == e.backendId;
      UnbeatenDespite(score, s, bs, id, e, k);
    }
  }

  /** A binding that the returning backend does not beat stays unbeaten. */
  lemma UnbeatenDespite(score: Score, s: SessionId, bs: seq<BackendInfo>, id: BackendId, e: Entry, k: nat)
    requires UniqueIds(bs) && Hrw.Unbeaten(score, s, bs, e.tier, k) && bs[k].id == e.backendId
    requires forall r: nat :: r < |bs| && bs[r].id == id ==> !BeatsBinding(score, s, bs, r, e)
    ensures Hrw.Unbeaten(score, s, Mark(bs, id, Healthy), e.tier, k)
  {
    var bs' := Mark(bs, id, Healthy);
    forall i | 0 <= i < |bs'| && i != k && Routable(bs'[i], e.tier) ensures Hrw.Beats(score, s, bs', k, i) {
      if bs[i].id == id {
        assert !BeatsBinding(score, s, bs, i, e);
        assert !Hrw.Beats(score, s, bs, i, k);
      } else {
        assert Hrw.Beats(score, s, bs, k, i);
      }
    }
  }

  /**
   * The sticky table refines plain rendezvous hashing: over every calm run, with any mix of leaving and returning
   * backends, turns, tier switches, invalidations, expiries and migrations, every select returns exactly what the
   * table-free choice over the current healthy list returns.
   */
  lemma {:induction false} StickyMapIsHrw(score: Score, ttl: int, w: World, steps: seq<Step>)
    requires Agreeing(score, w) && Run(score, ttl, w, steps) && CalmRun(score, ttl, w, steps)
    ensures Replies(score, ttl, w, steps) == StatelessReplies(score, Current(w), steps)
    decreases steps
  {
    if steps == [] {
    } else {
      var w' := Next(score, ttl, w, steps[0]).0;
      match steps[0] {
        case Leave(id, status) => LeavingKeepsAgreement(score, w, id, status);
        case Return(id, at) => ReturningKeepsAgreement(score, w, id, at);
        case Select(s, tier, now, stamp) => SelectIsHrw(score, ttl, w, s, tier, now, stamp);
        case Invalidate(s) =>
        case BackendDown(id, tier, seen) => MigrationKeepsAgreement(score, w, id, tier, seen);
      }
      StickyMapIsHrw(score, ttl, w', steps[1..]);
    }
  }

  // ---- Runs in which backends only leave ----

  predicate NobodyReturns(steps: seq<Step>) {
    forall step :: step in steps ==> !step.Return?
  }

  /** Every earlier table is one from which backends have only left. */
  predicate LeftBehind(w: World) {
    w.versions != [] && forall v :: v in w.versions ==> OnlyLeft(v, Current(w))
  }

  lemma LeavingStaysBehind(w: World, id: BackendId, status: BackendStatus)
    requires LeftBehind(w) && status != Healthy
    ensures LeftBehind(w.(versions := w.versions + [Mark(Current(w), id, status)]))
  {
    var bs' := Mark(Current(w), id, status);
    forall v | v in w.versions + [bs'] ensures OnlyLeft(v, bs') {
      if v in w.versions {
        assert OnlyLeft(v, Current(w));
      }
    }
  }

  /** Runs in which backends only leave are calm. */
  lemma {:induction false} LeavingIsCalm(score: Score, ttl: int, w: World, steps: seq<Step>)
    requires LeftBehind(w) && Run(score, ttl, w, steps) && NobodyReturns(steps)
    ensures CalmRun(score, ttl, w, steps)
    decreases steps
  {
    if steps == [] {
    } else {
      assert steps[0] in steps && forall step :: step in steps[1..] ==> step in steps;
      if steps[0].Leave? {
        LeavingStaysBehind(w, steps[0].id, steps[0].status);
      }
      LeavingIsCalm(score, ttl, Next(score, ttl, w, steps[0]).0, steps[1..]);
    }
  }

  /** A new scheduler over a registry. */
  function NewWorld(bs: seq<BackendInfo>): World {
    World([bs], map[], None)
  }

  /** From a new scheduler on, as long as backends only leave, every select is the table-free choice. */
  lemma LeavingRunsRouteByHrw(score: Score, ttl: int, bs: seq<BackendInfo>, steps: seq<Step>)
    requires UniqueIds(bs) && Run(score, ttl, NewWorld(bs), steps) && NobodyReturns(steps)
    ensures Replies(score, ttl, NewWorld(bs), steps) == StatelessReplies(score, bs, steps)
  {
    LeavingIsCalm(score, ttl, NewWorld(bs), steps);
    StickyMapIsHrw(score, ttl, NewWorld(bs), steps);
  }

  /** The same run with the eager repair never called. */
  function WithoutEagerRepair(steps: seq<Step>): seq<Step> {
    if steps == [] then []
    else
      (if steps[0].BackendDown? then [] else [steps[0]]) + WithoutEagerRepair(steps[1..])
  }

  /** It is the run with exactly the on_backend_down calls taken out. */
  lemma {:induction false} OnlyRepairsAreErased(a: seq<Step>, b: seq<Step>)
    ensures WithoutEagerRepair(a + b) == WithoutEagerRepair(a) + WithoutEagerRepair(b)
    ensures forall step: Step :: WithoutEagerRepair([step]) == if step.BackendDown? then [] else [step]
    decreases a
  {
    forall step: Step ensures WithoutEagerRepair([step]) == if step.BackendDown? then [] else [step] {
      assert [step][1..] == [];
    }
    if a == [] {
      assert a + b == b;
    } else {
      OnlyRepairsAreErased(a[1..], b);
      assert (a + b)[1..] == a[1..] + b;
    }
  }

  lemma {:induction false} LazyRunsToo(score: Score, ttl: int, w: World, v: World, steps: seq<Step>)
    requires Run(score, ttl, w, steps) && w.versions != [] && v.versions == w.versions && v.clock == w.clock
    ensures Run(score, ttl, v, WithoutEagerRepair(steps))
    decreases steps
  {
    if steps == [] {
    } else {
      var w' := Next(score, ttl, w, steps[0]).0;
      if steps[0].BackendDown? {
        LazyRunsToo(score, ttl, w', v, steps[1..]);
        assert WithoutEagerRepair(steps) == WithoutEagerRepair(steps[1..]);
      } else {
        LazyRunsToo(score, ttl, w', Next(score, ttl, v, steps[0]).0, steps[1..]);
        assert WithoutEagerRepair(steps)[1..] == WithoutEagerRepair(steps[1..]);
      }
    }
  }

  lemma {:induction false} StatelessIgnoresRepair(score: Score, bs: seq<BackendInfo>, steps: seq<Step>)
    ensures StatelessReplies(score, bs, WithoutEagerRepair(steps)) == StatelessReplies(score, bs, steps)
    decreases steps
  {
    if steps == [] {
    } else {
      var rest := WithoutEagerRepair(steps[1..]);
      if steps[0].BackendDown? {
        assert WithoutEagerRepair(steps) == rest;
        StatelessIgnoresRepair(score, bs, steps[1..]);
      } else {
        assert WithoutEagerRepair(steps)[1..] == rest;
        var bs' := match steps[0]
          case Leave(id, status) => Mark(bs, id, status)
          case Return(id, _) => Mark(bs, id, Healthy)
          case _ => bs;
        StatelessIgnoresRepair(score, bs', steps[1..]);
      }
    }
  }

  lemma {:induction false} LazyStepsAreSteps(steps: seq<Step>)
    ensures forall step :: step in WithoutEagerRepair(steps) ==> step in steps
  {
    if steps == [] {
    } else {
      LazyStepsAreSteps(steps[1..]);
    }
  }

  /** Eager and lazy repair route alike: erasing every on_backend_down call changes no returned backend. */
  lemma EagerAndLazyRepairAgree(score: Score, ttl: int, w: World, steps: seq<Step>)
    requires Agreeing(score, w) && LeftBehind(w) && Run(score, ttl, w, steps) && NobodyReturns(steps)
    ensures Run(score, ttl, w, WithoutEagerRepair(steps))
    ensures Replies(score, ttl, w, WithoutEagerRepair(steps)) == Replies(score, ttl, w, steps)
  {
    LazyRunsToo(score, ttl, w, w, steps);
    LazyStepsAreSteps(steps);
    LeavingIsCalm(score, ttl, w, steps);
    LeavingIsCalm(score, ttl, w, WithoutEagerRepair(steps));
    StickyMapIsHrw(score, ttl, w, steps);
    StickyMapIsHrw(score, ttl, w, WithoutEagerRepair(steps));
    StatelessIgnoresRepair(score, Current(w), steps);
  }

  lemma RepairsAgreeFromTheStart(score: Score, ttl: int, bs: seq<BackendInfo>, steps: seq<Step>)
    requires UniqueIds(bs) && Run(score, ttl, NewWorld(bs), steps) && NobodyReturns(steps)
    ensures Run(score, ttl, NewWorld(bs), WithoutEagerRepair(steps))
    ensures Replies(score, ttl, NewWorld(bs), WithoutEagerRepair(steps)) == Replies(score, ttl, NewWorld(bs), steps)
  {
    EagerAndLazyRepairAgree(score, ttl, NewWorld(bs), steps);
  }

  lemma FirstIsTheOne(bs: seq<BackendInfo>, tier: Tier, b: BackendInfo)
    requires UniqueIds(bs) && b in HealthyOf(bs, tier)
    ensures FirstWithId(HealthyOf(bs, tier), b.id) == b
  {
    HealthyMembers(bs, tier);
    var first := FirstWithId(HealthyOf(bs, tier), b.id);
    var i :| 0 <= i < |bs| && bs[i] == b;
    var j :| 0 <= j < |bs| && bs[j] == first;
    assert i == j;
  }

  /** What the eager repair does buy: the next turn is a hit instead of a miss, on the same backend. */
  lemma EagerRepairSavesTheMiss(score: Score, ttl: int, m: Sticky, bs: seq<BackendInfo>, s: SessionId, id: BackendId,
                                tier: Tier, now: Time, stamp: Time)
    requires UniqueIds(bs) && s in m && Affected(m[s], id, tier) && m[s].expiresAt > now
    requires id !in Ids(HealthyOf(bs, tier)) && HealthyOf(bs, tier) != []
    ensures var cands := HealthyOf(bs, tier);
      var repaired := Migrate(score, m, id, tier, Survivors(bs, id, tier));
      var best := Hrw.Select(score, s, cands);
      && SelectBackend(score, ttl, repaired, s, tier, cands, now, stamp).1 == Some(Choice(best, true))
      && SelectBackend(score, ttl, m, s, tier, cands, now, stamp).1 == Some(Choice(best, false))
  {
    var cands := HealthyOf(bs, tier);
    var best := Hrw.Select(score, s, cands);
    WithoutAbsent(cands, {id});
    FirstIsTheOne(bs, tier, best);
    var repaired := Migrate(score, m, id, tier, cands);
    assert repaired[s] == m[s].(backendId := best.id);
    assert Usable(repaired[s], now, cands) && !Usable(m[s], now, cands);
  }

  /**
   * Without the restriction to leaving backends, a select that reuses a binding agrees with plain rendezvous
   * hashing exactly when no candidate beats the bound one; a select that does not reuse one always agrees.
   */
  lemma SelectAgreesExactlyWhen(score: Score, ttl: int, m: Sticky, s: SessionId, tier: Tier,
                                cands: seq<BackendInfo>, now: Time, stamp: Time, k: nat)
    requires UniqueIds(cands) && k < |cands|
    requires s in m && Usable(m[s], now, cands) ==> cands[k].id == m[s].backendId
    ensures Routed(SelectBackend(score, ttl, m, s, tier, cands, now, stamp).1) == Some(Hrw.Select(score, s, cands))
      <==> (s in m && Usable(m[s], now, cands) ==>
              forall i :: 0 <= i < |cands| ==> !Hrw.Beats(score, s, cands, i, k))
  {
    Hrw.WinnerUnbeaten(score, s, cands);
    var w := Hrw.WinnerIndex(score, s, cands);
    if s in m && Usable(m[s], now, cands) {
      var bound := FirstWithId(cands, m[s].backendId);
      assert bound.id == cands[k].id;
      var i :| 0 <= i < |cands| && cands[i] == bound;
      assert i == k;
      if k == w {
        forall i | 0 <= i < |cands| ensures !Hrw.Beats(score, s, cands, i, k) {
          assert i != w ==> Hrw.Beats(score, s, cands, w, i);
        }
      } else {
        assert Hrw.Beats(score, s, cands, w, k);
      }
    }
  }

  lemma ReturnedBeats(score: Score, s: SessionId, bs: seq<BackendInfo>, r: nat, e: Entry, k: nat)
    requires UniqueIds(bs) && r < |bs| && k < |bs| && bs[k].id == e.backendId && BeatsBinding(score, s, bs, r, e)
    requires HealthyOf(Mark(bs, bs[r].id, Healthy), e.tier) != []
    ensures Hrw.Select(score, s, HealthyOf(Mark(bs, bs[r].id, Healthy), e.tier)) != Mark(bs, bs[r].id, Healthy)[k]
  {
    var bs' := Mark(bs, bs[r].id, Healthy);
    var k' := Hrw.ChoiceIsUnbeaten(score, s, bs', e.tier);
    assert Hrw.Beats(score, s, bs, r, k) && Routable(bs'[r], e.tier) && !Hrw.Beats(score, s, bs', k, r);
    assert k' != k;
  }

  /**
   * After a return, a live binding to a healthy backend is reused, and the reply agrees with the table-free choice
   * exactly when the returning backend does not beat the bound one.
   */
  lemma ReturnAgreesExactlyWhen(score: Score, ttl: int, w: World, r: nat, at: Time, s: SessionId, k: nat, now: Time,
                                stamp: Time)
    requires Agreeing(score, w) && r < |Current(w)| && Allowed(w, Return(Current(w)[r].id, at)) && at <= now
    requires s in w.sticky && w.sticky[s].expiresAt > now
    requires k < |Current(w)| && Current(w)[k].id == w.sticky[s].backendId
    requires Routable(Mark(Current(w), Current(w)[r].id, Healthy)[k], w.sticky[s].tier)
    ensures var bs, e := Mark(Current(w), Current(w)[r].id, Healthy), w.sticky[s];
      var cands := HealthyOf(bs, e.tier);
      && SelectBackend(score, ttl, w.sticky, s, e.tier, cands, now, stamp).1 == Some(Choice(bs[k], true))
      && cands != []
      && (Hrw.Select(score, s, cands) == bs[k] <==> !BeatsBinding(score, s, Current(w), r, e))
  {
    var bs, e := Mark(Current(w), Current(w)[r].id, Healthy), w.sticky[s];
    var cands := HealthyOf(bs, e.tier);
    HealthyMembers(bs, e.tier);
    assert UniqueIds(bs) && bs[k].id == e.backendId && bs[k] in cands;
    FirstIsTheOne(bs, e.tier, bs[k]);
    if BeatsBinding(score, s, Current(w), r, e) {
      ReturnedBeats(score, s, Current(w), r, e, k);
    } else {
      assert Open(w, e);
      var k': nat :| Hrw.Unbeaten(score, s, Current(w), e.tier, k') && Current(w)[k'].id == e.backendId;
      assert k' == k;
      UnbeatenDespite(score, s, Current(w), Current(w)[r].id, e, k);
      Hrw.UnbeatenIsChoice(score, s, bs, e.tier, k);
    }
  }
}
