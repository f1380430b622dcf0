/** What the affinity_hit flag and the hit and miss counts say about a history of turns. */
module AffinityHits {
  import opened Types
  import opened Registry
  import opened Affinity
  import Hrw

  // ---- The flag, over arbitrary candidate lists ----

  datatype Event =
    | Turn(s: SessionId, tier: Tier, cands: seq<BackendInfo>, now: Time, stamp: Time)
    | Close(s: SessionId)

  /** What a client can see of the past: which backend answered, and when its window was last opened. */
  datatype Seen = Answered(s: SessionId, backendId: BackendId, since: Time) | Closed(s: SessionId)

  function Play(score: Score, ttl: int, events: seq<Event>): (Sticky, seq<Seen>) {
    if events == [] then (map[], [])
    else
      var (m, past) := Play(score, ttl, events[..|events| - 1]);
      match events[|events| - 1]
      case Close(s) => (m - {s}, past + [Closed(s)])
      case Turn(s, tier, cands, now, stamp) =>
        var (m', answer) := SelectBackend(score, ttl, m, s, tier, cands, now, stamp);
        if answer.None? then (m', past)
        else (m', past + [Answered(s, answer.value.backend.id, if answer.value.hit then now else stamp)])
  }

  /** The latest answered turn of a session, unless the session was closed since. */
  function LastTurn(past: seq<Seen>, s: SessionId): (last: Option<Seen>)
    ensures last.Some? ==> last.value.Answered? && last.value.s == s
  {
    if past == [] then None
    else
      var e := past[|past| - 1];
      if e.s != s then LastTurn(past[..|past| - 1], s)
      else if e.Closed? then None
      else Some(e)
  }

  ghost predicate Tracks(ttl: int, m: Sticky, past: seq<Seen>) {
    forall s ::
      && (s in m <==> LastTurn(past, s).Some?)
      && (s in m ==> m[s].backendId == LastTurn(past, s).value.backendId)
      && (s in m ==> m[s].expiresAt == LastTurn(past, s).value.since + ttl as real)
  }

  lemma LastTurnAfter(past: seq<Seen>, e: Seen, s: SessionId)
    ensures LastTurn(past + [e], s) == if e.s != s then LastTurn(past, s) else if e.Closed? then None else Some(e)
  {
    assert (past + [e])[..|past|] == past;
  }

  lemma {:induction false} PlayTracks(score: Score, ttl: int, events: seq<Event>)
    ensures var (m, past) := Play(score, ttl, events); Tracks(ttl, m, past)
  {
    if events == [] {
    } else {
      PlayTracks(score, ttl, events[..|events| - 1]);
      var (m, past) := Play(score, ttl, events[..|events| - 1]);
      var (m', past') := Play(score, ttl, events);
      forall s
        ensures s in m' <==> LastTurn(past', s).Some?
        ensures s in m' ==> m'[s].backendId == LastTurn(past', s).value.backendId
        ensures s in m' ==> m'[s].expiresAt == LastTurn(past', s).value.since + ttl as real
      {
        if past' != past {
          LastTurnAfter(past, past'[|past|], s);
        }
      }
    }
  }

  /**
   * The flag is truthful: it is set exactly when the session had a turn since it was last closed, that turn's
   * window is still open and its backend is still a candidate; and then that same backend answers again.
   */
  lemma {:induction false} HitFlagIsTruthful(score: Score, ttl: int, events: seq<Event>, s: SessionId, tier: Tier,
                                             cands: seq<BackendInfo>, now: Time, stamp: Time)
    ensures var (m, past) := Play(score, ttl, events);
      var last := LastTurn(past, s);
      var answer := SelectBackend(score, ttl, m, s, tier, cands, now, stamp).1;
      && (answer.None? <==> cands == [])
      && (cands != [] ==>
           && (answer.value.hit <==>
                last.Some? && last.value.since + ttl as real > now && last.value.backendId in Ids(cands))
           && (answer.value.hit ==> answer.value.backend.id == last.value.backendId)
           && (!answer.value.hit ==> answer.value.backend == Hrw.Select(score, s, cands))
           && answer.value.backend in cands)
  {
    PlayTracks(score, ttl, events);
  }

  /** Under a nondecreasing clock a TTL of zero or less never yields a hit. */
  lemma {:induction false} ZeroTtlNeverHits(score: Score, ttl: int, events: seq<Event>, s: SessionId, tier: Tier,
                                            cands: seq<BackendInfo>, now: Time, stamp: Time)
    requires ttl <= 0
    requires forall e :: e in events && e.Turn? ==> e.now <= now && e.stamp <= now
    ensures var (m, _) := Play(score, ttl, events);
      cands != [] ==>
        SelectBackend(score, ttl, m, s, tier, cands, now, stamp).1 == Some(Choice(Hrw.Select(score, s, cands), false))
  {
    OpenedInThePast(score, ttl, events, s, now);
    PlayTracks(score, ttl, events);
  }

  lemma {:induction false} OpenedInThePast(score: Score, ttl: int, events: seq<Event>, s: SessionId, now: Time)
    requires forall e :: e in events && e.Turn? ==> e.now <= now && e.stamp <= now
    ensures var last := LastTurn(Play(score, ttl, events).1, s); last.Some? ==> last.value.since <= now
  {
    if events == [] {
    } else {
      var init := events[..|events| - 1];
      OpenedInThePast(score, ttl, init, s, now);
      var past, past' := Play(score, ttl, init).1, Play(score, ttl, events).1;
      assert events[|events| - 1] in events;
      if past' != past {
        LastTurnAfter(past, past'[|past|], s);
      }
    }
  }

  // ---- The counts, over one candidate list ----

  datatype Call = Call(s: SessionId, now: Time, stamp: Time)

  predicate SameSessionNext(calls: seq<Call>, i: nat, j: nat)
    requires i < j < |calls|
  {
    calls[i].s == calls[j].s && forall l :: i < l < j ==> calls[l].s != calls[i].s
  }

  /** Consecutive turns of a session are less than the TTL apart; a second clock reading is not before the first. */
  predicate Lively(ttl: int, calls: seq<Call>) {
    && (forall i :: 0 <= i < |calls| ==> calls[i].now <= calls[i].stamp)
    && (forall i, j :: 0 <= i < j < |calls| && SameSessionNext(calls, i, j) ==>
          calls[j].now < calls[i].now + ttl as real)
  }

  function Sessions(calls: seq<Call>): set<SessionId> {
    set c | c in calls :: c.s
  }

  /** The sticky table and the two counters after some calls. */
  datatype Tally = Tally(sticky: Sticky, hits: nat, misses: nat)

  function Serve(score: Score, ttl: int, tier: Tier, cands: seq<BackendInfo>, calls: seq<Call>): Tally
    requires cands != []
  {
    if calls == [] then Tally(map[], 0, 0)
    else
      var c := calls[|calls| - 1];
      var t := Serve(score, ttl, tier, cands, calls[..|calls| - 1]);
      var (m, answer) := SelectBackend(score, ttl, t.sticky, c.s, tier, cands, c.now, c.stamp);
      if answer.value.hit then Tally(m, t.hits + 1, t.misses) else Tally(m, t.hits, t.misses + 1)
  }

  // ---- Any gaps between turns ----

  /** When a session's window was last opened, read off the clock readings of its calls alone. */
  function Opened(ttl: int, calls: seq<Call>, s: SessionId): Option<Time> {
    if calls == [] then None
    else
      var c, before := calls[|calls| - 1], Opened(ttl, calls[..|calls| - 1], s);
      if c.s != s then before
      else if before.Some? && c.now < before.value + ttl as real then Some(c.now)
      else Some(c.stamp)
  }

  /** The call's session has an earlier call, and its window is still open. */
  predicate FindsOpenWindow(ttl: int, calls: seq<Call>, i: nat)
    requires i < |calls|
  {
    var since := Opened(ttl, calls[..i], calls[i].s);
    since.Some? && calls[i].now < since.value + ttl as real
  }

  function OpenCalls(ttl: int, calls: seq<Call>): set<nat> {
    set i: nat | 0 <= i < |calls| && FindsOpenWindow(ttl, calls, i)
  }

  /** The sticky table holds every session called, bound to a candidate, until its window closes. */
  ghost predicate Mirrors(ttl: int, cands: seq<BackendInfo>, m: Sticky, calls: seq<Call>) {
    forall s: SessionId ::
      && (s in m <==> Opened(ttl, calls, s).Some?)
      && (s in m ==> m[s].backendId in Ids(cands) && m[s].expiresAt == Opened(ttl, calls, s).value + ttl as real)
  }

  lemma SameWindowInPrefix(ttl: int, calls: seq<Call>, n: nat, i: nat)
    requires i < n <= |calls|
    ensures FindsOpenWindow(ttl, calls, i) <==> FindsOpenWindow(ttl, calls[..n], i)
  {
    assert calls[..n][..i] == calls[..i];
  }

  lemma OpenCallsGrow(ttl: int, calls: seq<Call>)
    requires calls != []
    ensures var n := |calls| - 1;
      OpenCalls(ttl, calls) == OpenCalls(ttl, calls[..n]) + if FindsOpenWindow(ttl, calls, n) then {n} else {}
  {
    var n := |calls| - 1;
    forall i: nat | i < n ensures i in OpenCalls(ttl, calls) <==> i in OpenCalls(ttl, calls[..n]) {
      SameWindowInPrefix(ttl, calls, n, i);
    }
  }

  lemma OpenCallsLast(ttl: int, calls: seq<Call>)
    requires calls != []
    ensures var n := |calls| - 1;
      |OpenCalls(ttl, calls)| == |OpenCalls(ttl, calls[..n])| + if FindsOpenWindow(ttl, calls, n) then 1 else 0
  {
    OpenCallsGrow(ttl, calls);
    assert |calls| - 1 !in OpenCalls(ttl, calls[..|calls| - 1]);
  }

  lemma ServeMirrors(score: Score, ttl: int, tier: Tier, cands: seq<BackendInfo>, m: Sticky, calls: seq<Call>)
    requires cands != [] && calls != [] && Mirrors(ttl, cands, m, calls[..|calls| - 1])
    ensures var c := calls[|calls| - 1];
      var (m', answer) := SelectBackend(score, ttl, m, c.s, tier, cands, c.now, c.stamp);
      Mirrors(ttl, cands, m', calls) && (answer.value.hit <==> FindsOpenWindow(ttl, calls, |calls| - 1))
  {
    assert Hrw.Select(score, calls[|calls| - 1].s, cands) in cands;
  }

  /**
   * The counts for any gaps between turns: over one candidate list, hits are exactly the calls whose session has an
   * earlier call with its window still open, and misses all others, whatever the backends and their scores are.
   */
  lemma {:induction false} HitsAreOpenWindows(score: Score, ttl: int, tier: Tier, cands: seq<BackendInfo>,
                                              calls: seq<Call>)
    requires cands != []
    ensures var t := Serve(score, ttl, tier, cands, calls);
      && Mirrors(ttl, cands, t.sticky, calls)
      && t.hits == |OpenCalls(ttl, calls)| && t.misses == |calls| - |OpenCalls(ttl, calls)|
  {
    if calls == [] {
      assert OpenCalls(ttl, calls) == {};
    } else {
      var init := calls[..|calls| - 1];
      HitsAreOpenWindows(score, ttl, tier, cands, init);
      ServeMirrors(score, ttl, tier, cands, Serve(score, ttl, tier, cands, init).sticky, calls);
      OpenCallsLast(ttl, calls);
    }
  }

  // ---- Live sessions ----

  predicate LastOfItsSession(calls: seq<Call>, i: nat)
    requires i < |calls|
  {
    forall l :: i < l < |calls| ==> calls[l].s != calls[i].s
  }

  /** Every session seen has an entry for a candidate, open for at least a TTL after its last call. */
  predicate Warm(ttl: int, cands: seq<BackendInfo>, m: Sticky, calls: seq<Call>) {
    && m.Keys == Sessions(calls)
    && (forall s :: s in m ==> m[s].backendId in Ids(cands))
    && (forall i :: 0 <= i < |calls| && LastOfItsSession(calls, i) ==>
          calls[i].s in m && m[calls[i].s].expiresAt >= calls[i].now + ttl as real)
  }

  /** A session's call is a hit exactly when the session was seen before. */
  lemma LivelyCallHits(ttl: int, cands: seq<BackendInfo>, m: Sticky, calls: seq<Call>)
    requires calls != [] && Lively(ttl, calls) && Warm(ttl, cands, m, calls[..|calls| - 1])
    ensures var c := calls[|calls| - 1];
      c.s in Sessions(calls[..|calls| - 1]) <==> c.s in m && Usable(m[c.s], c.now, cands)
  {
    var n := |calls| - 1;
    if calls[n].s in Sessions(calls[..n]) {
      var i := LastCallOf(calls[..n], calls[n].s);
      assert calls[..n][i] == calls[i];
      forall l | i < l < n ensures calls[l].s != calls[i].s {
        assert calls[..n][l] == calls[l];
      }
      assert SameSessionNext(calls, i, n);
    }
  }

  lemma SelectStores(score: Score, ttl: int, m: Sticky, c: Call, tier: Tier, cands: seq<BackendInfo>)
    requires cands != [] && c.now <= c.stamp
    ensures var m' := SelectBackend(score, ttl, m, c.s, tier, cands, c.now, c.stamp).0;
      && m' - {c.s} == m - {c.s} && c.s in m'
      && m'[c.s].backendId in Ids(cands) && m'[c.s].expiresAt >= c.now + ttl as real
  {
    assert Hrw.Select(score, c.s, cands) in cands;
  }

  lemma StoringKeepsWarm(ttl: int, cands: seq<BackendInfo>, m: Sticky, m': Sticky, init: seq<Call>, c: Call)
    requires Warm(ttl, cands, m, init)
    requires m' - {c.s} == m - {c.s} && c.s in m'
    requires m'[c.s].backendId in Ids(cands) && m'[c.s].expiresAt >= c.now + ttl as real
    ensures Warm(ttl, cands, m', init + [c])
  {
    var calls := init + [c];
    SessionsGrow(init, c);
    forall s | s in m' ensures s in Sessions(calls) && m'[s].backendId in Ids(cands) {
      if s != c.s {
        assert s in m' - {c.s} && s in m - {c.s};
        assert (m' - {c.s})[s] == (m - {c.s})[s];
      }
    }
    forall s | s in Sessions(calls) ensures s in m' {
      if s != c.s {
        assert s in m - {c.s};
      }
    }
    forall i | 0 <= i < |calls| && LastOfItsSession(calls, i)
      ensures calls[i].s in m' && m'[calls[i].s].expiresAt >= calls[i].now + ttl as real
    {
      if i < |init| {
        assert calls[|init|].s != calls[i].s;
        forall l | i < l < |init| ensures init[l].s != init[i].s {
          assert calls[l].s != calls[i].s;
        }
        assert LastOfItsSession(init, i);
        assert (m' - {c.s})[init[i].s] == (m - {c.s})[init[i].s];
      }
    }
  }

  lemma SessionsGrow(init: seq<Call>, c: Call)
    ensures Sessions(init + [c]) == Sessions(init) + {c.s}
  {
    assert c in init + [c];
  }

  lemma LivelyPrefix(ttl: int, calls: seq<Call>)
    requires calls != [] && Lively(ttl, calls)
    ensures Lively(ttl, calls[..|calls| - 1])
  {
    var init := calls[..|calls| - 1];
    forall i, j | 0 <= i < j < |init| && SameSessionNext(init, i, j)
      ensures init[j].now < init[i].now + ttl as real
    {
      forall l | i < l < j ensures calls[l].s != calls[i].s {
        assert init[l] == calls[l];
      }
      assert SameSessionNext(calls, i, j);
    }
  }

  lemma ServeOneMore(score: Score, ttl: int, tier: Tier, cands: seq<BackendInfo>, init: seq<Call>, c: Call)
    requires cands != [] && c.now <= c.stamp
    requires var m := Serve(score, ttl, tier, cands, init).sticky;
      Warm(ttl, cands, m, init) && (c.s in Sessions(init) <==> c.s in m && Usable(m[c.s], c.now, cands))
    ensures var t, t' := Serve(score, ttl, tier, cands, init), Serve(score, ttl, tier, cands, init + [c]);
      && Warm(ttl, cands, t'.sticky, init + [c])
      && t'.hits == t.hits + (if c.s in Sessions(init) then 1 else 0)
      && t'.misses == t.misses + (if c.s in Sessions(init) then 0 else 1)
  {
    var t := Serve(score, ttl, tier, cands, init);
    assert (init + [c])[..|init|] == init;
    SelectStores(score, ttl, t.sticky, c, tier, cands);
    var (m, _) := SelectBackend(score, ttl, t.sticky, c.s, tier, cands, c.now, c.stamp);
    StoringKeepsWarm(ttl, cands, t.sticky, m, init, c);
  }

  predicate Counted(t: Tally, calls: seq<Call>) {
    t.misses == |Sessions(calls)| && t.hits == |calls| - t.misses
  }

  lemma CountedOneMore(score: Score, ttl: int, tier: Tier, cands: seq<BackendInfo>, init: seq<Call>, c: Call)
    requires cands != [] && c.now <= c.stamp
    requires var t := Serve(score, ttl, tier, cands, init);
      && Warm(ttl, cands, t.sticky, init) && Counted(t, init)
      && (c.s in Sessions(init) <==> c.s in t.sticky && Usable(t.sticky[c.s], c.now, cands))
    ensures var t' := Serve(score, ttl, tier, cands, init + [c]);
      Warm(ttl, cands, t'.sticky, init + [c]) && Counted(t', init + [c])
  {
    ServeOneMore(score, ttl, tier, cands, init, c);
    SessionsGrow(init, c);
    if c.s in Sessions(init) {
      assert Sessions(init) + {c.s} == Sessions(init);
    }
  }

  /** The counters and the sticky table are right after these calls. */
  predicate Balanced(score: Score, ttl: int, tier: Tier, cands: seq<BackendInfo>, calls: seq<Call>)
    requires cands != []
  {
    var t := Serve(score, ttl, tier, cands, calls);
    Warm(ttl, cands, t.sticky, calls) && Counted(t, calls)
  }

  lemma OneMoreBalances(score: Score, ttl: int, tier: Tier, cands: seq<BackendInfo>, init: seq<Call>, c: Call)
    requires cands != [] && c.now <= c.stamp && Balanced(score, ttl, tier, cands, init)
    requires var m := Serve(score, ttl, tier, cands, init).sticky;
      c.s in Sessions(init) <==> c.s in m && Usable(m[c.s], c.now, cands)
    ensures Balanced(score, ttl, tier, cands, init + [c])
  {
    CountedOneMore(score, ttl, tier, cands, init, c);
  }

  lemma InitAndLast(calls: seq<Call>)
    requires calls != []
    ensures calls[..|calls| - 1] + [calls[|calls| - 1]] == calls
  {
  }

  lemma NoCallsCount(score: Score, ttl: int, tier: Tier, cands: seq<BackendInfo>)
    requires cands != []
    ensures Balanced(score, ttl, tier, cands, [])
  {
    assert Sessions([]) == {};
  }

  lemma {:induction false} CountsOfLivelyCalls(score: Score, ttl: int, tier: Tier, cands: seq<BackendInfo>,
                                               calls: seq<Call>)
    requires cands != [] && Lively(ttl, calls)
    ensures Balanced(score, ttl, tier, cands, calls)
  {
    if calls == [] {
      NoCallsCount(score, ttl, tier, cands);
    } else {
      var init, c := calls[..|calls| - 1], calls[|calls| - 1];
      LivelyPrefix(ttl, calls);
      CountsOfLivelyCalls(score, ttl, tier, cands, init);
      LivelyCallHits(ttl, cands, Serve(score, ttl, tier, cands, init).sticky, calls);
      OneMoreBalances(score, ttl, tier, cands, init, c);
      InitAndLast(calls);
    }
  }

  lemma {:induction false} LastCallOf(calls: seq<Call>, s: SessionId) returns (i: nat)
    requires s in Sessions(calls)
    ensures i < |calls| && calls[i].s == s && LastOfItsSession(calls, i)
  {
    var n := |calls| - 1;
    if calls[n].s == s {
      i := n;
    } else {
      assert calls == calls[..n] + [calls[n]];
      i := LastCallOf(calls[..n], s);
    }
  }

  function Names(calls: seq<Call>): seq<SessionId> {
    seq(|calls|, i requires 0 <= i < |calls| => calls[i].s)
  }

  lemma {:induction false} UniformMultiset(m: multiset<SessionId>, names: set<SessionId>, k: nat)
    requires forall s :: s in m ==> s in names
    requires forall s :: s in names ==> m[s] == k
    ensures |m| == k * |names|
    decreases names
  {
    if names == {} {
      assert m == multiset{};
    } else {
      var s :| s in names;
      UniformMultiset(m[s := 0], names - {s}, k);
      assert |m| == |m[s := 0]| + k;
      assert |names| == |names - {s}| + 1;
    }
  }

  /** Every session has exactly k turns among the calls. */
  predicate EachHas(calls: seq<Call>, k: nat) {
    forall s :: s in Sessions(calls) ==> multiset(Names(calls))[s] == k
  }

  lemma UniformCalls(calls: seq<Call>, k: nat)
    requires EachHas(calls, k)
    ensures |calls| == k * |Sessions(calls)|
  {
    var names := multiset(Names(calls));
    forall s | s in names ensures s in Sessions(calls) {
      assert s in Names(calls);
      var i :| 0 <= i < |calls| && Names(calls)[i] == s;
      assert calls[i] in calls;
    }
    UniformMultiset(names, Sessions(calls), k);
  }

  /**
   * Exact accounting: misses are the distinct sessions and hits the remaining calls, under any interleaving.
   * If every session has k turns, n sessions give n * (k - 1) hits; for six turns that is 5/6 of all calls.
   */
  lemma HitsAreExact(score: Score, ttl: int, tier: Tier, cands: seq<BackendInfo>, calls: seq<Call>)
    requires cands != [] && Lively(ttl, calls)
    ensures var t := Serve(score, ttl, tier, cands, calls);
      var n := |Sessions(calls)|;
      && t.misses == n && t.hits == |calls| - n
      && (forall k: nat :: EachHas(calls, k) ==> t.hits == n * (k - 1))
      && (EachHas(calls, 6) ==> 6 * t.hits == 5 * |calls|)
  {
    CountsOfLivelyCalls(score, ttl, tier, cands, calls);
    forall k: nat | EachHas(calls, k) ensures |calls| == k * |Sessions(calls)| {
      UniformCalls(calls, k);
    }
  }
}
