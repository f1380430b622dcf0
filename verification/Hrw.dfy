/** Rendezvous (highest random weight) choice of a backend for a session. */
module Hrw {
  import opened Types
  import opened Registry

  /** Index of the first candidate of maximal score: a left-to-right scan, replaced only by a strictly larger score. */
  function WinnerIndex(score: Score, s: SessionId, cands: seq<BackendInfo>): (w: nat)
    requires cands != []
    ensures w < |cands|
  {
    var last := |cands| - 1;
    if last == 0 then 0
    else
      var w := WinnerIndex(score, s, cands[..last]);
      if score(s, cands[last].id) > score(s, cands[w].id) then last else w
  }

  function Select(score: Score, s: SessionId, cands: seq<BackendInfo>): BackendInfo
    requires cands != []
  {
    cands[WinnerIndex(score, s, cands)]
  }

  /** Candidate i is preferred to candidate j: a larger score, or the same score and listed earlier. */
  predicate Beats(score: Score, s: SessionId, cands: seq<BackendInfo>, i: nat, j: nat)
    requires i < |cands| && j < |cands|
  {
    var a, b := score(s, cands[i].id), score(s, cands[j].id);
    a > b || (a == b && i < j)
  }

  /** The scan finds exactly the candidate that beats every other one. */
  lemma {:induction false} WinnerBeatsAll(score: Score, s: SessionId, cands: seq<BackendInfo>, k: nat)
    requires k < |cands|
    ensures k == WinnerIndex(score, s, cands)
       <==> forall i :: 0 <= i < |cands| && i != k ==> Beats(score, s, cands, k, i)
  {
    WinnerUnbeaten(score, s, cands);
    var w := WinnerIndex(score, s, cands);
    assert k != w ==> Beats(score, s, cands, w, k) && !Beats(score, s, cands, k, w);
  }

  lemma {:induction false} WinnerUnbeaten(score: Score, s: SessionId, cands: seq<BackendInfo>)
    requires cands != []
    ensures forall i | 0 <= i < |cands| && i != WinnerIndex(score, s, cands) ::
              Beats(score, s, cands, WinnerIndex(score, s, cands), i)
  {
    var last := |cands| - 1;
    if last == 0 {
      assert WinnerIndex(score, s, cands) == 0;
    } else {
      var init := cands[..last];
      WinnerUnbeaten(score, s, init);
      var w := WinnerIndex(score, s, init);
      forall i | 0 <= i < last && i != w ensures Beats(score, s, cands, w, i) {
        assert Beats(score, s, init, w, i);
      }
      var w' := WinnerIndex(score, s, cands);
      assert w' == if score(s, cands[last].id) > score(s, cands[w].id) then last else w;
      forall i | 0 <= i < |cands| && i != w' ensures Beats(score, s, cands, w', i) {
        if i != last {
          assert i != w ==> Beats(score, s, cands, w, i);
        }
      }
    }
  }

  /** A session whose winner survives a removal keeps it, whatever else is removed. */
  lemma {:induction false} SurvivorKept(score: Score, s: SessionId, cands: seq<BackendInfo>, removed: set<BackendId>)
    requires cands != []
    requires Select(score, s, cands).id !in removed
    ensures Without(cands, removed) != []
    ensures Select(score, s, Without(cands, removed)) == Select(score, s, cands)
  {
    var last := |cands| - 1;
    var init, rest := cands[..last], Without(cands[..last], removed);
    if last == 0 {
      assert init == [];
    } else {
      var w := WinnerIndex(score, s, cands);
      if w == last {
        assert Without(cands, removed) == rest + [cands[last]];
        assert (rest + [cands[last]])[..|rest|] == rest;
        WinnerUnbeaten(score, s, cands);
        if rest != [] {
          WithoutMembers(init, removed);
          var b := Select(score, s, rest);
          var i :| 0 <= i < last && init[i] == b;
          assert cands[i] == b && Beats(score, s, cands, last, i);
        }
      } else {
        SurvivorKept(score, s, init, removed);
        if cands[last].id !in removed {
          assert (rest + [cands[last]])[..|rest|] == rest;
        }
      }
    }
  }

  /** Taking backends out one after the other. */
  function RemoveEach(cands: seq<BackendInfo>, order: seq<BackendId>): seq<BackendInfo>
    decreases order
  {
    if order == [] then cands else RemoveEach(Without(cands, {order[0]}), order[1..])
  }

  lemma {:induction false} WithoutTwice(cands: seq<BackendInfo>, a: set<BackendId>, b: set<BackendId>)
    ensures Without(Without(cands, a), b) == Without(cands, a + b)
  {
    if cands == [] {
    } else {
      var init, last := cands[..|cands| - 1], cands[|cands| - 1];
      WithoutTwice(init, a, b);
      if last.id !in a {
        assert (Without(init, a) + [last])[..|Without(init, a)|] == Without(init, a);
      }
    }
  }

  /** Removing backends one by one, in any order, leaves the list that removing them at once leaves. */
  lemma {:induction false} OneByOneIsAtOnce(cands: seq<BackendInfo>, order: seq<BackendId>)
    ensures RemoveEach(cands, order) == Without(cands, set id | id in order)
    decreases order
  {
    if order == [] {
      assert (set id | id in order) == {};
      WithoutNothing(cands);
    } else {
      OneByOneIsAtOnce(Without(cands, {order[0]}), order[1..]);
      WithoutTwice(cands, {order[0]}, set id | id in order[1..]);
      assert order == [order[0]] + order[1..];
      assert (set id | id in order) == {order[0]} + (set id | id in order[1..]);
    }
  }

  lemma {:induction false} WithoutNothing(cands: seq<BackendInfo>)
    ensures Without(cands, {}) == cands
  {
    if cands == [] {
    } else {
      WithoutNothing(cands[..|cands| - 1]);
    }
  }

  /**
   * Minimal disruption. Whatever is removed and in whatever order, a session moves only if its own
   * winner was removed; the gradual and the one-shot removal agree.
   */
  lemma {:induction false} MinimalDisruption(score: Score, s: SessionId, cands: seq<BackendInfo>, order: seq<BackendId>)
    requires RemoveEach(cands, order) != []
    ensures cands != [] && Without(cands, set id | id in order) != []
    ensures Select(score, s, RemoveEach(cands, order)) == Select(score, s, Without(cands, set id | id in order))
    ensures Select(score, s, RemoveEach(cands, order)) == Select(score, s, cands)
       <==> Select(score, s, cands).id !in order
  {
    OneByOneIsAtOnce(cands, order);
    var removed := set id | id in order;
    WithoutMembers(cands, removed);
    var kept := Without(cands, removed);
    assert kept[0] in kept;
    assert Select(score, s, kept) in kept;
    if Select(score, s, cands).id !in order {
      SurvivorKept(score, s, cands, removed);
    }
  }

  /**
   * A backend inserted anywhere takes a session exactly when it scores higher than the old winner, or
   * ties with it and is listed before it; otherwise the session stays where it was.
   */
  lemma {:induction false} InsertionMovesOnlyToNewcomer(
      score: Score, s: SessionId, cands: seq<BackendInfo>, at: nat, b: BackendInfo)
    requires cands != [] && at <= |cands|
    ensures var w := WinnerIndex(score, s, cands);
      var taken := score(s, b.id) > score(s, cands[w].id) || (score(s, b.id) == score(s, cands[w].id) && at <= w);
      WinnerIndex(score, s, cands[..at] + [b] + cands[at..])
        == if taken then at else if at <= w then w + 1 else w
    ensures Select(score, s, cands[..at] + [b] + cands[at..]) in {b, Select(score, s, cands)}
  {
    var grown := cands[..at] + [b] + cands[at..];
    var w := WinnerIndex(score, s, cands);
    WinnerUnbeaten(score, s, cands);
    var taken := score(s, b.id) > score(s, cands[w].id) || (score(s, b.id) == score(s, cands[w].id) && at <= w);
    var k := if taken then at else if at <= w then w + 1 else w;
    assert grown[k] == if taken then b else cands[w];
    forall i | 0 <= i < |grown| && i != k ensures Beats(score, s, grown, k, i) {
      if i != at {
        var i' := if i < at then i else i - 1;
        assert grown[i] == cands[i'];
        assert i' != w ==> Beats(score, s, cands, w, i');
      }
    }
    WinnerBeatsAll(score, s, grown, k);
  }

  // ---- The choice seen from the registry table ----

  /**
   * Table position k belongs to the tier and no other healthy backend of the tier beats it, ties going to
   * the earlier position. Position k itself need not be healthy.
   */
  predicate Unbeaten(score: Score, s: SessionId, bs: seq<BackendInfo>, tier: Tier, k: nat) {
    k < |bs| && bs[k].tier == tier &&
    forall i :: 0 <= i < |bs| && i != k && Routable(bs[i], tier) ==> Beats(score, s, bs, k, i)
  }

  /** Appending an entry to the table: either it is the new unbeaten one, or the old one stays. */
  lemma UnbeatenGrows(score: Score, s: SessionId, init: seq<BackendInfo>, b: BackendInfo, tier: Tier, k: nat)
    requires Unbeaten(score, s, init, tier, k) && Routable(init[k], tier)
    ensures var n := |init|;
      Unbeaten(score, s, init + [b], tier, if Routable(b, tier) && score(s, b.id) > score(s, init[k].id) then n else k)
  {
    var n, bs := |init|, init + [b];
    var k' := if Routable(b, tier) && score(s, b.id) > score(s, init[k].id) then n else k;
    forall i | 0 <= i < |bs| && i != k' && Routable(bs[i], tier) ensures Beats(score, s, bs, k', i) {
      assert i < n && i != k ==> Beats(score, s, init, k, i);
    }
  }

  /** The choice over a tier's healthy list is the healthy unbeaten table entry. */
  lemma {:induction false} ChoiceIsUnbeaten(score: Score, s: SessionId, bs: seq<BackendInfo>, tier: Tier)
    returns (k: nat)
    requires HealthyOf(bs, tier) != []
    ensures Unbeaten(score, s, bs, tier, k)
    ensures Routable(bs[k], tier) && bs[k] == Select(score, s, HealthyOf(bs, tier))
  {
    var last := |bs| - 1;
    var init := bs[..last];
    var rest := HealthyOf(init, tier);
    assert bs == init + [bs[last]];
    if rest == [] {
      k := last;
      HealthyMembers(init, tier);
      forall i | 0 <= i < last ensures !Routable(bs[i], tier) {
        assert init[i] in init;
      }
    } else {
      var k0 := ChoiceIsUnbeaten(score, s, init, tier);
      UnbeatenGrows(score, s, init, bs[last], tier, k0);
      assert (rest + [bs[last]])[..|rest|] == rest;
      k := if Routable(bs[last], tier) && score(s, bs[last].id) > score(s, bs[k0].id) then last else k0;
    }
  }

  lemma UnbeatenIsChoice(score: Score, s: SessionId, bs: seq<BackendInfo>, tier: Tier, k: nat)
    requires Unbeaten(score, s, bs, tier, k) && bs[k].status == Healthy
    ensures HealthyOf(bs, tier) != [] && Select(score, s, HealthyOf(bs, tier)) == bs[k]
  {
    HealthyMembers(bs, tier);
    assert bs[k] in HealthyOf(bs, tier);
    var k' := ChoiceIsUnbeaten(score, s, bs, tier);
    assert k != k' ==> Beats(score, s, bs, k, k');
  }
}
