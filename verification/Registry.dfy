/** The ordered table of backends that every other part of the gateway reads. */
module Registry {
  import opened Types

  predicate UniqueIds(bs: seq<BackendInfo>) {
    forall i, j :: 0 <= i < j < |bs| ==> bs[i].id != bs[j].id
  }

  function Ids(bs: seq<BackendInfo>): set<BackendId> {
    set b | b in bs :: b.id
  }

  predicate Routable(b: BackendInfo, tier: Tier) {
    b.tier == tier && b.status == Healthy
  }

  /** The healthy backends of a tier, in registry order. */
  function HealthyOf(bs: seq<BackendInfo>, tier: Tier): seq<BackendInfo> {
    if bs == [] then []
    else
      var rest := HealthyOf(bs[..|bs| - 1], tier);
      if Routable(bs[|bs| - 1], tier) then rest + [bs[|bs| - 1]] else rest
  }

  /** The table with one backend's status replaced; unknown ids change nothing. */
  function Mark(bs: seq<BackendInfo>, id: BackendId, status: BackendStatus): seq<BackendInfo> {
    seq(|bs|, i requires 0 <= i < |bs| => if bs[i].id == id then bs[i].(status := status) else bs[i])
  }

  /** Equal up to status: the part of the table that no operation changes. */
  predicate SameShape(before: seq<BackendInfo>, bs: seq<BackendInfo>) {
    |before| == |bs| && forall i :: 0 <= i < |bs| ==> before[i].(status := bs[i].status) == bs[i]
  }

  /** A backend list without the given ids, order kept. */
  function Without(bs: seq<BackendInfo>, removed: set<BackendId>): seq<BackendInfo> {
    if bs == [] then []
    else
      var rest := Without(bs[..|bs| - 1], removed);
      if bs[|bs| - 1].id in removed then rest else rest + [bs[|bs| - 1]]
  }

  lemma {:induction false} HealthyMembers(bs: seq<BackendInfo>, tier: Tier)
    ensures forall b :: b in HealthyOf(bs, tier) <==> b in bs && Routable(b, tier)
  {
    if bs == [] {
    } else {
      HealthyMembers(bs[..|bs| - 1], tier);
      assert bs == bs[..|bs| - 1] + [bs[|bs| - 1]];
    }
  }

  /**
   * The healthy list is the table read at strictly increasing positions, and they are all the positions of healthy
   * backends of the tier: nobody is missing, doubled or out of order.
   */
  lemma {:induction false} HealthyPositions(bs: seq<BackendInfo>, tier: Tier) returns (at: seq<nat>)
    ensures |at| == |HealthyOf(bs, tier)|
    ensures forall i :: 0 <= i < |at| ==> at[i] < |bs| && HealthyOf(bs, tier)[i] == bs[at[i]]
    ensures forall i, j :: 0 <= i < j < |at| ==> at[i] < at[j]
    ensures forall k: nat :: k in at <==> k < |bs| && bs[k].tier == tier && bs[k].status == Healthy
  {
    if bs == [] {
      at := [];
    } else {
      var last := |bs| - 1;
      at := HealthyPositions(bs[..last], tier);
      if bs[last].tier == tier && bs[last].status == Healthy {
        at := at + [last];
      }
    }
  }

  lemma HealthyKeepsUnique(bs: seq<BackendInfo>, tier: Tier)
    requires UniqueIds(bs)
    ensures UniqueIds(HealthyOf(bs, tier))
  {
    var at := HealthyPositions(bs, tier);
    forall i, j | 0 <= i < j < |HealthyOf(bs, tier)| ensures HealthyOf(bs, tier)[i].id != HealthyOf(bs, tier)[j].id {
      assert at[i] < at[j];
    }
  }

  lemma {:induction false} WithoutMembers(bs: seq<BackendInfo>, removed: set<BackendId>)
    ensures forall b :: b in Without(bs, removed) <==> b in bs && b.id !in removed
  {
    if bs == [] {
    } else {
      WithoutMembers(bs[..|bs| - 1], removed);
      assert bs == bs[..|bs| - 1] + [bs[|bs| - 1]];
    }
  }

  /**
   * Taking a backend out of the healthy state removes it, and nothing else, from the
   * healthy list of every tier, and the order of the others is kept.
   */
  lemma {:induction false} LeavingFilters(bs: seq<BackendInfo>, id: BackendId, status: BackendStatus, tier: Tier)
    requires status != Healthy
    ensures HealthyOf(Mark(bs, id, status), tier) == Without(HealthyOf(bs, tier), {id})
  {
    if bs == [] {
    } else {
      var init, last := bs[..|bs| - 1], bs[|bs| - 1];
      LeavingFilters(init, id, status, tier);
      assert Mark(bs, id, status)[..|bs| - 1] == Mark(init, id, status);
      if Routable(last, tier) {
        assert (HealthyOf(init, tier) + [last])[..|HealthyOf(init, tier)|] == HealthyOf(init, tier);
      }
    }
  }

  lemma {:induction false} WithoutAbsent(bs: seq<BackendInfo>, removed: set<BackendId>)
    requires Ids(bs) !! removed
    ensures Without(bs, removed) == bs
  {
    if bs == [] {
    } else {
      var init, last := bs[..|bs| - 1], bs[|bs| - 1];
      assert bs == init + [last] && last in bs;
      assert forall b :: b in init ==> b in bs;
      WithoutAbsent(init, removed);
    }
  }

  /** The table with an entry stored under its id: replaced in place, else appended. */
  function Put(bs: seq<BackendInfo>, b: BackendInfo): seq<BackendInfo> {
    if b.id in Ids(bs) then
      seq(|bs|, i requires 0 <= i < |bs| => if bs[i].id == b.id then b else bs[i])
    else
      bs + [b]
  }

  lemma PutKeepsUnique(bs: seq<BackendInfo>, b: BackendInfo)
    requires UniqueIds(bs)
    ensures UniqueIds(Put(bs, b))
    ensures Ids(Put(bs, b)) == Ids(bs) + {b.id}
    ensures b in Put(bs, b)
  {
    var r := Put(bs, b);
    if b.id in Ids(bs) {
      var k :| 0 <= k < |bs| && bs[k].id == b.id;
      assert r[k] == b;
      forall x | x in Ids(bs) ensures x in Ids(r) {
        var i :| 0 <= i < |bs| && bs[i].id == x;
        assert r[i].id == x && r[i] in r;
      }
      assert forall x :: x in r ==> x.id in Ids(bs);
    } else {
      assert bs <= r;
      forall x | x in Ids(bs) + {b.id} ensures x in Ids(r) {
        if x != b.id {
          var i :| 0 <= i < |bs| && bs[i].id == x;
          assert r[i].id == x && r[i] in r;
        } else {
          assert r[|bs|] == b;
        }
      }
      forall i, j | 0 <= i < j < |r| ensures r[i].id != r[j].id {
        assert bs[i] in bs;
      }
    }
  }

  /** Every one of the first n configured entries that no later one of them replaces is in the table. */
  predicate LastWins(config: seq<BackendInfo>, n: nat, table: seq<BackendInfo>)
    requires n <= |config|
  {
    forall j :: 0 <= j < n && (forall l :: j < l < n ==> config[l].id != config[j].id) ==> config[j] in table
  }

  lemma PutKeepsLast(config: seq<BackendInfo>, n: nat, table: seq<BackendInfo>)
    requires n < |config| && LastWins(config, n, table)
    ensures LastWins(config, n + 1, Put(table, config[n]))
  {
    var grown := Put(table, config[n]);
    forall j | 0 <= j < n + 1 && forall l :: j < l < n + 1 ==> config[l].id != config[j].id
      ensures config[j] in grown
    {
      if j < n {
        var i :| 0 <= i < |table| && table[i] == config[j];
        assert grown[i] == config[j];
      } else if config[n].id in Ids(table) {
        var i :| 0 <= i < |table| && table[i].id == config[n].id;
        assert grown[i] == config[n];
      } else {
        assert grown[|table|] == config[n];
      }
    }
  }

  /** Among the first n configured entries, one with id x stands before every one with id y. */
  predicate ListedBefore(config: seq<BackendInfo>, n: nat, x: BackendId, y: BackendId)
    requires n <= |config|
  {
    exists i :: 0 <= i < n && config[i].id == x && forall j :: 0 <= j <= i ==> config[j].id != y
  }

  /** The table's ids stand in the order in which they are first configured. */
  predicate FirstOrder(config: seq<BackendInfo>, n: nat, table: seq<BackendInfo>)
    requires n <= |config|
  {
    forall p, q :: 0 <= p < q < |table| ==> ListedBefore(config, n, table[p].id, table[q].id)
  }

  lemma PutKeepsOrder(config: seq<BackendInfo>, n: nat, table: seq<BackendInfo>)
    requires n < |config| && FirstOrder(config, n, table) && Ids(table) == Ids(config[..n])
    ensures FirstOrder(config, n + 1, Put(table, config[n]))
  {
    var grown := Put(table, config[n]);
    forall p, q | 0 <= p < q < |grown| ensures ListedBefore(config, n + 1, grown[p].id, grown[q].id) {
      if q < |table| {
        assert grown[p].id == table[p].id && grown[q].id == table[q].id;
        assert ListedBefore(config, n, table[p].id, table[q].id);
      } else {
        assert table[p] in table && table[p].id in Ids(config[..n]);
        var i :| 0 <= i < n && config[..n][i].id == table[p].id;
        forall j | 0 <= j <= i ensures config[j].id != config[n].id {
          assert config[..n][j] in config[..n];
        }
      }
    }
  }

  /** The table after the first n configured entries. */
  predicate Loaded(config: seq<BackendInfo>, n: nat, table: seq<BackendInfo>) {
    && n <= |config|
    && UniqueIds(table) && Ids(table) == Ids(config[..n])
    && (forall b :: b in table ==> b in config)
    && LastWins(config, n, table) && FirstOrder(config, n, table)
    && (UniqueIds(config) ==> table == config[..n])
  }

  lemma PrefixGrows(config: seq<BackendInfo>, n: nat)
    requires n < |config|
    ensures Ids(config[..n + 1]) == Ids(config[..n]) + {config[n].id}
    ensures UniqueIds(config) ==> config[n].id !in Ids(config[..n])
  {
    assert config[..n + 1] == config[..n] + [config[n]];
    forall x | x in Ids(config[..n]) + {config[n].id} ensures x in Ids(config[..n + 1]) {
      if x in Ids(config[..n]) {
        var b :| b in config[..n] && b.id == x;
        assert b in config[..n + 1];
      } else {
        assert config[n] in config[..n + 1];
      }
    }
    if UniqueIds(config) {
      forall b | b in config[..n] ensures b.id != config[n].id {
        var i :| 0 <= i < n && config[..n][i] == b;
      }
    }
  }

  lemma PutLoads(config: seq<BackendInfo>, n: nat, table: seq<BackendInfo>)
    requires n < |config| && Loaded(config, n, table)
    ensures Loaded(config, n + 1, Put(table, config[n]))
  {
    PutKeepsUnique(table, config[n]);
    PutKeepsLast(config, n, table);
    PutKeepsOrder(config, n, table);
    PrefixGrows(config, n);
    if UniqueIds(config) {
      assert config[..n + 1] == config[..n] + [config[n]];
    }
  }

  class BackendRegistry {
    var backends: seq<BackendInfo>

    ghost predicate Valid()
      reads this
    {
      UniqueIds(backends)
    }

    /** One entry per configured id, in order of first mention; of several with the same id the last one is kept. */
    constructor (config: seq<BackendInfo>)
      ensures Valid()
      ensures Ids(backends) == Ids(config)
      ensures forall b :: b in backends ==> b in config
      ensures LastWins(config, |config|, backends) && FirstOrder(config, |config|, backends)
      ensures UniqueIds(config) ==> backends == config
    {
      var table: seq<BackendInfo> := [];
      for k := 0 to |config|
        invariant Loaded(config, k, table)
      {
        PutLoads(config, k, table);
        table := Put(table, config[k]);
      }
      assert config[..|config|] == config;
      backends := table;
    }

    method GetHealthyBackends(tier: Tier) returns (healthy: seq<BackendInfo>)
      ensures healthy == HealthyOf(backends, tier)
    {
      healthy := [];
      for k := 0 to |backends|
        invariant healthy == HealthyOf(backends[..k], tier)
      {
        assert backends[..k + 1][..k] == backends[..k];
        if backends[k].tier == tier && backends[k].status == Healthy {
          healthy := healthy + [backends[k]];
        }
      }
      assert backends[..|backends|] == backends;
    }

    method MarkStatus(id: BackendId, status: BackendStatus)
      requires Valid()
      modifies this
      ensures Valid()
      ensures backends == Mark(old(backends), id, status)
      ensures forall i :: 0 <= i < |backends| ==>
        backends[i].status == if backends[i].id == id then status else old(backends)[i].status
      ensures SameShape(old(backends), backends)
    {
      var k := 0;
      while k < |backends| && backends[k].id != id
        invariant 0 <= k <= |backends|
        invariant forall i :: 0 <= i < k ==> backends[i].id != id
      {
        k := k + 1;
      }
      if k < |backends| {
        backends := backends[k := backends[k].(status := status)];
      }
    }

    /** The entry stored under an id, if there is one. */
    method GetBackend(id: BackendId) returns (found: Option<BackendInfo>)
      requires Valid()
      ensures found.Some? ==> found.value in backends && found.value.id == id
      ensures found.None? ==> id !in Ids(backends)
    {
      var k := 0;
      while k < |backends|
        invariant 0 <= k <= |backends|
        invariant forall i :: 0 <= i < k ==> backends[i].id != id
      {
        if backends[k].id == id {
          return Some(backends[k]);
        }
        k := k + 1;
      }
      found := None;
    }
  }
}
