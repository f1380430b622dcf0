/** The scheduler object's own counters over whole sequences of turns. */
module SchedulerHits {
  import opened Types
  import opened Registry
  import opened Scheduler
  import AffinityHits

  /** The counter of one tier has grown by n, and the others have not. */
  predicate GrownBy(before: Counter, after: Counter, tier: Tier, n: int) {
    && after.small == before.small + (if tier == Small then n else 0)
    && after.big == before.big + (if tier == Big then n else 0)
    && after.auto == before.auto + (if tier == Auto then n else 0)
  }

  /**
   * Any sequence of turns on a new scheduler, on one tier with one candidate list: the tier's hit and miss counters
   * are those of the counted runs. So for live sessions misses are the distinct sessions and hits the other turns, and
   * for any gaps hits are the turns that find their session's window open.
   */
  method ServeAll(scheduler: AffinityScheduler, tier: Tier, cands: seq<BackendInfo>, calls: seq<AffinityHits.Call>)
    requires scheduler.Valid() && scheduler.view == map[] && cands != []
    modifies scheduler, scheduler.entries
    ensures scheduler.Valid()
    ensures var t := AffinityHits.Serve(scheduler.score, scheduler.ttl, tier, cands, calls);
      && scheduler.view == t.sticky
      && GrownBy(old(scheduler.hits), scheduler.hits, tier, t.hits)
      && GrownBy(old(scheduler.misses), scheduler.misses, tier, t.misses)
    ensures var open := |AffinityHits.OpenCalls(scheduler.ttl, calls)|;
      && GrownBy(old(scheduler.hits), scheduler.hits, tier, open)
      && GrownBy(old(scheduler.misses), scheduler.misses, tier, |calls| - open)
    ensures AffinityHits.Lively(scheduler.ttl, calls) ==>
      && GrownBy(old(scheduler.misses), scheduler.misses, tier, |AffinityHits.Sessions(calls)|)
      && GrownBy(old(scheduler.hits), scheduler.hits, tier, |calls| - |AffinityHits.Sessions(calls)|)
  {
    for k := 0 to |calls|
      invariant scheduler.Valid() && fresh(scheduler.entries - old(scheduler.entries))
      invariant var t := AffinityHits.Serve(scheduler.score, scheduler.ttl, tier, cands, calls[..k]);
        && scheduler.view == t.sticky
        && GrownBy(old(scheduler.hits), scheduler.hits, tier, t.hits)
        && GrownBy(old(scheduler.misses), scheduler.misses, tier, t.misses)
    {
      assert calls[..k + 1][..k] == calls[..k];
      var answer := scheduler.SelectBackend(calls[k].s, tier, cands, calls[k].now, calls[k].stamp);
    }
    assert calls[..|calls|] == calls;
    AffinityHits.HitsAreOpenWindows(scheduler.score, scheduler.ttl, tier, cands, calls);
    if AffinityHits.Lively(scheduler.ttl, calls) {
      AffinityHits.HitsAreExact(scheduler.score, scheduler.ttl, tier, cands, calls);
    }
  }
}
