/** Choosing a tier, with fallback to the other one, and what the scheduler can then serve. */
module Routing {
  import opened Types
  import opened Registry
  import Affinity
  import Admission
  import Hrw

  datatype RoutingReason = TierHint | PromptLength | ToolFollowup | ByClassifier | Fallback

  /** backendId is None where the code writes its "unavailable" marker. */
  datatype Decision = Decision(tier: Tier, backendId: Option<BackendId>, reason: RoutingReason, classifierUsed: bool)

  /** The tier and reason before any fallback: a rule's, or else the classifier's. */
  function Wanted(rule: Option<(Tier, RoutingReason)>, classified: Tier): (Tier, RoutingReason) {
    if rule.Some? then rule.value else (classified, ByClassifier)
  }

  /** The tier tried when the wanted one has nobody. */
  function Other(tier: Tier): Tier {
    if tier == Small then Big else Small
  }

  function Route(bs: seq<BackendInfo>, rule: Option<(Tier, RoutingReason)>, classified: Tier): Decision {
    var (tier, reason) := Wanted(rule, classified);
    var first, second := HealthyOf(bs, tier), HealthyOf(bs, Other(tier));
    if first != [] then Decision(tier, Some(first[0].id), reason, rule.None?)
    else if second != [] then Decision(Other(tier), Some(second[0].id), Fallback, rule.None?)
    else Decision(tier, None, reason, rule.None?)
  }

  /**
   * Route, then select over the decision's tier. The select cannot fail unless both the wanted tier and its
   * fallback have no healthy backend; what it serves is healthy and of the decision's tier; and the reason is
   * FALLBACK exactly when the tier was switched.
   */
  lemma RouteThenSelectServes(score: Score, ttl: int, m: Affinity.Sticky, bs: seq<BackendInfo>, s: SessionId,
                              rule: Option<(Tier, RoutingReason)>, classified: Tier, now: Time, stamp: Time)
    requires rule.Some? ==> rule.value.1 != Fallback
    ensures var wanted := if rule.Some? then rule.value.0 else classified;
      var other := if wanted == Small then Big else Small;
      var d := Route(bs, rule, classified);
      var answer := Affinity.SelectBackend(score, ttl, m, s, d.tier, HealthyOf(bs, d.tier), now, stamp).1;
      && (answer.None? <==> forall b :: b in bs ==> !Routable(b, wanted) && !Routable(b, other))
      && (answer.Some? ==> answer.value.backend in bs && Routable(answer.value.backend, d.tier))
      && (d.reason == Fallback <==> d.tier != wanted)
      && (d.tier != wanted <==>
            (forall b :: b in bs ==> !Routable(b, wanted)) && exists b :: b in bs && Routable(b, other))
      && d.tier == (if d.tier != wanted then other else wanted)
      && (d.backendId.None? <==> answer.None?)
      && (d.backendId.Some? ==> d.backendId.value == HealthyOf(bs, d.tier)[0].id)
  {
    var wanted := Wanted(rule, classified).0;
    HealthyMembers(bs, wanted);
    HealthyMembers(bs, Other(wanted));
    var d := Route(bs, rule, classified);
    var cands := HealthyOf(bs, d.tier);
    if cands != [] {
      assert cands[0] in cands;
      assert Hrw.Select(score, s, cands) in cands;
    }
    forall t | HealthyOf(bs, t) != [] ensures HealthyOf(bs, t)[0] in HealthyOf(bs, t) {}
  }

  ghost predicate Someone(bs: seq<BackendInfo>, tier: Tier) {
    exists b :: b in bs && Routable(b, tier)
  }

  /** A request gets as far as a tier's queue: the select answers, and the gate finds a queue. */
  predicate ReachesQueue(score: Score, ttl: int, m: Affinity.Sticky, bs: seq<BackendInfo>, s: SessionId, d: Decision,
                         now: Time, stamp: Time, c: Admission.Controller, withinBudget: bool) {
    var cands := HealthyOf(bs, d.tier);
    && Affinity.SelectBackend(score, ttl, m, s, d.tier, cands, now, stamp).1.Some?
    && Admission.GateAnswer(c, d.tier, withinBudget, cands != []) in {Admission.QueueFull, Admission.Enqueued}
  }

  lemma SomeoneIsListed(bs: seq<BackendInfo>, tier: Tier)
    ensures Someone(bs, tier) <==> HealthyOf(bs, tier) != []
  {
    HealthyMembers(bs, tier);
    if HealthyOf(bs, tier) != [] {
      assert HealthyOf(bs, tier)[0] in HealthyOf(bs, tier);
    }
  }

  /**
   * Who gets as far as a queue: nobody over budget. Of the others, wanting Small or Big, exactly when either tier has
   * a healthy backend; wanting Auto, exactly when Small has one and Auto has none: the controller has no queue for
   * Auto, and the fallback from Auto is Small. So wanting Auto goes unserved although Small or Big could serve exactly
   * when an Auto backend is healthy beside one of them, or Big is alone.
   */
  lemma QueueIsReachedExactlyWhen(score: Score, ttl: int, m: Affinity.Sticky, bs: seq<BackendInfo>, s: SessionId,
                                  rule: Option<(Tier, RoutingReason)>, classified: Tier, now: Time, stamp: Time,
                                  c: Admission.Controller, withinBudget: bool)
    ensures var wanted := if rule.Some? then rule.value.0 else classified;
      var d := Route(bs, rule, classified);
      var reached := ReachesQueue(score, ttl, m, bs, s, d, now, stamp, c, true);
      && ReachesQueue(score, ttl, m, bs, s, d, now, stamp, c, withinBudget) == (withinBudget && reached)
      && (wanted != Auto ==> (reached <==> Someone(bs, Small) || Someone(bs, Big)))
      && (wanted == Auto ==>
           && (reached <==> Someone(bs, Small) && !Someone(bs, Auto))
           && (!reached && (Someone(bs, Small) || Someone(bs, Big)) <==>
                 (Someone(bs, Auto) && (Someone(bs, Small) || Someone(bs, Big)))
                 || (!Someone(bs, Auto) && !Someone(bs, Small) && Someone(bs, Big))))
  {
    SomeoneIsListed(bs, Small);
    SomeoneIsListed(bs, Big);
    SomeoneIsListed(bs, Auto);
  }

  class TierRouter {
    const registry: BackendRegistry

    constructor (registry: BackendRegistry)
      ensures this.registry == registry
    {
      this.registry := registry;
    }

    /** route after the rules and, where no rule fired, the classifier have answered. */
    method Choose(rule: Option<(Tier, RoutingReason)>, classified: Tier) returns (d: Decision)
      ensures d == Route(registry.backends, rule, classified)
      // Whether a rule fired shows in the decision, whatever becomes of the tier.
      ensures d.classifierUsed <==> rule.None?
      // A rule's tier, or else the classifier's, is kept if it has a healthy backend, with its reason.
      ensures rule.Some? && HealthyOf(registry.backends, rule.value.0) != [] ==>
        && d.tier == rule.value.0 && d.reason == rule.value.1
        && d.backendId == Some(HealthyOf(registry.backends, d.tier)[0].id)
      ensures rule.None? && HealthyOf(registry.backends, classified) != [] ==>
        && d.tier == classified && d.reason == ByClassifier
        && d.backendId == Some(HealthyOf(registry.backends, d.tier)[0].id)
      // Otherwise Small falls back to Big, Big and Auto to Small.
      ensures var wanted := if rule.Some? then rule.value.0 else classified;
        var fallback := match wanted case Small => Big case Big => Small case Auto => Small;
        HealthyOf(registry.backends, wanted) == [] && HealthyOf(registry.backends, fallback) != [] ==>
          && d.tier == fallback && d.reason == Fallback
          && d.backendId == Some(HealthyOf(registry.backends, fallback)[0].id)
      // Nobody anywhere: the wanted tier and its reason stay, without a backend.
      ensures var wanted := if rule.Some? then rule.value.0 else classified;
        var fallback := match wanted case Small => Big case Big => Small case Auto => Small;
        HealthyOf(registry.backends, wanted) == [] && HealthyOf(registry.backends, fallback) == [] ==>
          d.tier == wanted && d.reason == (if rule.Some? then rule.value.1 else ByClassifier) && d.backendId == None
    {
      var tier, reason, classifierUsed := classified, ByClassifier, true;
      if rule.Some? {
        tier, reason, classifierUsed := rule.value.0, rule.value.1, false;
      }
      var backends := registry.GetHealthyBackends(tier);
      if backends == [] {
        var fallback := if tier == Small then Big else Small;
        backends := registry.GetHealthyBackends(fallback);
        if backends != [] {
          tier, reason := fallback, Fallback;
        }
      }
      d := Decision(tier, if backends == [] then None else Some(backends[0].id), reason, classifierUsed);
    }
  }
}
