/** Runs over execution tiers: which tiers a run executes, and what it does there. */
module Tiers {
  import opened Sequences
  import opened Rules

  /** The tier a run continues above: that of the previous round, MIN_TIER at the start. */
  function Before(executed: seq<Tier>, i: nat): Tier
    requires i <= |executed|
  {
    if i == 0 then MIN_TIER else executed[i - 1]
  }

  /** Round i looks at the rules that apply at that time and executes the lowest tier above the
      previous one. The rules may have changed since the round before. */
  ghost predicate IsRun(views: seq<seq<Item>>, executed: seq<Tier>) {
    AllRounds(IsRound, views, executed)
  }

  ghost predicate AllRounds(round: (seq<Item>, Tier, Tier) -> bool, views: seq<seq<Item>>, executed: seq<Tier>) {
    |executed| <= |views| && forall i | 0 <= i < |executed| :: round(views[i], Before(executed, i), executed[i])
  }

  lemma AllRoundsSnoc(round: (seq<Item>, Tier, Tier) -> bool, views: seq<seq<Item>>, executed: seq<Tier>,
                      view: seq<Item>, tier: Tier)
    requires AllRounds(round, views, executed) && |views| == |executed|
    ensures AllRounds(round, views + [view], executed)
    ensures round(view, Before(executed, |executed|), tier) ==> AllRounds(round, views + [view], executed + [tier])
  {
    var all, vs := executed + [tier], views + [view];
    forall i | 0 <= i < |executed|
      ensures round(vs[i], Before(executed, i), executed[i]) && Before(all, i) == Before(executed, i)
    {
      assert round(views[i], Before(executed, i), executed[i]);
    }
    assert Before(all, |executed|) == Before(executed, |executed|);
  }

  lemma RoundCases(view: seq<Item>, before: Tier, tier: Tier)
    requires before < MAX_TIER && tier == NextTier(view, before + 1)
    ensures before < tier
    ensures if tier == MAX_TIER then IsLastRound(view, before) else IsRound(view, before, tier)
  {
    NextTierAbove(view, before + 1);
  }

  predicate IsRound(view: seq<Item>, before: Tier, tier: Tier) {
    before < MAX_TIER && tier < MAX_TIER && tier == NextTier(view, before + 1)
  }

  /** The run ended: its last lookup found no tier. */
  ghost predicate IsCompleteRun(views: seq<seq<Item>>, executed: seq<Tier>) {
    IsRun(views, executed) && |views| == |executed| + 1 && IsLastRound(views[|executed|], Before(executed, |executed|))
  }

  predicate IsLastRound(view: seq<Item>, before: Tier) {
    before < MAX_TIER && NextTier(view, before + 1) == MAX_TIER
  }

  predicate Ascending(tiers: seq<Tier>) {
    forall i, j | 0 <= i < j < |tiers| :: tiers[i] < tiers[j]
  }

  // ---- Safety of every run ----

  lemma RoundClimbs(view: seq<Item>, before: Tier, tier: Tier)
    requires IsRound(view, before, tier)
    ensures before < tier < MAX_TIER
  {
    NextTierAbove(view, before + 1);
  }

  predicate Climbs(tiers: seq<Tier>) {
    forall i | 0 <= i < |tiers| :: Before(tiers, i) < tiers[i] < MAX_TIER
  }

  lemma {:induction false} ClimbingTier(tiers: seq<Tier>, i: nat)
    requires Climbs(tiers) && i < |tiers|
    ensures MIN_TIER as int + 1 + i <= tiers[i] as int
    ensures forall j | 0 <= j < i :: tiers[j] < tiers[i]
  {
    assert Before(tiers, i) < tiers[i];
    if i > 0 { ClimbingTier(tiers, i - 1); }
  }

  /** However the rules change between lookups, the executed tiers strictly increase and stay
      strictly between the extremes, so adding one never overflows and there are at most 65534. */
  lemma EveryRunIsSafe(views: seq<seq<Item>>, executed: seq<Tier>)
    requires IsRun(views, executed)
    ensures Ascending(executed) && |executed| <= 65534
    ensures forall i | 0 <= i < |executed| :: MIN_TIER < executed[i] < MAX_TIER
  {
    forall i | 0 <= i < |executed| ensures Before(executed, i) < executed[i] < MAX_TIER {
      assert IsRound(views[i], Before(executed, i), executed[i]);
      RoundClimbs(views[i], Before(executed, i), executed[i]);
    }
    forall i | 0 <= i < |executed|
      ensures MIN_TIER < executed[i] && (forall j | 0 <= j < i :: executed[j] < executed[i])
    {
      ClimbingTier(executed, i);
    }
    if |executed| > 0 { ClimbingTier(executed, |executed| - 1); }
  }

  // ---- Runs over rules that do not change ----

  ghost predicate Steady(views: seq<seq<Item>>, applicable: seq<Item>) {
    forall i | 0 <= i < |views| :: views[i] == applicable
  }

  /** Exactly the tiers that some applicable rule has, extremes aside. */
  ghost predicate CoversTiers(applicable: seq<Item>, tiers: seq<Tier>) {
    (forall i | 0 <= i < |tiers| :: exists j | 0 <= j < |applicable| :: applicable[j].rule.tier == tiers[i]) &&
    (forall j | 0 <= j < |applicable| :: Validated(applicable[j].rule) ==> applicable[j].rule.tier in tiers)
  }

  /** A round does not pass over the tier of an applicable rule. */
  lemma RoundStopsAt(view: seq<Item>, before: Tier, tier: Tier, rule: Item)
    requires IsRound(view, before, tier) && rule in view && before < rule.rule.tier
    ensures tier <= rule.rule.tier
  {
    var j :| 0 <= j < |view| && view[j] == rule;
    NextTierAttained(view, before + 1);
  }

  lemma LastRoundStopsAt(view: seq<Item>, before: Tier, rule: Item)
    requires IsLastRound(view, before) && rule in view && Validated(rule.rule)
    ensures rule.rule.tier <= before
  {
    var j :| 0 <= j < |view| && view[j] == rule;
    NextTierAttained(view, before + 1);
  }

  lemma RoundHasRule(view: seq<Item>, before: Tier, tier: Tier)
    requires IsRound(view, before, tier)
    ensures exists j | 0 <= j < |view| :: view[j].rule.tier == tier
  {
    NextTierAttained(view, before + 1);
  }

  /** No round jumps over this tier. */
  predicate Stops(executed: seq<Tier>, tier: Tier) {
    forall i | 0 <= i < |executed| && Before(executed, i) < tier :: executed[i] <= tier
  }

  lemma {:induction false} StopsReach(executed: seq<Tier>, tier: Tier, i: nat)
    requires Stops(executed, tier) && i <= |executed|
    requires Before(executed, i) < tier <= Before(executed, |executed|)
    ensures tier in executed
    decreases |executed| - i
  {
    assert executed[i] <= tier;
    if executed[i] < tier { StopsReach(executed, tier, i + 1); }
  }

  /** Whatever changes around it, a validated rule that every lookup of a complete run sees has its
      tier executed. */
  lemma LastingTier(views: seq<seq<Item>>, executed: seq<Tier>, rule: Item)
    requires IsCompleteRun(views, executed) && Validated(rule.rule)
    requires forall i | 0 <= i < |views| :: rule in views[i]
    ensures rule.rule.tier in executed
  {
    forall i | 0 <= i < |executed| && Before(executed, i) < rule.rule.tier ensures executed[i] <= rule.rule.tier {
      RoundStopsAt(views[i], Before(executed, i), executed[i], rule);
    }
    LastRoundStopsAt(views[|executed|], Before(executed, |executed|), rule);
    StopsReach(executed, rule.rule.tier, 0);
  }

  /** Over unchanging rules a complete run executes exactly the distinct tiers of the applicable
      rules, ascending. */
  lemma SteadyRunCovers(views: seq<seq<Item>>, executed: seq<Tier>, applicable: seq<Item>)
    requires IsCompleteRun(views, executed) && Steady(views, applicable)
    ensures Ascending(executed) && CoversTiers(applicable, executed)
  {
    EveryRunIsSafe(views, executed);
    forall i | 0 <= i < |executed| ensures exists j | 0 <= j < |applicable| :: applicable[j].rule.tier == executed[i] {
      assert views[i] == applicable && IsRound(views[i], Before(executed, i), executed[i]);
      RoundHasRule(views[i], Before(executed, i), executed[i]);
    }
    forall j | 0 <= j < |applicable| && Validated(applicable[j].rule) ensures applicable[j].rule.tier in executed {
      LastingTier(views, executed, applicable[j]);
    }
  }

  /** Such a tier sequence is unique, so it is the ascending list of distinct tiers. */
  lemma {:induction false} AscendingIsUnique(a: seq<Tier>, b: seq<Tier>)
    requires Ascending(a) && Ascending(b)
    requires forall t :: t in a <==> t in b
    ensures a == b
  {
    assert b != [] ==> b[0] in b;
    if a != [] {
      assert a[0] in b && b != [] && b[0] in a;
      var i :| 0 <= i < |b| && b[i] == a[0];
      var j :| 0 <= j < |a| && a[j] == b[0];
      assert a[0] == b[0];
      forall t ensures t in a[1..] <==> t in b[1..] {
        InTail(a, t);
        InTail(b, t);
      }
      AscendingIsUnique(a[1..], b[1..]);
      assert a == [a[0]] + a[1..] && b == [b[0]] + b[1..];
    }
  }

  lemma InTail(a: seq<Tier>, t: Tier)
    requires Ascending(a) && a != []
    ensures t in a[1..] <==> t in a && t != a[0]
  {
    if t in a && t != a[0] {
      var i :| 0 <= i < |a| && a[i] == t;
      assert a[1..][i - 1] == t;
    }
  }

  // ---- Every rule once ----

  /** The rules a run looks at, tier by tier. */
  ghost function Visited(applicable: seq<Item>, tiers: seq<Tier>): seq<Item> {
    if tiers == [] then []
    else Visited(applicable, tiers[..|tiers| - 1]) + Select(applicable, AtTier(tiers[|tiers| - 1]))
  }

  lemma {:induction false} VisitedCount(applicable: seq<Item>, tiers: seq<Tier>, x: Item)
    requires Ascending(tiers)
    ensures multiset(Visited(applicable, tiers))[x] == if x.rule.tier in tiers then multiset(applicable)[x] else 0
  {
    if tiers != [] {
      var init, last := tiers[..|tiers| - 1], tiers[|tiers| - 1];
      assert tiers == init + [last];
      VisitedCount(applicable, init, x);
      SelectCount(applicable, AtTier(last), x);
      assert last !in init;
    }
  }

  function IsValidated(): Item -> bool { (item: Item) => Validated(item.rule) }

  /** The tiers partition the applicable rules: each validated one is visited as often as it
      applies, and nothing else is visited. */
  lemma EveryRuleVisited(views: seq<seq<Item>>, executed: seq<Tier>, applicable: seq<Item>)
    requires IsCompleteRun(views, executed) && Steady(views, applicable)
    ensures multiset(Visited(applicable, executed)) == multiset(Select(applicable, IsValidated()))
  {
    EveryRunIsSafe(views, executed);
    SteadyRunCovers(views, executed, applicable);
    forall x ensures multiset(Visited(applicable, executed))[x] == multiset(Select(applicable, IsValidated()))[x] {
      VisitedCount(applicable, executed, x);
      SelectCount(applicable, IsValidated(), x);
      if x in applicable {
        var j :| 0 <= j < |applicable| && applicable[j] == x;
        if x.rule.tier in executed {
          var i :| 0 <= i < |executed| && executed[i] == x.rule.tier;
        }
      }
    }
  }

  // ---- Runs over rules that change ----

  /** The rules a run looks at, as its lookups see them. */
  ghost function RunVisited(views: seq<seq<Item>>, executed: seq<Tier>): seq<Item>
    requires |executed| <= |views|
  {
    if executed == [] then []
    else
      var n := |executed| - 1;
      RunVisited(views, executed[..n]) + Select(views[n], AtTier(executed[n]))
  }

  lemma CountAppend(a: seq<Item>, b: seq<Item>, x: Item)
    ensures multiset(a + b)[x] == multiset(a)[x] + multiset(b)[x]
  {}

  lemma AscendingSnoc(tiers: seq<Tier>, last: Tier, t: Tier)
    requires Ascending(tiers + [last])
    ensures Ascending(tiers) && last !in tiers && (t in tiers + [last] <==> t in tiers || t == last)
  {
    var all := tiers + [last];
    assert forall i | 0 <= i < |tiers| :: all[i] == tiers[i] && all[i] < all[|tiers|];
  }

  lemma RunVisitedSnoc(views: seq<seq<Item>>, init: seq<Tier>, last: Tier, x: Item)
    requires |init| < |views|
    ensures multiset(RunVisited(views, init + [last]))[x]
         == multiset(RunVisited(views, init))[x] + if x.rule.tier == last then multiset(views[|init|])[x] else 0
  {
    var view := views[|init|];
    assert (init + [last])[..|init|] == init;
    SelectCount(view, AtTier(last), x);
    CountAppend(RunVisited(views, init), Select(view, AtTier(last)), x);
  }

  lemma {:induction false} RunVisitedCount(views: seq<seq<Item>>, executed: seq<Tier>, x: Item, k: nat)
    requires |executed| <= |views| && Ascending(executed)
    requires forall i | 0 <= i < |views| :: multiset(views[i])[x] == k
    ensures multiset(RunVisited(views, executed))[x] == if x.rule.tier in executed then k else 0
  {
    if executed != [] {
      var init, last := executed[..|executed| - 1], executed[|executed| - 1];
      SplitLast(executed);
      AscendingSnoc(init, last, x.rule.tier);
      RunVisitedCount(views, init, x, k);
      RunVisitedSnoc(views, init, last, x);
    }
  }

  /** A rule that every lookup sees the same number of times is visited that often, if it is valid. */
  lemma LastingRuleVisited(views: seq<seq<Item>>, executed: seq<Tier>, x: Item, k: nat)
    requires IsCompleteRun(views, executed) && forall i | 0 <= i < |views| :: multiset(views[i])[x] == k
    ensures multiset(RunVisited(views, executed))[x] == if Validated(x.rule) then k else 0
  {
    EveryRunIsSafe(views, executed);
    RunVisitedCount(views, executed, x, k);
    assert x.rule.tier in executed ==> Validated(x.rule) by {
      if x.rule.tier in executed { var i :| 0 <= i < |executed| && executed[i] == x.rule.tier; }
    }
    if Validated(x.rule) && k > 0 {
      forall i | 0 <= i < |views| ensures x in views[i] { assert x in multiset(views[i]); }
      LastingTier(views, executed, x);
    }
  }
}
