/** The tier loops of CalculatePatch and DetermineRejections (core/modrulestore.go). Between two
    lookups the lock is free, so any Put and Delete may happen there. */
module TierRuns {
  import opened Values
  import opened Rules
  import opened RuleStore
  import opened Tiers
  import opened PatchRuns
  import opened RejectMessages
  import opened Views

  // ---- Patching ----

  /** Applying the rules of one tier, with the error handling of the inner loop. */
  method ApplyRulesLoop(env: Env, items: seq<Item>, start: PatchState) returns (r: Result<PatchState>)
    ensures r == ApplyRules(env, items, start)
  {
    var st := start;
    for i := 0 to |items|
      invariant ApplyRules(env, items, start) == ApplyRules(env, items[i..], st)
    {
      assert items[i..][1..] == items[i + 1..];
      var patch := items[i].compiled.patch(env.namespace, st.jsonv);
      if patch.Err? { continue; }
      var (modified, ok) := env.apply(patch.value, st.modifiedJSON);
      if !ok {
        st := PatchState(modified, st.jsonv);
        continue;
      }
      var parsed := env.unmarshal(modified);
      if parsed.Err? { return Err; }
      st := PatchState(modified, parsed.value);
    }
    return Ok(st);
  }

  lemma RunSnoc(views: seq<seq<Item>>, executed: seq<Tier>, view: seq<Item>, tier: Tier)
    requires IsRun(views, executed) && |views| == |executed| && IsRound(view, Before(executed, |executed|), tier)
    ensures IsRun(views + [view], executed + [tier])
  {
    AllRoundsSnoc(IsRound, views, executed, view, tier);
  }

  lemma RunEnds(views: seq<seq<Item>>, executed: seq<Tier>, view: seq<Item>)
    requires IsRun(views, executed) && |views| == |executed| && IsLastRound(view, Before(executed, |executed|))
    ensures IsCompleteRun(views + [view], executed)
  {
    AllRoundsSnoc(IsRound, views, executed, view, MIN_TIER);
  }

  /** The lookup of one round, after the edits that happen before it. */
  method LookUp(store: ModRuleStore, edits: seq<Op>, operation: string, namespace: string, before: Tier,
                ruleType: string, jsonv: Json) returns (matching: seq<Item>, tier: Tier, ghost view: seq<Item>)
    requires store.Valid() && before < MAX_TIER
    modifies store
    ensures store.Valid() && view == Applicable(store.lists, store.clusterNamespace, operation, namespace)
    ensures store.rules == ApplyAll(store.compile, old(store.rules), edits)
    ensures IsView(view, store.rules, store.clusterNamespace, operation, namespace)
    ensures matching == MatchingAt(view, tier, ruleType, jsonv) && before < tier
    ensures if tier == MAX_TIER then IsLastRound(view, before) else IsRound(view, before, tier)
    ensures edits == [] ==> store.lists == old(store.lists)
  {
    store.PerformAll(edits);
    view := Applicable(store.lists, store.clusterNamespace, operation, namespace);
    ApplicableIsView(store.lists, store.rules, store.clusterNamespace, operation, namespace);
    matching, tier := store.GetMatching(operation, namespace, before + 1, ruleType, jsonv);
    RoundCases(view, before, tier);
  }

  /** What a run can see and change of a store. */
  datatype Snapshot = Snapshot(lists: map<string, seq<Item>>, rules: map<RuleKey, Item>)

  ghost function Now(store: ModRuleStore): Snapshot
    reads store
  {
    Snapshot(store.lists, store.rules)
  }

  /** The lookups of a run so far saw what the edits had left of the map, and left it at that. */
  ghost predicate Followed(store: ModRuleStore, start: Snapshot, now: Snapshot, views: seq<seq<Item>>,
                           edits: seq<seq<Op>>, operation: string, namespace: string)
  {
    ViewsFollow(views, store.compile, start.rules, edits, store.clusterNamespace, operation, namespace)
    && now.rules == Evolved(store.compile, start.rules, edits, |views|)
    && (edits == [] ==> now.lists == start.lists
                        && Steady(views, Applicable(start.lists, store.clusterNamespace, operation, namespace)))
  }

  lemma FollowedSnoc(store: ModRuleStore, start: Snapshot, before: Snapshot, now: Snapshot, views: seq<seq<Item>>,
                     view: seq<Item>, edits: seq<seq<Op>>, operation: string, namespace: string)
    requires Followed(store, start, before, views, edits, operation, namespace)
    requires now.rules == ApplyAll(store.compile, before.rules, EditsAt(edits, |views|))
    requires EditsAt(edits, |views|) == [] ==> now.lists == before.lists
    requires view == Applicable(now.lists, store.clusterNamespace, operation, namespace)
    requires IsView(view, now.rules, store.clusterNamespace, operation, namespace)
    ensures Followed(store, start, now, views + [view], edits, operation, namespace)
  {
    ViewsFollowSnoc(views, view, store.compile, start.rules, edits, store.clusterNamespace, operation, namespace);
  }

  /** Every rule that no edit is about is looked at exactly as often as it applies, if it is valid. */
  ghost predicate VisitsUntouched(visited: seq<Item>, rules: map<RuleKey, Item>, edits: seq<seq<Op>>, cluster: string,
                                  operation: string, namespace: string)
  {
    forall x | Untouched(edits, x) ::
      multiset(visited)[x] == if Validated(x.rule) then Times(rules, cluster, operation, namespace, x) else 0
  }

  lemma RunVisitsUntouched(views: seq<seq<Item>>, executed: seq<Tier>, compile: ModRule -> Result<Compiled>,
                           rules: map<RuleKey, Item>, edits: seq<seq<Op>>, cluster: string, operation: string,
                           namespace: string)
    requires IsCompleteRun(views, executed)
    requires ViewsFollow(views, compile, rules, edits, cluster, operation, namespace)
    ensures VisitsUntouched(RunVisited(views, executed), rules, edits, cluster, operation, namespace)
  {
    forall x | Untouched(edits, x)
      ensures multiset(RunVisited(views, executed))[x]
           == if Validated(x.rule) then Times(rules, cluster, operation, namespace, x) else 0
    {
      var k := Times(rules, cluster, operation, namespace, x);
      forall i | 0 <= i < |views| ensures multiset(views[i])[x] == k {
        UntouchedTimes(compile, rules, edits, i + 1, cluster, operation, namespace, x);
        assert IsView(views[i], Evolved(compile, rules, edits, i + 1), cluster, operation, namespace);
      }
      LastingRuleVisited(views, executed, x, k);
    }
  }

  lemma PatchRunSnoc(env: Env, views: seq<seq<Item>>, executed: seq<Tier>, view: seq<Item>, tier: Tier,
                     start: PatchState, st: PatchState)
    requires |views| == |executed| && PatchRun(env, views, executed, start) == Ok(st)
    ensures PatchRun(env, views + [view], executed + [tier], start) == PatchTier(env, view, tier, st)
  {
    assert (executed + [tier])[..|executed|] == executed;
    PatchRunPrefix(env, views, [view], executed, start);
  }

  lemma {:induction false} PatchRunPrefix(env: Env, views: seq<seq<Item>>, more: seq<seq<Item>>,
                                          executed: seq<Tier>, st: PatchState)
    requires |executed| <= |views|
    ensures PatchRun(env, views + more, executed, st) == PatchRun(env, views, executed, st)
  {
    if executed != [] { PatchRunPrefix(env, views, more, executed[..|executed| - 1], st); }
  }

  /** Where a patch run stands before a lookup. */
  ghost predicate PatchProgress(env: Env, views: seq<seq<Item>>, executed: seq<Tier>, start: PatchState,
                                st: PatchState, tier: Tier)
  {
    IsRun(views, executed) && |views| == |executed| && tier == Before(executed, |executed|) < MAX_TIER
    && PatchRun(env, views, executed, start) == Ok(st)
  }

  lemma PatchRound(env: Env, views: seq<seq<Item>>, executed: seq<Tier>, start: PatchState, st: PatchState,
                   before: Tier, view: seq<Item>, tier: Tier)
    requires PatchProgress(env, views, executed, start, st, before) && IsRound(view, before, tier)
    ensures var r := PatchTier(env, view, tier, st);
            IsRun(views + [view], executed + [tier]) && PatchRun(env, views + [view], executed + [tier], start) == r
            && (r.Ok? ==> PatchProgress(env, views + [view], executed + [tier], start, r.value, tier))
  {
    RunSnoc(views, executed, view, tier);
    PatchRunSnoc(env, views, executed, view, tier, start, st);
  }

  lemma PatchEnds(env: Env, views: seq<seq<Item>>, executed: seq<Tier>, start: PatchState, st: PatchState, before: Tier,
                  view: seq<Item>)
    requires PatchProgress(env, views, executed, start, st, before) && IsLastRound(view, before)
    ensures IsCompleteRun(views + [view], executed) && PatchRun(env, views + [view], executed, start) == Ok(st)
  {
    RunEnds(views, executed, view);
    PatchRunPrefix(env, views, [view], executed, start);
  }

  lemma RoundWellPatched(env: Env, views: seq<seq<Item>>, executed: seq<Tier>, start: PatchState, st: PatchState,
                         before: Tier, view: seq<Item>, tier: Tier)
    requires PatchProgress(env, views, executed, start, st, before) && IsRound(view, before, tier) && InStep(env, start)
    ensures WellPatched(env, views + [view], executed + [tier], start, PatchTier(env, view, tier, st))
  {
    PatchRound(env, views, executed, start, st, before, view, tier);
    PatchRunPrefix(env, views, [view], executed, start);
    assert (executed + [tier])[..|executed|] == executed;
    RunWellPatched(env, views + [view], executed + [tier], start);
  }

  lemma EndWellPatched(env: Env, views: seq<seq<Item>>, executed: seq<Tier>, start: PatchState, st: PatchState,
                       before: Tier, view: seq<Item>)
    requires PatchProgress(env, views, executed, start, st, before) && IsLastRound(view, before) && InStep(env, start)
    ensures WellPatched(env, views + [view], executed, start, Ok(st))
  {
    PatchEnds(env, views, executed, start, st, before, view);
    OkPrefix(env, views + [view], executed, start);
    RunWellPatched(env, views + [view], executed, start);
  }

  /** CalculatePatch up to the final diff. For any edits between the lookups: the loop ends; every
      lookup sees the map as the edits have left it, and the map ends up as they describe; the
      executed tiers strictly increase, and the result is that of applying them in turn. */
  method CalculatePatch(store: ModRuleStore, env: Env, operation: string, originalJSON: string, edits: seq<seq<Op>>)
    returns (r: Result<PatchState>, executed: seq<Tier>, ghost views: seq<seq<Item>>)
    requires store.Valid()
    modifies store
    ensures store.Valid() && Followed(store, old(Now(store)), Now(store), views, edits, operation, env.namespace)
    ensures IsRun(views, executed) && Ascending(executed) && |executed| <= 65534
    ensures env.unmarshal(originalJSON).Err? ==> r.Err? && views == [] && executed == []
    ensures env.unmarshal(originalJSON).Ok? ==>
              r == PatchRun(env, views, executed, PatchState(originalJSON, env.unmarshal(originalJSON).value))
    ensures env.unmarshal(originalJSON).Ok? ==>
              WellPatched(env, views, executed, PatchState(originalJSON, env.unmarshal(originalJSON).value), r)
    ensures r.Ok? ==> IsCompleteRun(views, executed)
    ensures r.Ok? ==> VisitsUntouched(RunVisited(views, executed), old(store.rules), edits, store.clusterNamespace,
                                      operation, env.namespace)
    ensures r.Err? ==> |views| == |executed|
  {
    executed, views := [], [];
    var parsed := env.unmarshal(originalJSON);
    if parsed.Err? { return Err, executed, views; }
    var st := PatchState(originalJSON, parsed.value);
    ghost var start := st;
    var currentExecutionTier := MIN_TIER;
    while true
      invariant store.Valid() && PatchProgress(env, views, executed, start, st, currentExecutionTier)
      invariant Followed(store, old(Now(store)), Now(store), views, edits, operation, env.namespace)
      decreases MAX_TIER as int - currentExecutionTier as int
    {
      ghost var before := Now(store);
      var matching, tier, view := LookUp(store, EditsAt(edits, |executed|), operation, env.namespace,
                                         currentExecutionTier, PATCH, st.jsonv);
      FollowedSnoc(store, old(Now(store)), before, Now(store), views, view, edits, operation, env.namespace);
      if tier == MAX_TIER {
        PatchEnds(env, views, executed, start, st, currentExecutionTier, view);
        EndWellPatched(env, views, executed, start, st, currentExecutionTier, view);
        EveryRunIsSafe(views, executed);
        views := views + [view];
        RunVisitsUntouched(views, executed, store.compile, old(store.rules), edits, store.clusterNamespace,
                           operation, env.namespace);
        return Ok(st), executed, views;
      }
      PatchRound(env, views, executed, start, st, currentExecutionTier, view, tier);
      RoundWellPatched(env, views, executed, start, st, currentExecutionTier, view, tier);
      currentExecutionTier, executed, views := tier, executed + [tier], views + [view];
      var next := ApplyRulesLoop(env, matching, st);
      if next.Err? {
        EveryRunIsSafe(views, executed);
        return Err, executed, views;
      }
      st := next.value;
    }
  }

  /** Tier cascade: without edits during the run, CalculatePatch is the cascade over the strictly
      ascending distinct tiers of the applicable rules. A successful run tries every validated rule
      of the map as often as it applies, which is once outside the cluster-rules namespace. */
  method CalculatePatchUndisturbed(store: ModRuleStore, env: Env, operation: string, originalJSON: string)
    returns (r: Result<PatchState>, tiers: seq<Tier>)
    requires store.Valid()
    modifies store
    ensures store.Valid() && store.lists == old(store.lists) && store.rules == old(store.rules)
    ensures var applicable := Applicable(old(store.lists), store.clusterNamespace, operation, env.namespace);
            && Ascending(tiers)
            && (env.unmarshal(originalJSON).Ok? ==>
                  r == Cascade(env, applicable, tiers, PatchState(originalJSON, env.unmarshal(originalJSON).value)))
            && (env.unmarshal(originalJSON).Ok? ==>
                  WellPatched(env, Throughout(applicable, |tiers|), tiers,
                              PatchState(originalJSON, env.unmarshal(originalJSON).value), r))
            && (r.Ok? ==> CoversTiers(applicable, tiers))
    ensures r.Ok? ==>
              var applicable := Applicable(old(store.lists), store.clusterNamespace, operation, env.namespace);
              VisitsTheMap(Visited(applicable, tiers), old(store.rules), store.clusterNamespace, operation,
                           env.namespace)
  {
    ghost var views;
    r, tiers, views := CalculatePatch(store, env, operation, originalJSON, []);
    ghost var applicable := Applicable(old(store.lists), store.clusterNamespace, operation, env.namespace);
    NothingEvolves(store.compile, old(store.rules), |views|);
    if env.unmarshal(originalJSON).Ok? {
      ghost var start := PatchState(originalJSON, env.unmarshal(originalJSON).value);
      SteadyRunIsCascade(env, views, tiers, applicable, start);
      SteadyWellPatched(env, views, tiers, applicable, start, r);
    }
    if r.Ok? {
      SteadyRunCovers(views, tiers, applicable);
      ApplicableIsView(store.lists, store.rules, store.clusterNamespace, operation, env.namespace);
      RunVisitsTheMap(views, tiers, applicable, store.rules, store.clusterNamespace, operation, env.namespace);
    }
  }

  /** These are the validated rules of the map that apply to the request, each as often as it
      applies, and outside the cluster-rules namespace each once. */
  ghost predicate VisitsTheMap(visited: seq<Item>, rules: map<RuleKey, Item>, cluster: string, operation: string,
                               namespace: string)
  {
    (forall x ::
       multiset(visited)[x] == if Validated(x.rule) then Times(rules, cluster, operation, namespace, x) else 0) &&
    (namespace != cluster ==>
       forall x ::
         multiset(visited)[x]
         == if Validated(x.rule) && AppliesTo(rules, cluster, operation, namespace, x) then 1 else 0)
  }

  lemma RunVisitsTheMap(views: seq<seq<Item>>, executed: seq<Tier>, applicable: seq<Item>, rules: map<RuleKey, Item>,
                        cluster: string, operation: string, namespace: string)
    requires IsCompleteRun(views, executed) && Steady(views, applicable)
    requires IsView(applicable, rules, cluster, operation, namespace)
    ensures VisitsTheMap(Visited(applicable, executed), rules, cluster, operation, namespace)
  {
    EveryRuleVisited(views, executed, applicable);
    forall x ensures multiset(Visited(applicable, executed))[x]
                  == if Validated(x.rule) then Times(rules, cluster, operation, namespace, x) else 0
    {
      SelectCount(applicable, IsValidated(), x);
    }
    if namespace != cluster {
      forall x ensures multiset(Visited(applicable, executed))[x]
                    == if Validated(x.rule) && AppliesTo(rules, cluster, operation, namespace, x) then 1 else 0
      {
        AppliesOnce(rules, cluster, operation, namespace, x);
      }
    }
  }

  // ---- Rejecting ----

  /** The rejecting rules of a run, tier by tier. */
  ghost function RejectRun(views: seq<seq<Item>>, executed: seq<Tier>, jsonv: Json): seq<Item>
    requires |executed| <= |views|
  {
    if executed == [] then []
    else
      var n := |executed| - 1;
      RejectRun(views, executed[..n], jsonv) + MatchingAt(views[n], executed[n], REJECT, jsonv)
  }

  lemma {:induction false} RejectRunPrefix(views: seq<seq<Item>>, more: seq<seq<Item>>, executed: seq<Tier>,
                                           jsonv: Json)
    requires |executed| <= |views|
    ensures RejectRun(views + more, executed, jsonv) == RejectRun(views, executed, jsonv)
  {
    if executed != [] { RejectRunPrefix(views, more, executed[..|executed| - 1], jsonv); }
  }

  lemma RejectRunSnoc(views: seq<seq<Item>>, executed: seq<Tier>, view: seq<Item>, tier: Tier, jsonv: Json)
    requires |views| == |executed|
    ensures RejectRun(views + [view], executed + [tier], jsonv)
         == RejectRun(views, executed, jsonv) + MatchingAt(view, tier, REJECT, jsonv)
  {
    assert (executed + [tier])[..|executed|] == executed;
    RejectRunPrefix(views, [view], executed, jsonv);
  }

  lemma {:induction false} RejectCount(views: seq<seq<Item>>, executed: seq<Tier>, jsonv: Json, x: Item)
    requires |executed| <= |views|
    ensures multiset(RejectRun(views, executed, jsonv))[x]
         == if MatchesOf(REJECT, jsonv)(x) then multiset(RunVisited(views, executed))[x] else 0
  {
    if executed != [] {
      var n := |executed| - 1;
      RejectCount(views, executed[..n], jsonv, x);
      SelectCount(Select(views[n], AtTier(executed[n])), MatchesOf(REJECT, jsonv), x);
    }
  }

  /** Every rule that no edit is about rejects exactly as often as it applies, if it is a valid rule
      of type Reject that matches. */
  ghost predicate RejectsUntouched(rejecting: seq<Item>, rules: map<RuleKey, Item>, edits: seq<seq<Op>>,
                                   cluster: string, operation: string, namespace: string, jsonv: Json)
  {
    forall x | Untouched(edits, x) ::
      multiset(rejecting)[x]
      == if Validated(x.rule) && MatchesAs(x, "Reject", jsonv)
         then Times(rules, cluster, operation, namespace, x) else 0
  }

  lemma RunRejectsUntouched(views: seq<seq<Item>>, executed: seq<Tier>, compile: ModRule -> Result<Compiled>,
                            rules: map<RuleKey, Item>, edits: seq<seq<Op>>, cluster: string, operation: string,
                            namespace: string, jsonv: Json)
    requires IsCompleteRun(views, executed)
    requires ViewsFollow(views, compile, rules, edits, cluster, operation, namespace)
    ensures RejectsUntouched(RejectRun(views, executed, jsonv), rules, edits, cluster, operation, namespace, jsonv)
  {
    RunVisitsUntouched(views, executed, compile, rules, edits, cluster, operation, namespace);
    forall x | Untouched(edits, x)
      ensures multiset(RejectRun(views, executed, jsonv))[x]
           == if Validated(x.rule) && MatchesAs(x, "Reject", jsonv) then Times(rules, cluster, operation, namespace, x)
              else 0
    {
      RejectCount(views, executed, jsonv, x);
    }
  }

  /** The rule rejects in round i: it applies then, and matches, and its tier is executed. */
  ghost predicate RejectsAt(executed: seq<Tier>, compile: ModRule -> Result<Compiled>, rules: map<RuleKey, Item>,
                            edits: seq<seq<Op>>, cluster: string, operation: string, namespace: string, jsonv: Json,
                            x: Item, i: nat)
    requires i < |executed|
  {
    x.rule.tier == executed[i] && MatchesAs(x, "Reject", jsonv)
    && AppliesTo(Evolved(compile, rules, edits, i + 1), cluster, operation, namespace, x)
  }

  lemma RejectedInRound(view: seq<Item>, now: map<RuleKey, Item>, cluster: string, operation: string,
                        namespace: string, jsonv: Json, tier: Tier, x: Item)
    requires IsView(view, now, cluster, operation, namespace)
    ensures x in MatchingAt(view, tier, REJECT, jsonv) <==>
              x.rule.tier == tier && MatchesAs(x, "Reject", jsonv) && AppliesTo(now, cluster, operation, namespace, x)
  {
    MatchingByMap(view, now, cluster, operation, namespace, tier, REJECT, jsonv, x);
    var ms := MatchingAt(view, tier, REJECT, jsonv);
    assert x in ms <==> multiset(ms)[x] > 0 by { assert x in ms <==> x in multiset(ms); }
  }

  /** Under any edits, the rejecting rules of a run are exactly those that reject in some round of it. */
  lemma {:induction false} RejectedIff(views: seq<seq<Item>>, executed: seq<Tier>,
                                       compile: ModRule -> Result<Compiled>, rules: map<RuleKey, Item>,
                                       edits: seq<seq<Op>>, cluster: string, operation: string, namespace: string,
                                       jsonv: Json, x: Item)
    requires |executed| <= |views| && ViewsFollow(views, compile, rules, edits, cluster, operation, namespace)
    ensures x in RejectRun(views, executed, jsonv) <==>
              exists i | 0 <= i < |executed| ::
                RejectsAt(executed, compile, rules, edits, cluster, operation, namespace, jsonv, x, i)
    decreases executed
  {
    if executed != [] {
      var n := |executed| - 1;
      var init := executed[..n];
      RejectedIff(views, init, compile, rules, edits, cluster, operation, namespace, jsonv, x);
      assert IsView(views[n], Evolved(compile, rules, edits, n + 1), cluster, operation, namespace);
      RejectedInRound(views[n], Evolved(compile, rules, edits, n + 1), cluster, operation, namespace, jsonv,
                      executed[n], x);
      forall i | 0 <= i < n
        ensures RejectsAt(init, compile, rules, edits, cluster, operation, namespace, jsonv, x, i)
             == RejectsAt(executed, compile, rules, edits, cluster, operation, namespace, jsonv, x, i)
      {}
      assert x in MatchingAt(views[n], executed[n], REJECT, jsonv) <==>
               RejectsAt(executed, compile, rules, edits, cluster, operation, namespace, jsonv, x, n);
    }
  }

  /** Where a rejection run stands before a lookup. */
  ghost predicate RejectProgress(views: seq<seq<Item>>, executed: seq<Tier>, messages: seq<string>, namespace: string,
                                 jsonv: Json, tier: Tier)
  {
    IsRun(views, executed) && |views| == |executed| && tier == Before(executed, |executed|) < MAX_TIER
    && messages == Messages(RejectRun(views, executed, jsonv), namespace, jsonv)
  }

  lemma RejectRound(views: seq<seq<Item>>, executed: seq<Tier>, messages: seq<string>, namespace: string,
                    jsonv: Json, before: Tier, view: seq<Item>, tier: Tier)
    requires RejectProgress(views, executed, messages, namespace, jsonv, before) && IsRound(view, before, tier)
    ensures var more := Messages(MatchingAt(view, tier, REJECT, jsonv), namespace, jsonv);
            RejectProgress(views + [view], executed + [tier], messages + more, namespace, jsonv, tier)
  {
    RunSnoc(views, executed, view, tier);
    RejectRunSnoc(views, executed, view, tier, jsonv);
    MessagesAppend(RejectRun(views, executed, jsonv), MatchingAt(view, tier, REJECT, jsonv), namespace, jsonv);
  }

  lemma RejectEnds(views: seq<seq<Item>>, executed: seq<Tier>, messages: seq<string>, namespace: string,
                   jsonv: Json, before: Tier, view: seq<Item>)
    requires RejectProgress(views, executed, messages, namespace, jsonv, before) && IsLastRound(view, before)
    ensures IsCompleteRun(views + [view], executed) && Ascending(executed) && |executed| <= 65534
    ensures messages == Messages(RejectRun(views + [view], executed, jsonv), namespace, jsonv)
  {
    RejectRunPrefix(views, [view], executed, jsonv);
    RunEnds(views, executed, view);
    EveryRunIsSafe(views, executed);
  }

  /** DetermineRejections, for any edits between the lookups: the loop ends; every lookup sees the
      map as the edits have left it; the tiers strictly increase, and there is one message per
      rejecting rule of the run. */
  method DetermineRejections(store: ModRuleStore, operation: string, namespace: string, jsonv: Json,
                             edits: seq<seq<Op>>)
    returns (messages: seq<string>, executed: seq<Tier>, ghost views: seq<seq<Item>>)
    requires store.Valid()
    modifies store
    ensures store.Valid() && Followed(store, old(Now(store)), Now(store), views, edits, operation, namespace)
    ensures IsCompleteRun(views, executed) && Ascending(executed) && |executed| <= 65534
    ensures messages == Messages(RejectRun(views, executed, jsonv), namespace, jsonv)
    ensures RejectsUntouched(RejectRun(views, executed, jsonv), old(store.rules), edits, store.clusterNamespace,
                             operation, namespace, jsonv)
  {
    executed, views, messages := [], [], [];
    var currentExecutionTier := MIN_TIER;
    while true
      invariant store.Valid() && RejectProgress(views, executed, messages, namespace, jsonv, currentExecutionTier)
      invariant Followed(store, old(Now(store)), Now(store), views, edits, operation, namespace)
      decreases MAX_TIER as int - currentExecutionTier as int
    {
      ghost var before := Now(store);
      var matching, tier, view := LookUp(store, EditsAt(edits, |executed|), operation, namespace,
                                         currentExecutionTier, REJECT, jsonv);
      FollowedSnoc(store, old(Now(store)), before, Now(store), views, view, edits, operation, namespace);
      if tier == MAX_TIER {
        RejectEnds(views, executed, messages, namespace, jsonv, currentExecutionTier, view);
        views := views + [view];
        RunRejectsUntouched(views, executed, store.compile, old(store.rules), edits, store.clusterNamespace,
                            operation, namespace, jsonv);
        return messages, executed, views;
      }
      RejectRound(views, executed, messages, namespace, jsonv, currentExecutionTier, view, tier);
      currentExecutionTier, executed, views := tier, executed + [tier], views + [view];
      messages := AppendMessages(messages, matching, namespace, jsonv);
    }
  }

  /** The validated, applicable rules of type Reject whose criteria match. */
  function Rejecting(applicable: seq<Item>, jsonv: Json): seq<Item> {
    Select(Select(applicable, IsValidated()), MatchesOf(REJECT, jsonv))
  }

  /** Rejection completeness: a complete run over unchanging rules rejects with exactly the
      rejecting rules, each as often as it applies. */
  lemma RejectionsComplete(views: seq<seq<Item>>, executed: seq<Tier>, applicable: seq<Item>, jsonv: Json)
    requires IsCompleteRun(views, executed) && Steady(views, applicable)
    ensures multiset(RejectRun(views, executed, jsonv)) == multiset(Rejecting(applicable, jsonv))
    ensures |RejectRun(views, executed, jsonv)| == |Rejecting(applicable, jsonv)|
  {
    forall x ensures multiset(RejectRun(views, executed, jsonv))[x] == multiset(Rejecting(applicable, jsonv))[x] {
      RejectCount(views, executed, jsonv, x);
      LastingRuleVisited(views, executed, x, multiset(applicable)[x]);
      SelectCount(Select(applicable, IsValidated()), MatchesOf(REJECT, jsonv), x);
      SelectCount(applicable, IsValidated(), x);
    }
    assert multiset(RejectRun(views, executed, jsonv)) == multiset(Rejecting(applicable, jsonv));
    assert |multiset(RejectRun(views, executed, jsonv))| == |multiset(Rejecting(applicable, jsonv))|;
  }

  lemma RejectedTier(view: seq<Item>, tier: Tier, jsonv: Json, x: Item)
    requires x in MatchingAt(view, tier, REJECT, jsonv)
    ensures x.rule.tier == tier
  {
    SelectMember(Select(view, AtTier(tier)), MatchesOf(REJECT, jsonv), x);
    SelectMember(view, AtTier(tier), x);
  }

  /** Tiers along a run's rejections never go down. */
  lemma {:induction false} RejectionsGrouped(views: seq<seq<Item>>, executed: seq<Tier>, jsonv: Json)
    requires |executed| <= |views| && Ascending(executed)
    ensures SortedByTier(RejectRun(views, executed, jsonv))
    ensures forall i | 0 <= i < |RejectRun(views, executed, jsonv)| ::
              RejectRun(views, executed, jsonv)[i].rule.tier in executed
  {
    if executed != [] {
      var n := |executed| - 1;
      var before, here := RejectRun(views, executed[..n], jsonv), MatchingAt(views[n], executed[n], REJECT, jsonv);
      RejectionsGrouped(views, executed[..n], jsonv);
      forall i | 0 <= i < |here| ensures here[i].rule.tier == executed[n] {
        RejectedTier(views[n], executed[n], jsonv, here[i]);
      }
      forall i | 0 <= i < |before| ensures before[i].rule.tier in executed && before[i].rule.tier < executed[n] {
        var k :| 0 <= k < n && executed[..n][k] == before[i].rule.tier;
        assert executed[k] == before[i].rule.tier;
      }
      SortedOnTop(before, here, executed[n]);
    }
  }

  lemma SortedOnTop(a: seq<Item>, b: seq<Item>, tier: Tier)
    requires SortedByTier(a) && forall i | 0 <= i < |a| :: a[i].rule.tier < tier
    requires forall i | 0 <= i < |b| :: b[i].rule.tier == tier
    ensures SortedByTier(a + b)
  {}

  /** A rule of the map that rejects the request. */
  ghost predicate Rejects(rules: map<RuleKey, Item>, cluster: string, operation: string, namespace: string,
                          jsonv: Json, x: Item)
  {
    Validated(x.rule) && MatchesAs(x, "Reject", jsonv) && AppliesTo(rules, cluster, operation, namespace, x)
  }

  lemma RejectingByMap(applicable: seq<Item>, rules: map<RuleKey, Item>, cluster: string, operation: string,
                       namespace: string, jsonv: Json, x: Item)
    requires IsView(applicable, rules, cluster, operation, namespace)
    ensures multiset(Rejecting(applicable, jsonv))[x] > 0 <==> Rejects(rules, cluster, operation, namespace, jsonv, x)
    ensures namespace != cluster ==> multiset(Rejecting(applicable, jsonv))[x] <= 1
  {
    SelectCount(Select(applicable, IsValidated()), MatchesOf(REJECT, jsonv), x);
    SelectCount(applicable, IsValidated(), x);
    if namespace != cluster { AppliesOnce(rules, cluster, operation, namespace, x); }
  }

  /** Exactly the rejecting rules of the map, each once outside the cluster-rules namespace. */
  ghost predicate RejectsByTheMap(rejecting: seq<Item>, rules: map<RuleKey, Item>, cluster: string,
                                  operation: string, namespace: string, jsonv: Json)
  {
    (forall x :: x in rejecting <==> Rejects(rules, cluster, operation, namespace, jsonv, x))
    && (namespace != cluster ==> forall x :: multiset(rejecting)[x] <= 1)
  }

  /** Rejection completeness in terms of the map. */
  lemma RunRejectsByTheMap(views: seq<seq<Item>>, executed: seq<Tier>, applicable: seq<Item>,
                           rules: map<RuleKey, Item>, cluster: string, operation: string, namespace: string,
                           jsonv: Json)
    requires IsCompleteRun(views, executed) && Steady(views, applicable)
    requires IsView(applicable, rules, cluster, operation, namespace)
    ensures RejectsByTheMap(RejectRun(views, executed, jsonv), rules, cluster, operation, namespace, jsonv)
  {
    var rejecting := RejectRun(views, executed, jsonv);
    RejectionsComplete(views, executed, applicable, jsonv);
    forall x
      ensures x in rejecting <==> Rejects(rules, cluster, operation, namespace, jsonv, x)
      ensures namespace != cluster ==> multiset(rejecting)[x] <= 1
    {
      RejectingByMap(applicable, rules, cluster, operation, namespace, jsonv, x);
      assert x in rejecting <==> x in multiset(rejecting);
    }
  }

  /** Without edits: one message per rejecting rule of the map, grouped by ascending tier; no message
      exactly when no rule rejects. */
  method DetermineRejectionsUndisturbed(store: ModRuleStore, operation: string, namespace: string, jsonv: Json)
    returns (messages: seq<string>, ghost rejecting: seq<Item>)
    requires store.Valid()
    modifies store
    ensures store.Valid() && store.lists == old(store.lists) && store.rules == old(store.rules)
    ensures messages == Messages(rejecting, namespace, jsonv) && SortedByTier(rejecting)
    ensures RejectsByTheMap(rejecting, old(store.rules), store.clusterNamespace, operation, namespace, jsonv)
    ensures messages == [] <==>
              forall x :: !Rejects(old(store.rules), store.clusterNamespace, operation, namespace, jsonv, x)
  {
    var executed;
    ghost var views;
    messages, executed, views := DetermineRejections(store, operation, namespace, jsonv, []);
    ghost var applicable := Applicable(old(store.lists), store.clusterNamespace, operation, namespace);
    NothingEvolves(store.compile, old(store.rules), |views|);
    rejecting := RejectRun(views, executed, jsonv);
    ApplicableIsView(store.lists, store.rules, store.clusterNamespace, operation, namespace);
    RunRejectsByTheMap(views, executed, applicable, store.rules, store.clusterNamespace, operation, namespace, jsonv);
    RejectionsGrouped(views, executed, jsonv);
    assert rejecting != [] ==> rejecting[0] in rejecting;
  }
}
