/** What a patch run does: the rules of its tiers applied one after the other, with the three ways a
    rule can fail (core/modrulestore.go). */
module PatchRuns {
  import opened Sequences
  import opened Values
  import opened Rules
  import opened Tiers
  import opened Views

  /** The request's namespace and the libraries a patch run calls: JSON parsing and patch
      application. Application returns the new bytes together with its success, and the bytes are
      kept even when it fails. */
  datatype Env = Env(namespace: string, unmarshal: string -> Result<Json>, apply: (Patch, string) -> (string, bool))

  datatype PatchState = PatchState(modifiedJSON: string, jsonv: Json)

  /** One matching rule: a patch that cannot be calculated is skipped, one that cannot be applied
      leaves the parsed document as it was, and bytes that do not parse end the run. */
  function ApplyRule(env: Env, item: Item, st: PatchState): Result<PatchState> {
    match item.compiled.patch(env.namespace, st.jsonv)
    case Err => Ok(st)
    case Ok(patch) =>
      var (modified, ok) := env.apply(patch, st.modifiedJSON);
      if !ok then Ok(PatchState(modified, st.jsonv))
      else
        match env.unmarshal(modified)
        case Ok(jsonv) => Ok(PatchState(modified, jsonv))
        case Err => Err
  }

  function ApplyRules(env: Env, items: seq<Item>, st: PatchState): Result<PatchState> {
    if items == [] then Ok(st)
    else
      match ApplyRule(env, items[0], st)
      case Ok(next) => ApplyRules(env, items[1..], next)
      case Err => Err
  }

  /** One tier: its patch rules are matched against the document all lower tiers have left, and
      applied one after the other. */
  function PatchTier(env: Env, applicable: seq<Item>, tier: Tier, st: PatchState): Result<PatchState> {
    ApplyRules(env, MatchingAt(applicable, tier, PATCH, st.jsonv), st)
  }

  /** The tiers of a run, lowest first; an error ends it. */
  ghost function PatchRun(env: Env, views: seq<seq<Item>>, executed: seq<Tier>, st: PatchState): Result<PatchState>
    requires |executed| <= |views|
  {
    if executed == [] then Ok(st)
    else
      var n := |executed| - 1;
      match PatchRun(env, views, executed[..n], st)
      case Ok(before) => PatchTier(env, views[n], executed[n], before)
      case Err => Err
  }

  /** The cascade over a list of tiers with the same applicable rules throughout. */
  ghost function Cascade(env: Env, applicable: seq<Item>, tiers: seq<Tier>, st: PatchState): Result<PatchState> {
    if tiers == [] then Ok(st)
    else
      match Cascade(env, applicable, tiers[..|tiers| - 1], st)
      case Ok(before) => PatchTier(env, applicable, tiers[|tiers| - 1], before)
      case Err => Err
  }

  lemma {:induction false} SteadyRunIsCascade(env: Env, views: seq<seq<Item>>, executed: seq<Tier>,
                                              applicable: seq<Item>, st: PatchState)
    requires |executed| <= |views| && Steady(views, applicable)
    ensures PatchRun(env, views, executed, st) == Cascade(env, applicable, executed, st)
  {
    if executed != [] {
      SteadyRunIsCascade(env, views, executed[..|executed| - 1], applicable, st);
    }
  }

  // ---- What happened, rule by rule ----

  /** One rule at work on the bytes and the parsed document. */
  datatype PatchStep = PatchStep(rule: Item, before: PatchState, after: PatchState)

  /** A patch that cannot be calculated changes nothing. One that can is applied to the bytes, and
      what the application returns is kept; if it succeeded, the document is the parse of that, and
      if it failed, the document stays as it was. */
  ghost predicate Justified(env: Env, step: PatchStep) {
    match step.rule.compiled.patch(env.namespace, step.before.jsonv)
    case Err => step.after == step.before
    case Ok(patch) =>
      step.after.modifiedJSON == env.apply(patch, step.before.modifiedJSON).0 &&
      if env.apply(patch, step.before.modifiedJSON).1
      then env.unmarshal(step.after.modifiedJSON) == Ok(step.after.jsonv)
      else step.after.jsonv == step.before.jsonv
  }

  /** The patch of the rule is applied and leaves bytes that do not parse. */
  ghost predicate Breaks(env: Env, rule: Item, at: PatchState) {
    var patch := rule.compiled.patch(env.namespace, at.jsonv);
    patch.Ok? && env.apply(patch.value, at.modifiedJSON).1
    && env.unmarshal(env.apply(patch.value, at.modifiedJSON).0).Err?
  }

  /** Each step starts where the one before it ended. */
  ghost predicate Chained(env: Env, steps: seq<PatchStep>, start: PatchState, end: PatchState) {
    if steps == [] then start == end
    else steps[0].before == start && Justified(env, steps[0]) && Chained(env, steps[1..], steps[0].after, end)
  }

  function RulesOf(steps: seq<PatchStep>): (items: seq<Item>)
    ensures |items| == |steps| && forall i | 0 <= i < |items| :: items[i] == steps[i].rule
  {
    seq(|steps|, i requires 0 <= i < |steps| => steps[i].rule)
  }

  lemma {:induction false} RulesExplained(env: Env, items: seq<Item>, st: PatchState)
    returns (steps: seq<PatchStep>, at: PatchState)
    ensures |steps| <= |items| && RulesOf(steps) == items[..|steps|] && Chained(env, steps, st, at)
    ensures ApplyRules(env, items, st).Ok? ==> |steps| == |items| && ApplyRules(env, items, st) == Ok(at)
    ensures ApplyRules(env, items, st).Err? ==> |steps| < |items| && Breaks(env, items[|steps|], at)
  {
    steps, at := [], st;
    if items != [] {
      var next := ApplyRule(env, items[0], st);
      if next.Ok? {
        var step := PatchStep(items[0], st, next.value);
        var rest, last := RulesExplained(env, items[1..], next.value);
        steps, at := [step] + rest, last;
        assert steps[1..] == rest && RulesOf(steps) == [items[0]] + RulesOf(rest);
        assert items[..|steps|] == [items[0]] + items[1..][..|rest|];
      }
    }
  }

  /** The rule is a patch rule of the tier and all its criteria match the document. */
  ghost predicate PatchesAt(x: Item, tier: Tier, jsonv: Json) {
    x.rule.tier == tier && MatchesAs(x, "Patch", jsonv)
  }

  /** These are the rules of the view that patch at the tier, on that document, in the view's order. */
  ghost predicate PatchingRules(items: seq<Item>, view: seq<Item>, tier: Tier, jsonv: Json) {
    InOrderOf(items, view) &&
    forall x :: multiset(items)[x] == if PatchesAt(x, tier, jsonv) then multiset(view)[x] else 0
  }

  lemma MatchingPatches(view: seq<Item>, tier: Tier, jsonv: Json)
    ensures PatchingRules(MatchingAt(view, tier, PATCH, jsonv), view, tier, jsonv)
  {
    MatchingInOrder(view, tier, PATCH, jsonv);
    forall x ensures multiset(MatchingAt(view, tier, PATCH, jsonv))[x]
                  == if PatchesAt(x, tier, jsonv) then multiset(view)[x] else 0
    {
      SelectCount(Select(view, AtTier(tier)), MatchesOf(PATCH, jsonv), x);
      SelectCount(view, AtTier(tier), x);
    }
  }

  /** The tier ran: its rules are those that match the document it starts from, and they worked on it
      one after the other. */
  ghost predicate TierRan(env: Env, view: seq<Item>, tier: Tier, start: PatchState, end: PatchState) {
    exists steps :: Chained(env, steps, start, end) && PatchingRules(RulesOf(steps), view, tier, start.jsonv)
  }

  /** The tier broke: after some of its rules the next one left bytes that do not parse. */
  ghost predicate TierBroke(env: Env, view: seq<Item>, tier: Tier, start: PatchState) {
    exists items, steps, at ::
      PatchingRules(items, view, tier, start.jsonv) && |steps| < |items| && RulesOf(steps) == items[..|steps|]
      && Chained(env, steps, start, at) && Breaks(env, items[|steps|], at)
  }

  lemma TierExplained(env: Env, view: seq<Item>, tier: Tier, st: PatchState)
    ensures PatchTier(env, view, tier, st).Ok? ==> TierRan(env, view, tier, st, PatchTier(env, view, tier, st).value)
    ensures PatchTier(env, view, tier, st).Err? ==> TierBroke(env, view, tier, st)
  {
    var items := MatchingAt(view, tier, PATCH, st.jsonv);
    MatchingPatches(view, tier, st.jsonv);
    var steps, at := RulesExplained(env, items, st);
    assert items[..|items|] == items;
  }

  /** A run from one state to the next, tier by tier, up to its end or to the tier that broke. */
  ghost predicate Explains(env: Env, views: seq<seq<Item>>, executed: seq<Tier>, start: PatchState,
                           r: Result<PatchState>, states: seq<PatchState>)
    requires |executed| <= |views|
  {
    states != [] && states[0] == start && |states| == (if r.Ok? then |executed| + 1 else |executed|)
    && (forall i | 0 <= i < |states| - 1 :: TierRan(env, views[i], executed[i], states[i], states[i + 1]))
    && (r.Ok? ==> states[|executed|] == r.value)
    && (r.Err? ==> TierBroke(env, views[|states| - 1], executed[|states| - 1], states[|states| - 1]))
  }

  ghost predicate Explained(env: Env, views: seq<seq<Item>>, executed: seq<Tier>, start: PatchState,
                            r: Result<PatchState>)
    requires |executed| <= |views|
  {
    exists states :: Explains(env, views, executed, start, r, states)
  }

  lemma ExplainMore(env: Env, views: seq<seq<Item>>, executed: seq<Tier>, start: PatchState, states: seq<PatchState>,
                    before: PatchState, tier: Tier)
    requires |executed| < |views| && Explains(env, views, executed, start, Ok(before), states)
    ensures var r := PatchTier(env, views[|executed|], tier, before);
            Explains(env, views, executed + [tier], start, r, if r.Ok? then states + [r.value] else states)
  {
    TierExplained(env, views[|executed|], tier, before);
    var r := PatchTier(env, views[|executed|], tier, before);
    var all := if r.Ok? then states + [r.value] else states;
    forall i | 0 <= i < |all| - 1 ensures TierRan(env, views[i], (executed + [tier])[i], all[i], all[i + 1]) {
      if i < |executed| { assert TierRan(env, views[i], executed[i], states[i], states[i + 1]); }
    }
  }

  /** Every run that ends, or breaks in its last tier, is explained. */
  lemma {:induction false} RunExplained(env: Env, views: seq<seq<Item>>, executed: seq<Tier>, start: PatchState)
    returns (states: seq<PatchState>)
    requires |executed| <= |views|
    requires executed == [] || PatchRun(env, views, executed[..|executed| - 1], start).Ok?
    ensures Explains(env, views, executed, start, PatchRun(env, views, executed, start), states)
  {
    if executed == [] {
      states := [start];
    } else {
      var init, last := executed[..|executed| - 1], executed[|executed| - 1];
      SplitLast(executed);
      OkPrefix(env, views, init, start);
      var before := PatchRun(env, views, init, start).value;
      var earlier := RunExplained(env, views, init, start);
      ExplainMore(env, views, init, start, earlier, before, last);
      var r := PatchTier(env, views[|init|], last, before);
      states := if r.Ok? then earlier + [r.value] else earlier;
    }
  }

  lemma OkPrefix(env: Env, views: seq<seq<Item>>, executed: seq<Tier>, start: PatchState)
    requires |executed| <= |views| && PatchRun(env, views, executed, start).Ok?
    ensures executed == [] || PatchRun(env, views, executed[..|executed| - 1], start).Ok?
  {}

  // ---- The document is the parse of the bytes ----

  /** A failing application returns the bytes it was given. */
  ghost predicate KeepsBytes(env: Env) {
    forall patch, bytes :: !env.apply(patch, bytes).1 ==> env.apply(patch, bytes).0 == bytes
  }

  ghost predicate InStep(env: Env, st: PatchState) { env.unmarshal(st.modifiedJSON) == Ok(st.jsonv) }

  lemma {:induction false} ChainInStep(env: Env, steps: seq<PatchStep>, start: PatchState, end: PatchState)
    requires KeepsBytes(env) && InStep(env, start) && Chained(env, steps, start, end)
    ensures InStep(env, end)
  {
    if steps != [] {
      assert Justified(env, steps[0]);
      ChainInStep(env, steps[1..], steps[0].after, end);
    }
  }

  /** If failing applications keep the bytes, every tier is matched against the parse of the bytes that
      the lower tiers have left. */
  lemma {:induction false} TiersInStep(env: Env, views: seq<seq<Item>>, executed: seq<Tier>, start: PatchState,
                                       r: Result<PatchState>, states: seq<PatchState>, i: nat)
    requires |executed| <= |views| && Explains(env, views, executed, start, r, states)
    requires KeepsBytes(env) && InStep(env, start) && i < |states|
    ensures InStep(env, states[i])
  {
    if i > 0 {
      TiersInStep(env, views, executed, start, r, states, i - 1);
      assert TierRan(env, views[i - 1], executed[i - 1], states[i - 1], states[i]);
      var steps :| Chained(env, steps, states[i - 1], states[i])
                   && PatchingRules(RulesOf(steps), views[i - 1], executed[i - 1], states[i - 1].jsonv);
      ChainInStep(env, steps, states[i - 1], states[i]);
    }
  }

  /** What CalculatePatch promises of its document: how it came about, and that it is the parse of the
      returned bytes. */
  ghost predicate WellPatched(env: Env, views: seq<seq<Item>>, executed: seq<Tier>, start: PatchState,
                              r: Result<PatchState>)
    requires |executed| <= |views|
  {
    Explained(env, views, executed, start, r) && (KeepsBytes(env) && r.Ok? ==> InStep(env, r.value))
  }

  lemma RunWellPatched(env: Env, views: seq<seq<Item>>, executed: seq<Tier>, start: PatchState)
    requires |executed| <= |views| && InStep(env, start)
    requires executed == [] || PatchRun(env, views, executed[..|executed| - 1], start).Ok?
    ensures WellPatched(env, views, executed, start, PatchRun(env, views, executed, start))
  {
    var r := PatchRun(env, views, executed, start);
    var states := RunExplained(env, views, executed, start);
    if KeepsBytes(env) && r.Ok? { TiersInStep(env, views, executed, start, r, states, |executed|); }
  }

  /** The same rules in every round. */
  function Throughout(applicable: seq<Item>, n: nat): (views: seq<seq<Item>>)
    ensures |views| == n && forall i | 0 <= i < n :: views[i] == applicable
  {
    seq(n, _ => applicable)
  }

  lemma SteadyWellPatched(env: Env, views: seq<seq<Item>>, executed: seq<Tier>, applicable: seq<Item>,
                          start: PatchState, r: Result<PatchState>)
    requires |executed| <= |views| && Steady(views, applicable) && WellPatched(env, views, executed, start, r)
    ensures WellPatched(env, Throughout(applicable, |executed|), executed, start, r)
  {
    var states :| Explains(env, views, executed, start, r, states);
    assert Explains(env, Throughout(applicable, |executed|), executed, start, r, states);
  }
}
