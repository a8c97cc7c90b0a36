/** Lookups in terms of the map a store represents: which rules a request sees, how often, and how
    the map changes while a run is under way (core/modrulestore.go). */
module Views {
  import opened Values
  import opened Matching
  import opened Rules
  import opened RuleStore

  /** The map holds this item for the namespace. */
  ghost predicate Held(rules: map<RuleKey, Item>, namespace: string, x: Item) {
    x.rule.namespace == namespace && (namespace, x.rule.name) in rules && rules[(namespace, x.rule.name)] == x
  }

  /** As a cluster-wide rule the item applies to the request: to a resource without namespace if it
      names no target, and to any resource whose namespace its target expression matches. */
  ghost predicate AppliesClusterWide(rules: map<RuleKey, Item>, cluster: string, operation: string,
                                     namespace: string, x: Item)
  {
    Held(rules, cluster, x) && operation in x.rule.operations &&
    (x.compiled.targetNamespace.None? ==> namespace == "") &&
    (x.compiled.targetNamespace.Some? ==> x.compiled.targetNamespace.value(namespace))
  }

  /** As a rule of the request's own namespace it applies. */
  ghost predicate AppliesInNamespace(rules: map<RuleKey, Item>, operation: string, namespace: string, x: Item) {
    namespace != "" && Held(rules, namespace, x) && operation in x.rule.operations
  }

  ghost predicate AppliesTo(rules: map<RuleKey, Item>, cluster: string, operation: string, namespace: string, x: Item) {
    AppliesClusterWide(rules, cluster, operation, namespace, x) || AppliesInNamespace(rules, operation, namespace, x)
  }

  /** How often a rule is looked at: once for each way it applies. */
  ghost function Times(rules: map<RuleKey, Item>, cluster: string, operation: string, namespace: string, x: Item): nat {
    (if AppliesClusterWide(rules, cluster, operation, namespace, x) then 1 else 0)
    + (if AppliesInNamespace(rules, operation, namespace, x) then 1 else 0)
  }

  /** Up to order, the rules of the map that apply to the request. */
  ghost predicate IsView(view: seq<Item>, rules: map<RuleKey, Item>, cluster: string, operation: string,
                         namespace: string)
  {
    forall x :: multiset(view)[x] == Times(rules, cluster, operation, namespace, x)
  }

  lemma ListHolds(items: seq<Item>, namespace: string, rules: map<RuleKey, Item>, x: Item)
    requires Represents(items, namespace, rules)
    ensures multiset(items)[x] == if Held(rules, namespace, x) then 1 else 0
  {
    CountOnce(items, x);
    assert x in items ==> Held(rules, namespace, x) by {
      if x in items { var i :| 0 <= i < |items| && items[i] == x; }
    }
    if Held(rules, namespace, x) {
      assert HoldsItem(items, x.rule.name, rules[(namespace, x.rule.name)]);
      assert x in multiset(items);
    }
  }

  /** What a lookup scans is the view of the map that the lists represent. */
  lemma ApplicableIsView(lists: map<string, seq<Item>>, rules: map<RuleKey, Item>, cluster: string,
                         operation: string, namespace: string)
    requires Represents(ListOf(lists, cluster), cluster, rules)
    requires Represents(ListOf(lists, namespace), namespace, rules)
    ensures IsView(Applicable(lists, cluster, operation, namespace), rules, cluster, operation, namespace)
  {
    forall x ensures multiset(Applicable(lists, cluster, operation, namespace))[x]
                  == Times(rules, cluster, operation, namespace, x)
    {
      SelectCount(ListOf(lists, cluster), InClusterScope(operation, namespace), x);
      SelectCount(ListOf(lists, namespace), InOperation(operation), x);
      ListHolds(ListOf(lists, cluster), cluster, rules, x);
      ListHolds(ListOf(lists, namespace), namespace, rules, x);
    }
  }

  /** Outside the cluster-rules namespace each applicable rule is looked at once. */
  lemma AppliesOnce(rules: map<RuleKey, Item>, cluster: string, operation: string, namespace: string, x: Item)
    requires namespace != cluster
    ensures Times(rules, cluster, operation, namespace, x)
         == if AppliesTo(rules, cluster, operation, namespace, x) then 1 else 0
  {}

  /** How often a lookup looks at a rule of the map: outside the cluster-rules namespace once if it
      applies. Inside it both scans walk the same list, and a rule is looked at twice exactly if its
      target matches that very namespace. */
  lemma ApplicableCount(lists: map<string, seq<Item>>, rules: map<RuleKey, Item>, cluster: string,
                        operation: string, namespace: string, x: Item)
    requires Represents(ListOf(lists, cluster), cluster, rules)
    requires Represents(ListOf(lists, namespace), namespace, rules)
    ensures namespace != cluster ==>
              multiset(Applicable(lists, cluster, operation, namespace))[x]
              == if AppliesTo(rules, cluster, operation, namespace, x) then 1 else 0
    ensures namespace == cluster != "" ==>
              (multiset(Applicable(lists, cluster, operation, namespace))[x] == 2 <==>
                 Held(rules, cluster, x) && operation in x.rule.operations
                 && x.compiled.targetNamespace.Some? && x.compiled.targetNamespace.value(cluster))
  {
    ApplicableIsView(lists, rules, cluster, operation, namespace);
    if namespace != cluster { AppliesOnce(rules, cluster, operation, namespace, x); }
  }

  /** The tier of a lookup in terms of the map: that of a rule that applies, from the minimum on,
      and least among those. */
  lemma LookupByMap(view: seq<Item>, rules: map<RuleKey, Item>, cluster: string, operation: string,
                    namespace: string, min: Tier)
    requires IsView(view, rules, cluster, operation, namespace)
    ensures forall x | AppliesTo(rules, cluster, operation, namespace, x) && x.rule.tier >= min ::
              NextTier(view, min) <= x.rule.tier
    ensures NextTier(view, min) != MAX_TIER ==>
              exists x ::
                AppliesTo(rules, cluster, operation, namespace, x) && min <= x.rule.tier == NextTier(view, min)
  {
    NextTierAttained(view, min);
    forall x | AppliesTo(rules, cluster, operation, namespace, x) && x.rule.tier >= min
      ensures NextTier(view, min) <= x.rule.tier
    {
      assert multiset(view)[x] >= 1;
      assert x in multiset(view);
      var j :| 0 <= j < |view| && view[j] == x;
    }
    if NextTier(view, min) != MAX_TIER {
      var j :| 0 <= j < |view| && view[j].rule.tier == NextTier(view, min);
      assert view[j] in multiset(view);
      assert multiset(view)[view[j]] >= 1;
      assert AppliesTo(rules, cluster, operation, namespace, view[j]);
    }
  }

  /** The rule has this type and all its criteria match the document. */
  predicate MatchesAs(x: Item, ruleType: string, jsonv: Json) {
    x.rule.ruleType == ruleType
    && forall k | 0 <= k < |x.compiled.criteria| :: ItemMatches(x.compiled.criteria[k], jsonv)
  }

  /** Cluster-wide rules come first, in the order of their list, then those of the namespace. */
  lemma ClusterRulesFirst(lists: map<string, seq<Item>>, rules: map<RuleKey, Item>, cluster: string,
                          operation: string, namespace: string, tier: Tier, ruleType: string, jsonv: Json)
    returns (first: seq<Item>, second: seq<Item>)
    requires Represents(ListOf(lists, cluster), cluster, rules)
    requires Represents(ListOf(lists, namespace), namespace, rules)
    ensures MatchingAt(Applicable(lists, cluster, operation, namespace), tier, ruleType, jsonv) == first + second
    ensures forall x | x in first :: Held(rules, cluster, x)
    ensures forall x | x in second :: Held(rules, namespace, x)
    ensures InOrderOf(first, ListOf(lists, cluster)) && InOrderOf(second, ListOf(lists, namespace))
  {
    var a := Select(ListOf(lists, cluster), InClusterScope(operation, namespace));
    var b := if namespace != "" then Select(ListOf(lists, namespace), InOperation(operation)) else [];
    SelectAppend(a, b, AtTier(tier));
    SelectAppend(Select(a, AtTier(tier)), Select(b, AtTier(tier)), MatchesOf(ruleType, jsonv));
    first, second := MatchingAt(a, tier, ruleType, jsonv), MatchingAt(b, tier, ruleType, jsonv);
    KeptInOrder(ListOf(lists, cluster), InClusterScope(operation, namespace), tier, ruleType, jsonv);
    if namespace != "" {
      KeptInOrder(ListOf(lists, namespace), InOperation(operation), tier, ruleType, jsonv);
    } else {
      assert second == [];
      EmptyInOrder(ListOf(lists, namespace));
    }
    forall x | x in first ensures Held(rules, cluster, x) {
      InOrderMember(first, ListOf(lists, cluster), x);
      ListHolds(ListOf(lists, cluster), cluster, rules, x);
    }
    forall x | x in second ensures Held(rules, namespace, x) {
      InOrderMember(second, ListOf(lists, namespace), x);
      ListHolds(ListOf(lists, namespace), namespace, rules, x);
    }
  }

  /** The first list is the second with some items left out. */
  ghost predicate InOrderOf(some: seq<Item>, all: seq<Item>)
    decreases |all|
  {
    if all == [] then some == []
    else InOrderOf(some, all[1..]) || (some != [] && some[0] == all[0] && InOrderOf(some[1..], all[1..]))
  }

  lemma {:induction false} EmptyInOrder(all: seq<Item>)
    ensures InOrderOf([], all)
    decreases |all|
  {
    if all != [] { EmptyInOrder(all[1..]); }
  }

  lemma {:induction false} SelectInOrder(items: seq<Item>, p: Item -> bool, some: seq<Item>)
    requires InOrderOf(some, Select(items, p))
    ensures InOrderOf(some, items)
    decreases |items|
  {
    if items != [] {
      var kept := Select(items[1..], p);
      if p(items[0]) {
        assert Select(items, p)[1..] == kept;
        if InOrderOf(some, kept) {
          SelectInOrder(items[1..], p, some);
        } else {
          SelectInOrder(items[1..], p, some[1..]);
        }
      } else {
        assert Select(items, p) == kept;
        SelectInOrder(items[1..], p, some);
      }
    }
  }

  lemma {:induction false} AllInOrder(items: seq<Item>)
    ensures InOrderOf(items, items)
  {
    if items != [] { AllInOrder(items[1..]); }
  }

  lemma MatchingInOrder(items: seq<Item>, tier: Tier, ruleType: string, jsonv: Json)
    ensures InOrderOf(MatchingAt(items, tier, ruleType, jsonv), items)
  {
    var some := MatchingAt(items, tier, ruleType, jsonv);
    AllInOrder(some);
    SelectInOrder(Select(items, AtTier(tier)), MatchesOf(ruleType, jsonv), some);
    SelectInOrder(items, AtTier(tier), some);
  }

  lemma KeptInOrder(items: seq<Item>, p: Item -> bool, tier: Tier, ruleType: string, jsonv: Json)
    ensures InOrderOf(MatchingAt(Select(items, p), tier, ruleType, jsonv), items)
  {
    MatchingInOrder(Select(items, p), tier, ruleType, jsonv);
    SelectInOrder(items, p, MatchingAt(Select(items, p), tier, ruleType, jsonv));
  }

  lemma {:induction false} InOrderMember(some: seq<Item>, all: seq<Item>, x: Item)
    requires InOrderOf(some, all) && x in some
    ensures x in all
    decreases |all|
  {
    if all != [] {
      if InOrderOf(some, all[1..]) {
        InOrderMember(some, all[1..], x);
      } else if x != some[0] {
        InOrderMember(some[1..], all[1..], x);
      }
    }
  }

  /** The rules of a lookup in terms of the map: those that apply, have the tier and the type, and
      match, each as often as it applies. */
  lemma MatchingByMap(view: seq<Item>, rules: map<RuleKey, Item>, cluster: string, operation: string,
                      namespace: string, tier: Tier, ruleType: string, jsonv: Json, x: Item)
    requires IsView(view, rules, cluster, operation, namespace)
    ensures multiset(MatchingAt(view, tier, ruleType, jsonv))[x]
         == if x.rule.tier == tier && MatchesAs(x, ruleType, jsonv)
            then Times(rules, cluster, operation, namespace, x) else 0
  {
    SelectCount(Select(view, AtTier(tier)), MatchesOf(ruleType, jsonv), x);
    SelectCount(view, AtTier(tier), x);
  }

  // ---- A map that changes between lookups ----

  /** The edits made right before lookup i. */
  function EditsAt(edits: seq<seq<Op>>, i: nat): seq<Op> {
    if i < |edits| then edits[i] else []
  }

  /** The map after the edits of the first n lookups. */
  ghost function Evolved(compile: ModRule -> Result<Compiled>, rules: map<RuleKey, Item>, edits: seq<seq<Op>>,
                         n: nat): map<RuleKey, Item>
  {
    if n == 0 then rules
    else ApplyAll(compile, Evolved(compile, rules, edits, n - 1), EditsAt(edits, n - 1))
  }

  lemma {:induction false} NothingEvolves(compile: ModRule -> Result<Compiled>, rules: map<RuleKey, Item>, n: nat)
    ensures Evolved(compile, rules, [], n) == rules
  {
    if n > 0 { NothingEvolves(compile, rules, n - 1); }
  }

  /** The first n batches in one list. */
  function Joined(edits: seq<seq<Op>>, n: nat): seq<Op>
    requires n <= |edits|
  {
    if n == 0 then [] else Joined(edits, n - 1) + edits[n - 1]
  }

  lemma {:induction false} ApplyAllAppend(compile: ModRule -> Result<Compiled>, rules: map<RuleKey, Item>, a: seq<Op>,
                                          b: seq<Op>)
    ensures ApplyAll(compile, rules, a + b) == ApplyAll(compile, ApplyAll(compile, rules, a), b)
    decreases |b|
  {
    if b == [] {
      assert a + b == a;
    } else {
      assert (a + b)[..|a + b| - 1] == a + b[..|b| - 1] && (a + b)[|a + b| - 1] == b[|b| - 1];
      ApplyAllAppend(compile, rules, a, b[..|b| - 1]);
    }
  }

  /** The map at lookup n is that after all edits of the batches before it, as long as there are any. */
  lemma {:induction false} EvolvedIsJoined(compile: ModRule -> Result<Compiled>, rules: map<RuleKey, Item>,
                                           edits: seq<seq<Op>>, n: nat)
    ensures Evolved(compile, rules, edits, n)
         == ApplyAll(compile, rules, Joined(edits, if n <= |edits| then n else |edits|))
  {
    if n > 0 {
      EvolvedIsJoined(compile, rules, edits, n - 1);
      if n <= |edits| {
        ApplyAllAppend(compile, rules, Joined(edits, n - 1), edits[n - 1]);
      }
    }
  }

  function KeyOf(op: Op): RuleKey {
    match op
    case PutOp(rule) => (rule.namespace, rule.name)
    case DeleteOp(namespace, name) => (namespace, name)
  }

  /** No edit is about the rule of that name. */
  predicate Untouched(edits: seq<seq<Op>>, x: Item) {
    forall i | 0 <= i < |edits| :: NotAbout(edits[i], (x.rule.namespace, x.rule.name))
  }

  predicate NotAbout(ops: seq<Op>, key: RuleKey) {
    forall j | 0 <= j < |ops| :: KeyOf(ops[j]) != key
  }

  ghost predicate SameEntry(a: map<RuleKey, Item>, b: map<RuleKey, Item>, key: RuleKey) {
    (key in a <==> key in b) && (key in a ==> a[key] == b[key])
  }

  lemma {:induction false} ApplyAllKeeps(compile: ModRule -> Result<Compiled>, rules: map<RuleKey, Item>,
                                         ops: seq<Op>, key: RuleKey)
    requires NotAbout(ops, key)
    ensures SameEntry(ApplyAll(compile, rules, ops), rules, key)
  {
    if ops != [] {
      ApplyAllKeeps(compile, rules, ops[..|ops| - 1], key);
      assert KeyOf(ops[|ops| - 1]) != key;
    }
  }

  lemma {:induction false} EvolvedKeeps(compile: ModRule -> Result<Compiled>, rules: map<RuleKey, Item>,
                                        edits: seq<seq<Op>>, n: nat, x: Item)
    requires Untouched(edits, x)
    ensures SameEntry(Evolved(compile, rules, edits, n), rules, (x.rule.namespace, x.rule.name))
  {
    if n > 0 {
      var key := (x.rule.namespace, x.rule.name);
      EvolvedKeeps(compile, rules, edits, n - 1, x);
      ApplyAllKeeps(compile, Evolved(compile, rules, edits, n - 1), EditsAt(edits, n - 1), key);
    }
  }

  /** A rule that no edit is about keeps applying as often as it did. */
  lemma UntouchedTimes(compile: ModRule -> Result<Compiled>, rules: map<RuleKey, Item>, edits: seq<seq<Op>>, n: nat,
                       cluster: string, operation: string, namespace: string, x: Item)
    requires Untouched(edits, x)
    ensures Times(Evolved(compile, rules, edits, n), cluster, operation, namespace, x)
         == Times(rules, cluster, operation, namespace, x)
  {
    EvolvedKeeps(compile, rules, edits, n, x);
  }

  /** Each lookup saw the rules of the map as the edits up to then had left it. */
  ghost predicate ViewsFollow(views: seq<seq<Item>>, compile: ModRule -> Result<Compiled>,
                              rules: map<RuleKey, Item>, edits: seq<seq<Op>>, cluster: string, operation: string,
                              namespace: string)
  {
    forall i | 0 <= i < |views| ::
      IsView(views[i], Evolved(compile, rules, edits, i + 1), cluster, operation, namespace)
  }

  lemma ViewsFollowSnoc(views: seq<seq<Item>>, view: seq<Item>, compile: ModRule -> Result<Compiled>,
                        rules: map<RuleKey, Item>, edits: seq<seq<Op>>, cluster: string, operation: string,
                        namespace: string)
    requires ViewsFollow(views, compile, rules, edits, cluster, operation, namespace)
    requires IsView(view, Evolved(compile, rules, edits, |views| + 1), cluster, operation, namespace)
    ensures ViewsFollow(views + [view], compile, rules, edits, cluster, operation, namespace)
  {
    forall i | 0 <= i < |views + [view]|
      ensures IsView((views + [view])[i], Evolved(compile, rules, edits, i + 1), cluster, operation, namespace)
    {
      if i < |views| { assert (views + [view])[i] == views[i]; }
    }
  }
}
