/** Mod rules, their compiled items, and the tier lookup of core/modrulestore.go on lists. */
module Rules {
  import opened Sequences
  import opened Values
  import opened Matching

  /** int16: any arithmetic that leaves the range is refused by the verifier. */
  newtype Tier = t: int | -0x8000 <= t <= 0x7FFF

  const MIN_TIER: Tier := -0x8000
  const MAX_TIER: Tier := 0x7FFF

  datatype ModRule = ModRule(namespace: string, name: string, tier: Tier, ruleType: string, operations: seq<string>)

  const PATCH := "Patch"
  const REJECT := "Reject"

  /** The text of a JSON patch. */
  type Patch = string

  /** What compiling a rule gives. Regular expressions, and patches and messages as functions of
      the request's namespace and the document, are opaque. */
  datatype Compiled = Compiled(
    targetNamespace: Option<string -> bool>,
    criteria: seq<MatchItem>,
    patch: (string, Json) -> Result<Patch>,
    rejectMessage: Option<(string, Json) -> Result<string>>)

  datatype Item = Item(rule: ModRule, compiled: Compiled)

  /** What the admission webhook accepts (api/v1beta1/modrule_webhook.go). */
  predicate Validated(rule: ModRule) { MIN_TIER < rule.tier < MAX_TIER }

  // ---- Filtering ----

  function Select(items: seq<Item>, p: Item -> bool): seq<Item> {
    if items == [] then [] else (if p(items[0]) then [items[0]] else []) + Select(items[1..], p)
  }

  lemma {:induction false} SelectAppend(a: seq<Item>, b: seq<Item>, p: Item -> bool)
    ensures Select(a + b, p) == Select(a, p) + Select(b, p)
  {
    if a == [] {
      assert a + b == b;
    } else {
      var head := if p(a[0]) then [a[0]] else [];
      assert (a + b)[0] == a[0] && (a + b)[1..] == a[1..] + b;
      SelectAppend(a[1..], b, p);
      Associate(head, Select(a[1..], p), Select(b, p));
    }
  }

  lemma SelectOne(item: Item, p: Item -> bool)
    ensures Select([item], p) == if p(item) then [item] else []
  {
    assert [item][1..] == [];
  }

  lemma SelectSnoc(items: seq<Item>, item: Item, p: Item -> bool)
    ensures Select(items + [item], p) == Select(items, p) + if p(item) then [item] else []
  {
    SelectAppend(items, [item], p);
    SelectOne(item, p);
  }

  lemma {:induction false} SelectMember(items: seq<Item>, p: Item -> bool, x: Item)
    ensures x in Select(items, p) <==> x in items && p(x)
  {
    if items != [] { SelectMember(items[1..], p, x); }
  }

  lemma {:induction false} SelectCount(items: seq<Item>, p: Item -> bool, x: Item)
    ensures multiset(Select(items, p))[x] == if p(x) then multiset(items)[x] else 0
  {
    if items != [] {
      assert items == [items[0]] + items[1..];
      SelectCount(items[1..], p, x);
    }
  }

  lemma SelectPermutes(a: seq<Item>, b: seq<Item>, p: Item -> bool)
    requires multiset(a) == multiset(b)
    ensures multiset(Select(a, p)) == multiset(Select(b, p))
  {
    forall x ensures multiset(Select(a, p))[x] == multiset(Select(b, p))[x] {
      SelectCount(a, p, x);
      SelectCount(b, p, x);
    }
  }

  function InOperation(operation: string): Item -> bool {
    (item: Item) => operation in item.rule.operations
  }

  /** A cluster-wide rule applies to a resource without namespace if it names no target, and to
      any resource whose namespace its target expression matches. */
  function InClusterScope(operation: string, namespace: string): Item -> bool {
    (item: Item) =>
      operation in item.rule.operations &&
      match item.compiled.targetNamespace
      case None => namespace == ""
      case Some(regex) => regex(namespace)
  }

  function FromTier(min: Tier): Item -> bool { (item: Item) => item.rule.tier >= min }

  function AtTier(tier: Tier): Item -> bool { (item: Item) => item.rule.tier == tier }

  function MatchesOf(ruleType: string, jsonv: Json): Item -> bool {
    (item: Item) => item.rule.ruleType == ruleType && AllMatch(item.compiled.criteria, jsonv)
  }

  function ListOf(lists: map<string, seq<Item>>, namespace: string): seq<Item> {
    if namespace in lists then lists[namespace] else []
  }

  /** The rules that apply to a request, cluster-wide ones first. */
  function Applicable(lists: map<string, seq<Item>>, cluster: string, operation: string, namespace: string): seq<Item> {
    Select(ListOf(lists, cluster), InClusterScope(operation, namespace))
    + if namespace != "" then Select(ListOf(lists, namespace), InOperation(operation)) else []
  }

  // ---- The lowest tier ----

  /** The least tier in a list, MAX_TIER for the empty list. */
  function LowestTier(items: seq<Item>): Tier {
    if items == [] then MAX_TIER
    else
      var rest := LowestTier(items[1..]);
      if items[0].rule.tier < rest then items[0].rule.tier else rest
  }

  lemma {:induction false} LowestTierIsLeast(items: seq<Item>)
    ensures forall i | 0 <= i < |items| :: LowestTier(items) <= items[i].rule.tier
    ensures LowestTier(items) == MAX_TIER || exists i | 0 <= i < |items| :: items[i].rule.tier == LowestTier(items)
  {
    if items != [] {
      var rest := LowestTier(items[1..]);
      LowestTierIsLeast(items[1..]);
      forall i | 0 <= i < |items| ensures LowestTier(items) <= items[i].rule.tier {
        if i > 0 { assert items[i] == items[1..][i - 1]; }
      }
      if rest != MAX_TIER {
        var i :| 0 <= i < |items[1..]| && items[1..][i].rule.tier == rest;
        assert items[i + 1].rule.tier == rest;
      }
    }
  }

  lemma LowestTierPermutes(a: seq<Item>, b: seq<Item>)
    requires multiset(a) == multiset(b)
    ensures LowestTier(a) == LowestTier(b)
  {
    LowestTierBelow(a, b);
    LowestTierBelow(b, a);
  }

  lemma LowestTierBelow(a: seq<Item>, b: seq<Item>)
    requires multiset(a) == multiset(b)
    ensures LowestTier(a) <= LowestTier(b)
  {
    LowestTierIsLeast(a);
    LowestTierIsLeast(b);
    if LowestTier(b) != MAX_TIER {
      var i :| 0 <= i < |b| && b[i].rule.tier == LowestTier(b);
      assert b[i] in multiset(a);
      var j :| 0 <= j < |a| && a[j] == b[i];
    }
  }

  /** The lookup's tier and rules, as a specification. */
  function NextTier(applicable: seq<Item>, min: Tier): Tier {
    LowestTier(Select(applicable, FromTier(min)))
  }

  function MatchingAt(applicable: seq<Item>, tier: Tier, ruleType: string, jsonv: Json): seq<Item> {
    Select(Select(applicable, AtTier(tier)), MatchesOf(ruleType, jsonv))
  }

  lemma {:induction false} SelectFromThenAt(items: seq<Item>, min: Tier, tier: Tier)
    requires min <= tier
    ensures Select(Select(items, FromTier(min)), AtTier(tier)) == Select(items, AtTier(tier))
  {
    if items != [] {
      SelectFromThenAt(items[1..], min, tier);
      var rest := Select(items[1..], FromTier(min));
      if items[0].rule.tier >= min {
        assert Select(items, FromTier(min))[1..] == rest;
      } else {
        assert Select(items, FromTier(min)) == rest;
      }
    }
  }

  lemma NextTierAbove(applicable: seq<Item>, min: Tier)
    ensures min <= NextTier(applicable, min)
  {
    NextTierAttained(applicable, min);
  }

  /** The next tier is that of some applicable rule from the minimum on, unless it is MAX_TIER,
      and no such rule has a lower one. */
  lemma NextTierAttained(applicable: seq<Item>, min: Tier)
    ensures NextTier(applicable, min) != MAX_TIER ==>
              min <= NextTier(applicable, min)
              && exists j | 0 <= j < |applicable| :: applicable[j].rule.tier == NextTier(applicable, min)
    ensures forall j | 0 <= j < |applicable| && applicable[j].rule.tier >= min ::
              NextTier(applicable, min) <= applicable[j].rule.tier
  {
    var items := Select(applicable, FromTier(min));
    LowestTierIsLeast(items);
    if NextTier(applicable, min) != MAX_TIER {
      var k :| 0 <= k < |items| && items[k].rule.tier == NextTier(applicable, min);
      SelectMember(applicable, FromTier(min), items[k]);
      var j :| 0 <= j < |applicable| && applicable[j] == items[k];
    }
    forall j | 0 <= j < |applicable| && applicable[j].rule.tier >= min
      ensures NextTier(applicable, min) <= applicable[j].rule.tier
    {
      SelectMember(applicable, FromTier(min), applicable[j]);
      var k :| 0 <= k < |items| && items[k] == applicable[j];
    }
  }

  /** The tier is MAX_TIER exactly when no rule applies from the minimum on, rules at MAX_TIER
      itself aside, which validation refuses. */
  lemma NoTierIffNoRule(applicable: seq<Item>, min: Tier)
    ensures NextTier(applicable, min) == MAX_TIER
            <==> forall i | 0 <= i < |applicable| ::
                   applicable[i].rule.tier < min || applicable[i].rule.tier == MAX_TIER
  {
    NextTierAttained(applicable, min);
  }

  /** Up to order, the lookup does not depend on the order of the rules in the lists. */
  lemma LookupIgnoresOrder(a: seq<Item>, b: seq<Item>, min: Tier, ruleType: string, jsonv: Json)
    requires multiset(a) == multiset(b)
    ensures NextTier(a, min) == NextTier(b, min)
    ensures multiset(MatchingAt(a, NextTier(a, min), ruleType, jsonv))
         == multiset(MatchingAt(b, NextTier(b, min), ruleType, jsonv))
  {
    SelectPermutes(a, b, FromTier(min));
    LowestTierPermutes(Select(a, FromTier(min)), Select(b, FromTier(min)));
    var t := NextTier(a, min);
    SelectPermutes(a, b, AtTier(t));
    SelectPermutes(Select(a, AtTier(t)), Select(b, AtTier(t)), MatchesOf(ruleType, jsonv));
  }

  /** Reordering the lists of a store reorders the applicable rules. */
  lemma ApplicableIgnoresOrder(a: map<string, seq<Item>>, b: map<string, seq<Item>>, cluster: string,
                               operation: string, namespace: string)
    requires forall ns :: multiset(ListOf(a, ns)) == multiset(ListOf(b, ns))
    ensures multiset(Applicable(a, cluster, operation, namespace))
         == multiset(Applicable(b, cluster, operation, namespace))
  {
    SelectPermutes(ListOf(a, cluster), ListOf(b, cluster), InClusterScope(operation, namespace));
    SelectPermutes(ListOf(a, namespace), ListOf(b, namespace), InOperation(operation));
  }
}
