/** The rule store of core/modrulestore.go: lists of items by namespace, kept as a map from
    (namespace, name) to item. */
module RuleStore {
  import opened Values
  import opened Matching
  import opened Rules

  type RuleKey = (string, string)

  predicate DistinctNames(items: seq<Item>) {
    forall i, j | 0 <= i < j < |items| :: items[i].rule.name != items[j].rule.name
  }

  predicate SortedByTier(items: seq<Item>) {
    forall i, j | 0 <= i < j < |items| :: items[i].rule.tier <= items[j].rule.tier
  }

  ghost predicate HoldsItem(items: seq<Item>, name: string, item: Item) {
    item in items && item.rule.name == name
  }

  /** A list represents the part of the map that belongs to its namespace. */
  ghost predicate Represents(items: seq<Item>, namespace: string, rules: map<RuleKey, Item>) {
    DistinctNames(items) &&
    (forall i | 0 <= i < |items| :: items[i].rule.namespace == namespace) &&
    (forall name :: (namespace, name) in rules ==> HoldsItem(items, name, rules[(namespace, name)])) &&
    (forall i | 0 <= i < |items| ::
       (namespace, items[i].rule.name) in rules && rules[(namespace, items[i].rule.name)] == items[i])
  }

  // ---- Lists ----

  /** findItemIndexByName: the first index with that name, or -1. */
  method FindItemIndexByName(items: seq<Item>, name: string) returns (index: int)
    ensures -1 <= index < |items|
    ensures index >= 0 ==> items[index].rule.name == name && forall i | 0 <= i < index :: items[i].rule.name != name
    ensures index == -1 ==> forall i | 0 <= i < |items| :: items[i].rule.name != name
  {
    for i := 0 to |items|
      invariant forall j | 0 <= j < i :: items[j].rule.name != name
    {
      if items[i].rule.name == name { return i; }
    }
    return -1;
  }

  function Swapped(items: seq<Item>, i: nat, j: nat): (r: seq<Item>)
    requires i < j < |items|
    ensures multiset(r) == multiset(items)
  {
    items[i := items[j]][j := items[i]]
  }

  /** sort.Sort by execution tier. Only what any sort does is promised: the items are permuted
      and end up in order. */
  method SortByTier(items: seq<Item>) returns (sorted: seq<Item>)
    ensures multiset(sorted) == multiset(items) && SortedByTier(sorted)
  {
    sorted := items;
    for i := 0 to |items|
      invariant multiset(sorted) == multiset(items) && |sorted| == |items|
      invariant SortedByTier(sorted[..i])
    {
      sorted := SinkInto(sorted, i);
    }
    assert sorted[..|items|] == sorted;
  }

  method SinkInto(items: seq<Item>, i: nat) returns (r: seq<Item>)
    requires i < |items| && SortedByTier(items[..i])
    ensures multiset(r) == multiset(items) && |r| == |items| && SortedByTier(r[..i + 1])
  {
    r := items;
    var j := i;
    while j > 0 && r[j].rule.tier < r[j - 1].rule.tier
      invariant j <= i && multiset(r) == multiset(items) && |r| == |items|
      invariant forall a, b | 0 <= a < b <= i && b != j :: r[a].rule.tier <= r[b].rule.tier
    {
      r := Swapped(r, j - 1, j);
      j := j - 1;
    }
  }

  lemma PermutedNamesDistinct(a: seq<Item>, b: seq<Item>)
    requires DistinctNames(a) && multiset(a) == multiset(b)
    ensures DistinctNames(b)
  {
    forall i, j | 0 <= i < j < |b| ensures b[i].rule.name != b[j].rule.name {
      assert b[i] in multiset(a) && b[j] in multiset(a);
      if b[i] == b[j] {
        CountTwice(b, i, j);
        CountOnce(a, b[i]);
      } else {
        var k :| 0 <= k < |a| && a[k] == b[i];
        var l :| 0 <= l < |a| && a[l] == b[j];
        assert k < l || l < k;
      }
    }
  }

  lemma CountTwice(b: seq<Item>, i: nat, j: nat)
    requires i < j < |b| && b[i] == b[j]
    ensures multiset(b)[b[i]] >= 2
  {
    assert b == b[..j] + [b[j]] + b[j + 1..];
    assert b[i] == b[..j][i];
    assert b[i] in multiset(b[..j]);
  }

  lemma CountOnce(a: seq<Item>, x: Item)
    requires DistinctNames(a)
    ensures multiset(a)[x] <= 1
  {
    if x in a {
      var k :| 0 <= k < |a| && a[k] == x;
      assert a == a[..k] + [x] + a[k + 1..];
      assert x !in a[..k] && x !in a[k + 1..];
    }
  }

  /** Reordering a list does not change what it represents. */
  lemma PermutedRepresents(a: seq<Item>, b: seq<Item>, namespace: string, rules: map<RuleKey, Item>)
    requires Represents(a, namespace, rules) && multiset(a) == multiset(b)
    ensures Represents(b, namespace, rules)
  {
    PermutedNamesDistinct(a, b);
    forall i | 0 <= i < |b| ensures b[i] in a { assert b[i] in multiset(a); }
    forall name | (namespace, name) in rules ensures HoldsItem(b, name, rules[(namespace, name)]) {
      assert rules[(namespace, name)] in multiset(a);
    }
  }

  // ---- The map ----

  function NewItem(compile: ModRule -> Result<Compiled>, rule: ModRule): Result<Item> {
    match compile(rule)
    case Ok(compiled) => Ok(Item(rule, compiled))
    case Err => Err
  }

  datatype Op = PutOp(rule: ModRule) | DeleteOp(namespace: string, name: string)

  /** The effect of one operation on the map: a Put that fails to compile has none. */
  ghost function Apply(compile: ModRule -> Result<Compiled>, rules: map<RuleKey, Item>, op: Op): map<RuleKey, Item> {
    match op
    case PutOp(rule) =>
      (match NewItem(compile, rule)
       case Ok(item) => rules[(rule.namespace, rule.name) := item]
       case Err => rules)
    case DeleteOp(namespace, name) => rules - {(namespace, name)}
  }

  ghost function ApplyAll(compile: ModRule -> Result<Compiled>, rules: map<RuleKey, Item>,
                          ops: seq<Op>): map<RuleKey, Item>
  {
    if ops == [] then rules
    else Apply(compile, ApplyAll(compile, rules, ops[..|ops| - 1]), ops[|ops| - 1])
  }

  /** The last operation that settles a key: its item if it was put, None if it was deleted or
      never successfully put. */
  function LastWrite(compile: ModRule -> Result<Compiled>, ops: seq<Op>, key: RuleKey): Option<Item> {
    if ops == [] then None
    else
      var earlier := LastWrite(compile, ops[..|ops| - 1], key);
      match ops[|ops| - 1]
      case PutOp(rule) =>
        if (rule.namespace, rule.name) != key then earlier
        else
          (match NewItem(compile, rule)
           case Ok(item) => Some(item)
           case Err => earlier)
      case DeleteOp(namespace, name) => if (namespace, name) == key then None else earlier
  }

  /** After any run from the empty store, a key holds the rule last put and not deleted since. */
  lemma {:induction false} RunHoldsLastWrites(compile: ModRule -> Result<Compiled>, ops: seq<Op>, key: RuleKey)
    ensures var rules := ApplyAll(compile, map[], ops);
            LastWrite(compile, ops, key) == if key in rules then Some(rules[key]) else None
  {
    if ops != [] { RunHoldsLastWrites(compile, ops[..|ops| - 1], key); }
  }

  class ModRuleStore {
    const clusterNamespace: string
    const compile: ModRule -> Result<Compiled>
    var lists: map<string, seq<Item>>
    ghost var rules: map<RuleKey, Item>

    constructor (clusterNamespace: string, compile: ModRule -> Result<Compiled>)
      ensures Valid() && rules == map[] && lists == map[]
      ensures this.clusterNamespace == clusterNamespace && this.compile == compile
    {
      this.clusterNamespace := clusterNamespace;
      this.compile := compile;
      lists := map[];
      rules := map[];
    }

    /** The lists represent the map, namespace by namespace. */
    ghost predicate Valid()
      reads this
    {
      forall namespace :: Represents(ListOf(lists, namespace), namespace, rules)
    }

    /** Put: upsert by name, then sort; a rule that does not compile changes nothing in the map,
        though a first Put may leave an empty list behind. */
    method Put(rule: ModRule) returns (ok: bool)
      requires Valid()
      modifies this
      ensures Valid() && ok == compile(rule).Ok?
      ensures rules == Apply(compile, old(rules), PutOp(rule))
      ensures forall ns | ns != rule.namespace :: ListOf(lists, ns) == ListOf(old(lists), ns)
      ensures !ok ==> ListOf(lists, rule.namespace) == ListOf(old(lists), rule.namespace)
      ensures ok ==> SortedByTier(ListOf(lists, rule.namespace))
    {
      var namespace := rule.namespace;
      ghost var before := ListOf(lists, namespace);
      var index := -1;
      if namespace !in lists {
        lists := lists[namespace := []];
      } else {
        index := FindItemIndexByName(lists[namespace], rule.name);
      }
      var compiled := compile(rule);
      if compiled.Err? {
        assert forall ns :: ListOf(lists, ns) == ListOf(old(lists), ns);
        return false;
      }
      var item := Item(rule, compiled.value);
      var updated := if index != -1 then lists[namespace][index := item] else lists[namespace] + [item];
      rules := rules[(namespace, rule.name) := item];
      UpsertRepresents(before, namespace, old(rules), item, index, updated);
      var sorted := SortByTier(updated);
      PermutedRepresents(updated, sorted, namespace, rules);
      lists := lists[namespace := sorted];
      forall ns ensures Represents(ListOf(lists, ns), ns, rules) {
        if ns != namespace { OtherNamespace(ListOf(old(lists), ns), ns, old(rules), rules); }
      }
      return true;
    }

    /** Delete: the last item takes the place of the deleted one, which may break the order; a
        list that becomes empty goes with its namespace. */
    method Delete(namespace: string, name: string)
      requires Valid()
      modifies this
      ensures Valid()
      ensures rules == Apply(compile, old(rules), DeleteOp(namespace, name))
      ensures forall ns | ns != namespace :: ListOf(lists, ns) == ListOf(old(lists), ns)
      ensures (namespace, name) !in old(rules) ==> lists == old(lists)
    {
      ghost var before := ListOf(lists, namespace);
      assert Represents(before, namespace, rules);
      if namespace in lists {
        var items := lists[namespace];
        var index := FindItemIndexByName(items, name);
        if index != -1 {
          var last := |items| - 1;
          var left := items[index := items[last]][..last];
          if left == [] {
            lists := lists - {namespace};
          } else {
            lists := lists[namespace := left];
          }
          rules := rules - {(namespace, name)};
          RemoveRepresents(items, namespace, old(rules), index, left);
          forall ns ensures Represents(ListOf(lists, ns), ns, rules) {
            if ns != namespace { OtherNamespace(ListOf(old(lists), ns), ns, old(rules), rules); }
          }
          return;
        }
      }
      assert (namespace, name) !in rules;
      assert rules - {(namespace, name)} == rules;
    }

    /** One Put or Delete. */
    method Perform(op: Op)
      requires Valid()
      modifies this
      ensures Valid() && rules == Apply(compile, old(rules), op)
    {
      match op
      case PutOp(rule) => var _ := Put(rule);
      case DeleteOp(namespace, name) => Delete(namespace, name);
    }

    /** Any run of operations ends in the map the operations describe. */
    method PerformAll(ops: seq<Op>)
      requires Valid()
      modifies this
      ensures Valid() && rules == ApplyAll(compile, old(rules), ops)
      ensures ops == [] ==> lists == old(lists)
    {
      for i := 0 to |ops|
        invariant Valid() && rules == ApplyAll(compile, old(rules), ops[..i])
        invariant i == 0 ==> lists == old(lists)
      {
        assert ops[..i + 1][..i] == ops[..i];
        Perform(ops[i]);
      }
      assert ops[..|ops|] == ops;
    }

    /** getMatchingModRuleStoreItems: one pass over the cluster-wide and the namespace list that
        restarts its collection at every lower tier. */
    method GetMatching(operation: string, namespace: string, minTier: Tier, ruleType: string, jsonv: Json)
      returns (modRules: seq<Item>, tier: Tier)
      ensures var applicable := Applicable(lists, clusterNamespace, operation, namespace);
              tier == NextTier(applicable, minTier) &&
              modRules == MatchingAt(applicable, tier, ruleType, jsonv)
    {
      var scan := Scan(MAX_TIER, []);
      ghost var cluster: seq<Item> := [];
      var items := ListOf(lists, clusterNamespace);
      for i := 0 to |items|
        invariant cluster == Select(items[..i], InClusterScope(operation, namespace))
        invariant Scanned(scan, Select(cluster, FromTier(minTier)))
      {
        assert items[..i + 1] == items[..i] + [items[i]];
        SelectSnoc(items[..i], items[i], InClusterScope(operation, namespace));
        var applies := match items[i].compiled.targetNamespace
          case None => namespace == ""
          case Some(regex) => regex(namespace);
        scan := Consider(scan, items[i], operation, applies, minTier, cluster);
        cluster := cluster + if operation in items[i].rule.operations && applies then [items[i]] else [];
      }
      assert items[..|items|] == items;
      ghost var own: seq<Item> := [];
      assert cluster + own == cluster;
      if namespace != "" {
        items := ListOf(lists, namespace);
        for i := 0 to |items|
          invariant own == Select(items[..i], InOperation(operation))
          invariant Scanned(scan, Select(cluster + own, FromTier(minTier)))
        {
          assert items[..i + 1] == items[..i] + [items[i]];
          SelectSnoc(items[..i], items[i], InOperation(operation));
          scan := Consider(scan, items[i], operation, true, minTier, cluster + own);
          ghost var more := if operation in items[i].rule.operations then [items[i]] else [];
          assert cluster + own + more == cluster + (own + more);
          own := own + more;
        }
        assert items[..|items|] == items;
      }
      assert cluster + own == Applicable(lists, clusterNamespace, operation, namespace);
      tier := scan.tier;
      NextTierAbove(cluster + own, minTier);
      SelectFromThenAt(cluster + own, minTier, tier);
      modRules := MatchAll(scan.potential, ruleType, jsonv);
    }
  }

  // ---- The scan ----

  datatype Scan = Scan(tier: Tier, potential: seq<Item>)

  ghost predicate Scanned(scan: Scan, seen: seq<Item>) {
    scan.tier == LowestTier(seen) && scan.potential == Select(seen, AtTier(scan.tier))
  }

  /** One rule of a list: only rules in scope and from the minimum tier on are processed. */
  method Consider(scan: Scan, item: Item, operation: string, inScope: bool, minTier: Tier, ghost seen: seq<Item>)
    returns (next: Scan)
    requires Scanned(scan, Select(seen, FromTier(minTier)))
    ensures var more := if operation in item.rule.operations && inScope then [item] else [];
            Scanned(next, Select(seen + more, FromTier(minTier)))
  {
    next := scan;
    SelectSnoc(seen, item, FromTier(minTier));
    assert seen + [] == seen && Select(seen, FromTier(minTier)) + [] == Select(seen, FromTier(minTier));
    if item.rule.tier >= minTier && inScope {
      next := Process(scan, item, operation, Select(seen, FromTier(minTier)));
    }
  }

  /** processPotentialRule: discard, restart or collect. */
  method Process(scan: Scan, item: Item, operation: string, ghost seen: seq<Item>) returns (next: Scan)
    requires Scanned(scan, seen)
    ensures operation in item.rule.operations ==> Scanned(next, seen + [item])
    ensures operation !in item.rule.operations ==> next == scan
  {
    next := scan;
    var matched := false;
    for i := 0 to |item.rule.operations|
      invariant !matched && operation !in item.rule.operations[..i]
    {
      if operation == item.rule.operations[i] {
        matched := true;
        break;
      }
    }
    if !matched { return; }
    LowestSnoc(seen, item);
    if item.rule.tier < next.tier {
      next := Scan(item.rule.tier, []);
      LowestTierIsLeast(seen);
      NoneAtTier(seen, item.rule.tier);
    }
    SelectSnoc(seen, item, AtTier(next.tier));
    if item.rule.tier == next.tier {
      next := Scan(next.tier, next.potential + [item]);
    }
  }

  lemma {:induction false} LowestSnoc(seen: seq<Item>, item: Item)
    ensures LowestTier(seen + [item]) == if item.rule.tier < LowestTier(seen) then item.rule.tier else LowestTier(seen)
  {
    if seen == [] {
      assert [] + [item] == [item] && [item][1..] == [];
    } else {
      assert (seen + [item])[1..] == seen[1..] + [item];
      LowestSnoc(seen[1..], item);
    }
  }

  lemma {:induction false} NoneAtTier(items: seq<Item>, tier: Tier)
    requires forall i | 0 <= i < |items| :: tier < items[i].rule.tier
    ensures Select(items, AtTier(tier)) == []
  {
    if items != [] { NoneAtTier(items[1..], tier); }
  }

  /** The final loop: rules of the asked type whose criteria match. */
  method MatchAll(items: seq<Item>, ruleType: string, jsonv: Json) returns (r: seq<Item>)
    ensures r == Select(items, MatchesOf(ruleType, jsonv))
  {
    r := [];
    for i := 0 to |items|
      invariant r == Select(items[..i], MatchesOf(ruleType, jsonv))
    {
      assert items[..i + 1] == items[..i] + [items[i]];
      SelectSnoc(items[..i], items[i], MatchesOf(ruleType, jsonv));
      if items[i].rule.ruleType == ruleType {
        var matched := IsMatch(items[i].compiled.criteria, jsonv);
        if matched { r := r + [items[i]]; }
      }
    }
    assert items[..|items|] == items;
  }

  // ---- Updates of one list ----

  lemma UpsertRepresents(items: seq<Item>, namespace: string, rules: map<RuleKey, Item>, item: Item,
                         index: int, updated: seq<Item>)
    requires Represents(items, namespace, rules) && item.rule.namespace == namespace && -1 <= index < |items|
    requires index >= 0 ==> items[index].rule.name == item.rule.name && updated == items[index := item]
    requires index == -1 ==> (forall i | 0 <= i < |items| :: items[i].rule.name != item.rule.name)
                             && updated == items + [item]
    ensures Represents(updated, namespace, rules[(namespace, item.rule.name) := item])
  {
    var rules' := rules[(namespace, item.rule.name) := item];
    forall name | (namespace, name) in rules' ensures HoldsItem(updated, name, rules'[(namespace, name)]) {
      if name == item.rule.name {
        assert updated[if index >= 0 then index else |items|] == item;
      } else {
        assert HoldsItem(items, name, rules[(namespace, name)]);
        var i :| 0 <= i < |items| && items[i] == rules[(namespace, name)];
        assert updated[i] == items[i];
      }
    }
  }

  lemma RemoveRepresents(items: seq<Item>, namespace: string, rules: map<RuleKey, Item>, index: nat, left: seq<Item>)
    requires Represents(items, namespace, rules) && index < |items|
    requires left == items[index := items[|items| - 1]][..|items| - 1]
    ensures Represents(left, namespace, rules - {(namespace, items[index].rule.name)})
  {
    var rules' := rules - {(namespace, items[index].rule.name)};
    forall name | (namespace, name) in rules' ensures HoldsItem(left, name, rules'[(namespace, name)]) {
      assert HoldsItem(items, name, rules[(namespace, name)]);
      var i :| 0 <= i < |items| && items[i] == rules[(namespace, name)];
      assert left[if i == |items| - 1 then index else i] == items[i];
    }
  }

  lemma OtherNamespace(items: seq<Item>, namespace: string, rules: map<RuleKey, Item>, rules': map<RuleKey, Item>)
    requires Represents(items, namespace, rules)
    requires forall name :: (namespace, name) in rules <==> (namespace, name) in rules'
    requires forall name | (namespace, name) in rules :: rules[(namespace, name)] == rules'[(namespace, name)]
    ensures Represents(items, namespace, rules')
  {}
}
