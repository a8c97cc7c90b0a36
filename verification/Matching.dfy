/** The match criteria of a rule (IsMatch, isMatch and isStringMatch in
    core/modrulestoreitem.go). */
module Matching {
  import opened Values

  /** A criteria item. The compiled select, the compiled regular expression and the %v form of
      values that are not strings are opaque. */
  datatype MatchItem = MatchItem(
    select: Json -> Result<Json>,
    matchFor: string,
    matchValue: Option<string>,
    matchValues: seq<string>,
    matchRegex: Option<string -> bool>,
    negate: bool,
    show: Json -> string)

  const ANY := "Any"
  const ALL := "All"

  predicate IsAny(item: MatchItem) { item.matchFor == ANY || item.matchFor == "" }

  /** What a value must satisfy: the first requirement present decides alone. */
  predicate Accepts(item: MatchItem, s: string) {
    if item.matchValue.Some? then s == item.matchValue.value
    else if item.matchValues != [] then s in item.matchValues
    else item.matchRegex.Some? ==> item.matchRegex.value(s)
  }

  function Text(item: MatchItem, v: Json): string {
    match v
    case String(s) => s
    case _ => item.show(v)
  }

  function Defined(vs: seq<Json>): (ds: seq<Json>)
    ensures |ds| <= |vs|
    ensures |ds| == |vs| <==> forall i | 0 <= i < |vs| :: !vs[i].Undefined?
    ensures forall v :: v in ds <==> v in vs && !v.Undefined?
  {
    if vs == [] then [] else (if vs[0].Undefined? then [] else [vs[0]]) + Defined(vs[1..])
  }

  /** Any: some value is accepted. Otherwise: all of them are. */
  predicate Holds(item: MatchItem, vs: seq<Json>) {
    if IsAny(item) then exists i | 0 <= i < |vs| :: Accepts(item, Text(item, vs[i]))
    else forall i | 0 <= i < |vs| :: Accepts(item, Text(item, vs[i]))
  }

  /** The meaning of a criteria item for a select result, before negation. */
  predicate Positive(item: MatchItem, r: Result<Json>) {
    match r
    case Err => false
    case Ok(Null) => false
    case Ok(Undefined) => false
    case Ok(Bool(b)) => b
    case Ok(Array(vs)) =>
      Defined(vs) != [] && (item.matchFor == ALL ==> Defined(vs) == vs) && Holds(item, Defined(vs))
    case Ok(v) => Accepts(item, Text(item, v))
  }

  predicate ItemMatches(item: MatchItem, jsonv: Json) {
    Positive(item, item.select(jsonv)) != item.negate
  }

  predicate AllMatch(items: seq<MatchItem>, jsonv: Json) {
    forall i | 0 <= i < |items| :: ItemMatches(items[i], jsonv)
  }

  /** isStringMatch, with its loop over matchValues. */
  method IsStringMatch(item: MatchItem, s: string) returns (b: bool)
    ensures b == Accepts(item, s)
  {
    if item.matchValue.Some? { return s == item.matchValue.value; }
    if item.matchValues != [] {
      for i := 0 to |item.matchValues|
        invariant s !in item.matchValues[..i]
      {
        if s == item.matchValues[i] { return true; }
      }
      return false;
    }
    if item.matchRegex.Some? { return item.matchRegex.value(s); }
    return true;
  }

  /** The loop that filters out Undefined values. */
  method FilterUndefined(vs: seq<Json>) returns (ds: seq<Json>)
    ensures ds == Defined(vs)
  {
    ds := [];
    for i := 0 to |vs|
      invariant ds == Defined(vs[..i])
    {
      DefinedPrefix(vs, i);
      if !vs[i].Undefined? { ds := ds + [vs[i]]; }
    }
    assert vs[..|vs|] == vs;
  }

  lemma {:induction false} DefinedSnoc(vs: seq<Json>, v: Json)
    ensures Defined(vs + [v]) == Defined(vs) + if v.Undefined? then [] else [v]
  {
    if vs == [] {
      assert [v][1..] == [];
    } else {
      assert (vs + [v])[1..] == vs[1..] + [v];
      DefinedSnoc(vs[1..], v);
    }
  }

  lemma DefinedPrefix(vs: seq<Json>, i: nat)
    requires i < |vs|
    ensures Defined(vs[..i + 1]) == if vs[i].Undefined? then Defined(vs[..i]) else Defined(vs[..i]) + [vs[i]]
  {
    var before := Defined(vs[..i]);
    assert vs[..i + 1] == vs[..i] + [vs[i]];
    DefinedSnoc(vs[..i], vs[i]);
    assert before + [] == before;
  }

  lemma {:induction false} FullyDefined(vs: seq<Json>)
    ensures |Defined(vs)| == |vs| <==> Defined(vs) == vs
  {
    if vs != [] && |Defined(vs)| == |vs| {
      assert !vs[0].Undefined?;
      FullyDefined(vs[1..]);
      assert vs == [vs[0]] + vs[1..];
    }
  }

  /** The circuit breaker: starts from the value for "undecided" and stops at the first value
      that decides. */
  method BreakerLoop(item: MatchItem, vs: seq<Json>) returns (ret: bool)
    ensures ret == (Holds(item, vs) != item.negate)
  {
    ret := if IsAny(item) then item.negate else !item.negate;
    for i := 0 to |vs|
      invariant ret == if IsAny(item) then item.negate else !item.negate
      invariant forall j | 0 <= j < i :: Accepts(item, Text(item, vs[j])) == !IsAny(item)
    {
      var accepted := IsStringMatch(item, Text(item, vs[i]));
      if IsAny(item) {
        if accepted { return !item.negate; }
      } else {
        if !accepted { return item.negate; }
      }
    }
  }

  /** isMatch: the early exits and the breaker loop decide exactly the quantified meaning, and
      negate flips it in every case. */
  method IsMatchItem(item: MatchItem, jsonv: Json) returns (b: bool)
    ensures b == ItemMatches(item, jsonv)
  {
    var result := item.select(jsonv);
    if result.Err? { return item.negate; }
    var values: seq<Json>, containedUndefined := [], false;
    match result.value {
      case Null => return item.negate;
      case Undefined => return item.negate;
      case Bool(vresult) => return vresult != item.negate;
      case Array(vresult) =>
        values := FilterUndefined(vresult);
        containedUndefined := |values| != |vresult|;
        FullyDefined(vresult);
      case v => values := [v];
    }
    if |values| == 0 { return item.negate; }
    if item.matchFor == ALL && containedUndefined { return item.negate; }
    b := BreakerLoop(item, values);
    assert !result.value.Array? ==> values[0] == result.value;
  }

  /** IsMatch: every criteria item must match. */
  method IsMatch(items: seq<MatchItem>, jsonv: Json) returns (b: bool)
    ensures b == AllMatch(items, jsonv)
  {
    for i := 0 to |items|
      invariant forall j | 0 <= j < i :: ItemMatches(items[j], jsonv)
    {
      var matched := IsMatchItem(items[i], jsonv);
      if !matched { return false; }
    }
    return true;
  }

  // ---- Laws ----

  /** Setting negate flips the outcome, whatever the select gives. */
  lemma NegateFlips(item: MatchItem, jsonv: Json)
    ensures ItemMatches(item.(negate := !item.negate), jsonv) <==> !ItemMatches(item, jsonv)
  {
    var r := item.select(jsonv);
    var flipped := item.(negate := !item.negate);
    if r.Ok? && r.value.Array? {
      forall i | 0 <= i < |Defined(r.value.elems)|
        ensures Accepts(flipped, Text(flipped, Defined(r.value.elems)[i]))
             == Accepts(item, Text(item, Defined(r.value.elems)[i]))
      {}
    }
  }

  /** The same item asking, for any value, that it is not accepted. */
  function Complement(item: MatchItem): MatchItem {
    item.(matchFor := ANY, matchValue := None, matchValues := [], matchRegex := Some(s => !Accepts(item, s)))
  }

  predicate RejectsSome(item: MatchItem, vs: seq<Json>) {
    exists i | 0 <= i < |vs| :: !Accepts(item, Text(item, vs[i]))
  }

  lemma ComplementRejects(item: MatchItem, vs: seq<Json>)
    ensures Holds(Complement(item), vs) <==> RejectsSome(item, vs)
  {
    var dual := Complement(item);
    forall i | 0 <= i < |vs| ensures Accepts(dual, Text(dual, vs[i])) <==> !Accepts(item, Text(item, vs[i])) {}
    if RejectsSome(item, vs) {
      var i :| 0 <= i < |vs| && !Accepts(item, Text(item, vs[i]));
      assert Accepts(dual, Text(dual, vs[i]));
    }
  }

  lemma AllRejectsNone(item: MatchItem, vs: seq<Json>)
    requires item.matchFor == ALL
    ensures Holds(item, vs) <==> !RejectsSome(item, vs)
  {}

  /** All(P) is the opposite of Any(not P) exactly on the non-empty lists without Undefined, and
      on any other list that holds a value P rejects. */
  lemma AllAnyDuality(item: MatchItem, vs: seq<Json>)
    requires item.matchFor == ALL
    ensures (Positive(item, Ok(Array(vs))) <==> !Positive(Complement(item), Ok(Array(vs))))
            <==> (vs != [] && forall i | 0 <= i < |vs| :: !vs[i].Undefined?) || RejectsSome(item, Defined(vs))
  {
    var ds := Defined(vs);
    FullyDefined(vs);
    ComplementRejects(item, ds);
    AllRejectsNone(item, ds);
    assert RejectsSome(item, ds) ==> ds != [];
    assert Positive(item, Ok(Array(vs))) <==> ds != [] && ds == vs && !RejectsSome(item, ds);
    assert Positive(Complement(item), Ok(Array(vs))) <==> ds != [] && RejectsSome(item, ds);
  }

  /** The value is there and meets the requirement on it: exactly one of a value, a list of values and
      a regular expression counts, in this order, and none accepts everything. */
  predicate Meets(item: MatchItem, v: Json) {
    !v.Undefined? &&
    var text := if v.String? then v.s else item.show(v);
    (item.matchValue.Some? ==> item.matchValue == Some(text)) &&
    (item.matchValue.None? && |item.matchValues| > 0 ==>
       exists k | 0 <= k < |item.matchValues| :: item.matchValues[k] == text) &&
    (item.matchValue.None? && |item.matchValues| == 0 && item.matchRegex.Some? ==> item.matchRegex.value(text))
  }

  /** The same by the specification. */
  predicate Passes(item: MatchItem, v: Json) { !v.Undefined? && Accepts(item, Text(item, v)) }

  lemma MeetsIsPasses(item: MatchItem, v: Json)
    ensures Meets(item, v) <==> Passes(item, v)
  {}

  predicate SomePasses(item: MatchItem, vs: seq<Json>) { exists v :: v in vs && Passes(item, v) }

  predicate AllPass(item: MatchItem, vs: seq<Json>) { forall v :: v in vs && !v.Undefined? ==> Passes(item, v) }

  /** Any and All on the values that are left are Any and All on the defined values of the list. */
  lemma HoldsForDefined(item: MatchItem, vs: seq<Json>)
    ensures Holds(item, Defined(vs)) <==> if IsAny(item) then SomePasses(item, vs) else AllPass(item, vs)
  {
    if IsAny(item) { HoldsForSome(item, vs); } else { HoldsForAll(item, vs); }
  }

  lemma HoldsForSome(item: MatchItem, vs: seq<Json>)
    requires IsAny(item)
    ensures Holds(item, Defined(vs)) <==> SomePasses(item, vs)
  {
    var ds := Defined(vs);
    if SomePasses(item, vs) {
      var v :| v in vs && Passes(item, v);
      assert v in ds;
      var j :| 0 <= j < |ds| && ds[j] == v;
      assert Accepts(item, Text(item, ds[j]));
    }
    if i :| 0 <= i < |ds| && Accepts(item, Text(item, ds[i])) {
      assert ds[i] in ds && Passes(item, ds[i]);
    }
  }

  lemma HoldsForAll(item: MatchItem, vs: seq<Json>)
    requires !IsAny(item)
    ensures Holds(item, Defined(vs)) <==> AllPass(item, vs)
  {
    var ds := Defined(vs);
    if AllPass(item, vs) {
      forall i | 0 <= i < |ds| ensures Accepts(item, Text(item, ds[i])) {
        assert ds[i] in ds && Passes(item, ds[i]);
      }
    }
    if Holds(item, ds) {
      forall v | v in vs && !v.Undefined? ensures Passes(item, v) {
        assert v in ds;
      }
    }
  }

  lemma SomeMeets(item: MatchItem, vs: seq<Json>)
    ensures SomePasses(item, vs) <==> exists i | 0 <= i < |vs| :: Meets(item, vs[i])
  {
    if SomePasses(item, vs) {
      var v :| v in vs && Passes(item, v);
      var i :| 0 <= i < |vs| && vs[i] == v;
      MeetsIsPasses(item, vs[i]);
    }
    forall i | 0 <= i < |vs| && Meets(item, vs[i]) ensures SomePasses(item, vs) {
      MeetsIsPasses(item, vs[i]);
      assert vs[i] in vs;
    }
  }

  lemma AllMeet(item: MatchItem, vs: seq<Json>)
    ensures AllPass(item, vs) <==> forall i | 0 <= i < |vs| && !vs[i].Undefined? :: Meets(item, vs[i])
  {
    if AllPass(item, vs) {
      forall i | 0 <= i < |vs| && !vs[i].Undefined? ensures Meets(item, vs[i]) {
        assert vs[i] in vs;
        MeetsIsPasses(item, vs[i]);
      }
    }
    if forall i | 0 <= i < |vs| && !vs[i].Undefined? :: Meets(item, vs[i]) {
      forall v | v in vs && !v.Undefined? ensures Passes(item, v) {
        var i :| 0 <= i < |vs| && vs[i] == v;
        MeetsIsPasses(item, vs[i]);
      }
    }
  }

  /** Lists, by the word that matchFor holds. "Any", or no word: some value of the list must meet the
      requirement. "All": the list must hold a value, none may be Undefined, and all must meet it. Any
      other word: the list must hold a defined value, and all defined ones must meet it. */
  lemma ListOutcome(item: MatchItem, jsonv: Json, vs: seq<Json>)
    requires item.select(jsonv) == Ok(Array(vs))
    ensures item.matchFor == "Any" || item.matchFor == "" ==>
              (ItemMatches(item, jsonv) != item.negate <==> exists i | 0 <= i < |vs| :: Meets(item, vs[i]))
    ensures item.matchFor == "All" ==>
              (ItemMatches(item, jsonv) != item.negate <==>
                 vs != [] && forall i | 0 <= i < |vs| :: !vs[i].Undefined? && Meets(item, vs[i]))
    ensures item.matchFor !in ["Any", "", "All"] ==>
              (ItemMatches(item, jsonv) != item.negate <==>
                 (exists i | 0 <= i < |vs| :: !vs[i].Undefined?)
                 && forall i | 0 <= i < |vs| && !vs[i].Undefined? :: Meets(item, vs[i]))
  {
    var ds := Defined(vs);
    HoldsForDefined(item, vs);
    FullyDefined(vs);
    SomeDefined(vs);
    assert ItemMatches(item, jsonv) != item.negate <==>
             ds != [] && (item.matchFor == ALL ==> ds == vs) && Holds(item, ds);
    if IsAny(item) {
      SomeMeets(item, vs);
      SomeIsThere(item, vs);
    } else {
      AllMeet(item, vs);
    }
  }

  lemma SomeIsThere(item: MatchItem, vs: seq<Json>)
    ensures SomePasses(item, vs) ==> Defined(vs) != []
  {
    if v :| v in vs && Passes(item, v) { assert v in Defined(vs); }
  }

  lemma SomeDefined(vs: seq<Json>)
    ensures Defined(vs) != [] <==> exists i | 0 <= i < |vs| :: !vs[i].Undefined?
  {
    var ds := Defined(vs);
    if ds != [] {
      assert ds[0] in ds;
      var i :| 0 <= i < |vs| && vs[i] == ds[0];
    }
    if i :| 0 <= i < |vs| && !vs[i].Undefined? { assert vs[i] in ds; }
  }

  /** Everything but lists: errors, null and Undefined do not match, a boolean is the outcome itself,
      and any other value must meet the requirement. */
  lemma SingleOutcome(item: MatchItem, jsonv: Json, v: Json)
    ensures item.select(jsonv).Err? ==> ItemMatches(item, jsonv) == item.negate
    ensures item.select(jsonv) == Ok(Null) || item.select(jsonv) == Ok(Undefined) ==>
              ItemMatches(item, jsonv) == item.negate
    ensures item.select(jsonv) == Ok(v) && v.Bool? ==> (ItemMatches(item, jsonv) != item.negate <==> v.b)
    ensures item.select(jsonv) == Ok(v) && (v.Number? || v.String? || v.Object?) ==>
              (ItemMatches(item, jsonv) != item.negate <==> Meets(item, v))
  {}

  /** Leaving matchFor out means Any, whatever the select gives. */
  lemma OmittedMeansAny(item: MatchItem, jsonv: Json)
    ensures ItemMatches(item.(matchFor := ""), jsonv) <==> ItemMatches(item.(matchFor := "Any"), jsonv)
  {
    var a, b := item.(matchFor := ""), item.(matchFor := "Any");
    match item.select(jsonv)
    case Ok(Array(vs)) =>
      ListOutcome(a, jsonv, vs);
      ListOutcome(b, jsonv, vs);
      forall i | 0 <= i < |vs| ensures Meets(a, vs[i]) <==> Meets(b, vs[i]) {}
    case Ok(v) =>
      SingleOutcome(a, jsonv, v);
      SingleOutcome(b, jsonv, v);
    case Err =>
  }
}
