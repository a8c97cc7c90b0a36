/** What the selectors of jsonpath/selector.go report, in terms of the document and of the arguments
    as written. */
module SelectorLaws {
  import opened Sequences
  import opened Values
  import opened Decimals
  import opened Documents
  import opened Selectors
  import opened Ranges
  import opened Descent
  import opened Paths
  import opened Exactness
  import opened Soundness
  import opened Syntax

  // ---- Stars and unions ----

  /** `*` and `[*]` report every element under its index and every member under its key, in order. */
  lemma StarReports(sel: BranchSelector, root: Json, v: Json)
    requires sel == Star || sel == Multi([])
    ensures v.Array? ==> |Calls(sel, root, v)| == |v.elems|
                         && forall i | 0 <= i < |v.elems| ::
                              Calls(sel, root, v)[i] == Call(One(Itoa(i)), v.elems[i])
    ensures v.Object? ==> |Calls(sel, root, v)| == |v.members|
                          && forall i | 0 <= i < |v.members| ::
                               Calls(sel, root, v)[i] == Call(One(v.members[i].key), v.members[i].value)
    ensures !v.Array? && !v.Object? ==> Calls(sel, root, v) == []
  {}

  predicate Ascending(r: seq<nat>) { forall j, k | 0 <= j < k < |r| :: r[j] < r[k] }

  predicate Descending(r: seq<nat>) { forall j, k | 0 <= j < k < |r| :: r[j] > r[k] }

  predicate SelectsDefined(key: Expr, root: Json, v: Json) {
    var r := SelectValue(key, root, v);
    r.Ok? && !r.value.value.Undefined?
  }

  /** The call for a key that selects something defined: its value, under the key it reports. */
  predicate CallsFor(key: Expr, root: Json, v: Json, call: Call) {
    SelectsDefined(key, root, v) &&
    var s := SelectValue(key, root, v).value;
    call.key == One(s.jkey) && call.value == s.value
  }

  lemma {:induction false} MultiCallsAppend(a: seq<Expr>, b: seq<Expr>, root: Json, v: Json)
    ensures MultiCalls(a + b, root, v) == MultiCalls(a, root, v) + MultiCalls(b, root, v)
  {
    if a == [] {
      assert a + b == b;
    } else {
      assert (a + b)[0] == a[0] && (a + b)[1..] == a[1..] + b;
      MultiCallsAppend(a[1..], b, root, v);
      Associate(MultiCall(a[0], root, v), MultiCalls(a[1..], root, v), MultiCalls(b, root, v));
    }
  }

  lemma MultiCallsOne(key: Expr, root: Json, v: Json)
    ensures MultiCalls([key], root, v) == MultiCall(key, root, v)
    ensures |MultiCall(key, root, v)| == if SelectsDefined(key, root, v) then 1 else 0
    ensures SelectsDefined(key, root, v) ==> CallsFor(key, root, v, MultiCall(key, root, v)[0])
  {
    assert [key][1..] == [];
    assert MultiCall(key, root, v) + [] == MultiCall(key, root, v);
  }

  /** These are the calls of the keys at these places. */
  ghost predicate CallsOf(keys: seq<Expr>, which: seq<nat>, root: Json, v: Json, calls: seq<Call>) {
    |calls| == |which| &&
    forall j | 0 <= j < |which| :: which[j] < |keys| && CallsFor(keys[which[j]], root, v, calls[j])
  }

  lemma CallsOfMore(keys: seq<Expr>, which: seq<nat>, root: Json, v: Json, calls: seq<Call>, key: Expr)
    requires CallsOf(keys, which, root, v, calls)
    ensures CallsOf(keys + [key], which, root, v, calls)
  {
    forall j | 0 <= j < |which| ensures CallsFor((keys + [key])[which[j]], root, v, calls[j]) {
      assert (keys + [key])[which[j]] == keys[which[j]];
    }
  }

  /** These are the places of the keys that select something defined, and the calls are theirs. */
  ghost predicate Reports(keys: seq<Expr>, which: seq<nat>, root: Json, v: Json, calls: seq<Call>) {
    Ascending(which) && CallsOf(keys, which, root, v, calls) &&
    forall k :: k in which <==> 0 <= k < |keys| && SelectsDefined(keys[k], root, v)
  }

  lemma PassesOver(keys: seq<Expr>, which: seq<nat>, root: Json, v: Json, calls: seq<Call>, key: Expr)
    requires Reports(keys, which, root, v, calls) && !SelectsDefined(key, root, v)
    ensures Reports(keys + [key], which, root, v, calls)
  {
    var all := keys + [key];
    CallsOfMore(keys, which, root, v, calls, key);
    forall k ensures k in which <==> 0 <= k < |all| && SelectsDefined(all[k], root, v) {
      if 0 <= k < |keys| { assert all[k] == keys[k]; }
    }
  }

  lemma ReportsMore(keys: seq<Expr>, which: seq<nat>, root: Json, v: Json, calls: seq<Call>, key: Expr, call: Call)
    requires Reports(keys, which, root, v, calls) && CallsFor(key, root, v, call)
    ensures Reports(keys + [key], which + [|keys|], root, v, calls + [call])
  {
    var all, next := keys + [key], which + [|keys|];
    CallsOfMore(keys, which, root, v, calls, key);
    forall k ensures k in next <==> 0 <= k < |all| && SelectsDefined(all[k], root, v) {
      if 0 <= k < |keys| { assert all[k] == keys[k]; }
      assert k in next <==> k in which || k == |keys|;
    }
    CallsOfOneMore(all, which, root, v, calls, |keys|, call);
    assert forall j | 0 <= j < |which| :: which[j] in which;
  }

  lemma CallsOfOneMore(keys: seq<Expr>, which: seq<nat>, root: Json, v: Json, calls: seq<Call>, k: nat, call: Call)
    requires CallsOf(keys, which, root, v, calls) && k < |keys| && CallsFor(keys[k], root, v, call)
    ensures CallsOf(keys, which + [k], root, v, calls + [call])
  {}

  lemma {:induction false} UnionReports(keys: seq<Expr>, root: Json, v: Json) returns (which: seq<nat>)
    ensures Reports(keys, which, root, v, MultiCalls(keys, root, v))
    decreases |keys|
  {
    which := [];
    if keys != [] {
      var init, last := keys[..|keys| - 1], keys[|keys| - 1];
      SplitLast(keys);
      which := UnionReports(init, root, v);
      MultiCallsAppend(init, [last], root, v);
      MultiCallsOne(last, root, v);
      var calls, here := MultiCalls(init, root, v), MultiCall(last, root, v);
      if SelectsDefined(last, root, v) {
        ReportsMore(init, which, root, v, calls, last, here[0]);
        assert here == [here[0]];
        which := which + [|init|];
      } else {
        PassesOver(init, which, root, v, calls, last);
        assert calls + here == calls;
      }
    }
  }

  /** A union reports what its keys select, in key order: the keys that fail or select Undefined are
      passed over, and no other. */
  lemma UnionCalls(keys: seq<Expr>, root: Json, v: Json) returns (which: seq<nat>)
    requires keys != []
    ensures Ascending(which)
    ensures forall k :: k in which <==> 0 <= k < |keys| && SelectsDefined(keys[k], root, v)
    ensures CallsOf(keys, which, root, v, Calls(Multi(keys), root, v))
  {
    which := UnionReports(keys, root, v);
  }

  // ---- Ranges ----

  /** The index belongs to the slice [a:b) of n elements; a negative bound counts from the end. */
  predicate InSlice(i: int, n: nat, a: int, b: int) {
    0 <= i < n && (if a < 0 then a <= i - n else a <= i) && (if b < 0 then i - n < b else i < b)
  }

  /** How many indices of the slice lie in [from, end). */
  function Between(from: int, end: int, n: nat, a: int, b: int): nat
    decreases end - from
  {
    if from >= end then 0 else Between(from, end - 1, n, a, b) + if InSlice(end - 1, n, a, b) then 1 else 0
  }

  lemma ClampedSlice(i: int, n: nat, a: int, b: int)
    ensures InSlice(i, n, a, b) <==> NegMax(a, n) <= i < NegMax(b, n)
  {}

  lemma {:induction false} BetweenClamped(from: int, end: int, n: nat, a: int, b: int)
    requires NegMax(a, n) <= from && end <= NegMax(b, n)
    ensures Between(from, end, n, a, b) == if from < end then end - from else 0
    decreases end - from
  {
    if from < end {
      BetweenClamped(from, end - 1, n, a, b);
      ClampedSlice(end - 1, n, a, b);
    }
  }

  lemma {:induction false} BetweenOutside(from: int, end: int, n: nat, a: int, b: int)
    requires end <= NegMax(a, n) || NegMax(b, n) <= from
    ensures Between(from, end, n, a, b) == 0
    decreases end - from
  {
    if from < end {
      BetweenOutside(from, end - 1, n, a, b);
      ClampedSlice(end - 1, n, a, b);
    }
  }

  lemma {:induction false} BetweenSplit(from: int, mid: int, end: int, n: nat, a: int, b: int)
    requires from <= mid <= end
    ensures Between(from, end, n, a, b) == Between(from, mid, n, a, b) + Between(mid, end, n, a, b)
    decreases end - mid
  {
    if mid < end { BetweenSplit(from, mid, end - 1, n, a, b); }
  }

  /** How many indices of the slice the loop passes before it comes to this one. */
  function Passed(i: int, n: nat, a: int, b: int, s: int): nat {
    if s < 0 then Between(i + 1, n, n, a, b) else Between(0, i, n, a, b)
  }

  lemma PassedClamped(i: int, n: nat, a: int, b: int, s: int)
    requires InSlice(i, n, a, b)
    ensures Passed(i, n, a, b, s) == if s < 0 then NegMax(b, n) - 1 - i else i - NegMax(a, n)
  {
    var lo, hi := NegMax(a, n), NegMax(b, n);
    ClampedSlice(i, n, a, b);
    if s < 0 {
      BetweenSplit(i + 1, hi, n, n, a, b);
      BetweenClamped(i + 1, hi, n, a, b);
      BetweenOutside(hi, n, n, a, b);
    } else {
      BetweenSplit(0, lo, i, n, a, b);
      BetweenOutside(0, lo, n, a, b);
      BetweenClamped(lo, i, n, a, b);
    }
  }

  /** An index is visited if it lies in the slice and its turn comes. */
  lemma VisitedIff(i: nat, n: nat, a: int, b: int, s: int)
    ensures i in RangeIndices(NegMax(a, n), NegMax(b, n), s) <==>
              InSlice(i, n, a, b) && (-1 <= s <= 1 || Passed(i, n, a, b, s) % (if s < 0 then -s else s) == 0)
  {
    RangeMembers(NegMax(a, n), NegMax(b, n), s, i);
    ClampedSlice(i, n, a, b);
    if InSlice(i, n, a, b) { PassedClamped(i, n, a, b, s); }
  }

  lemma VisitOrder(lo: nat, hi: nat, s: int)
    ensures if s < 0 then Descending(RangeIndices(lo, hi, s)) else Ascending(RangeIndices(lo, hi, s))
  {
    var r := RangeIndices(lo, hi, s);
    forall j, k | 0 <= j < k < |r| ensures if s < 0 then r[k] < r[j] else r[j] < r[k] {
      RangeDirection(lo, hi, s, j, k);
    }
  }

  /** What a range reports of an array, from its three parts as they evaluate: nothing if min exceeds
      max; otherwise, of the slice's indices, every |step|-th one from the end the loop starts at, the
      first included; steps 0 and 1 take all of them, upwards, and step -1 all of them, downwards. */
  lemma RangeReports(min: Expr, max: Expr, step: Expr, root: Json, elems: seq<Json>, a: int, b: int, s: int)
    returns (r: seq<nat>)
    requires min.evalInt(Array(elems), root) == Ok(a) && max.evalInt(Array(elems), root) == Ok(b)
    requires step.evalInt(Array(elems), root) == Ok(s)
    ensures var calls := Calls(Range(min, max, step), root, Array(elems));
            |calls| == |r|
            && forall k | 0 <= k < |r| :: r[k] < |elems| && calls[k] == Call(One(Itoa(r[k])), elems[r[k]])
    ensures if s < 0 then Descending(r) else Ascending(r)
    ensures a > b ==> r == []
    ensures a <= b ==> forall i: nat ::
              i in r <==> InSlice(i, |elems|, a, b)
                          && (-1 <= s <= 1 || Passed(i, |elems|, a, b, s) % (if s < 0 then -s else s) == 0)
  {
    r := [];
    if a <= b {
      var n := |elems|;
      r := RangeIndices(NegMax(a, n), NegMax(b, n), s);
      VisitOrder(NegMax(a, n), NegMax(b, n), s);
      forall i: nat
        ensures i in r <==> InSlice(i, n, a, b)
                            && (-1 <= s <= 1 || Passed(i, n, a, b, s) % (if s < 0 then -s else s) == 0)
      {
        VisitedIff(i, n, a, b, s);
      }
    }
  }

  /** A value that is no array, or a part that does not evaluate: nothing is reported. */
  lemma RangeSilent(min: Expr, max: Expr, step: Expr, root: Json, v: Json)
    requires v.Array? ==> min.evalInt(v, root).Err? || max.evalInt(v, root).Err? || step.evalInt(v, root).Err?
    ensures Calls(Range(min, max, step), root, v) == []
  {}

  lemma OpenMeans(min: Expr, max: Expr)
    ensures Denote(Bracketed(RangeBody(Slice(Some(min), None, NoColon))))
         == [Branch(Range(min, ConstInt(2147483647), ConstInt(1)))]
    ensures Denote(Bracketed(RangeBody(Slice(None, Some(max), NoColon))))
         == [Branch(Range(ConstInt(0), max, ConstInt(1)))]
  {}

  /** `[a:]` as it is written: on arrays of at most 2147483647 elements it reports exactly the
      elements from a on, or the last -a ones. */
  lemma OpenRange(min: Expr, root: Json, elems: seq<Json>, a: int) returns (r: seq<nat>)
    requires min.evalInt(Array(elems), root) == Ok(a) && a <= 2147483647 && |elems| <= 2147483647
    ensures var path := Denote(Bracketed(RangeBody(Slice(Some(min), None, NoColon))));
            |path| == 1 && path[0].Branch?
            && var calls := Calls(path[0].sel, root, Array(elems));
               |calls| == |r|
               && forall k | 0 <= k < |r| :: r[k] < |elems| && calls[k] == Call(One(Itoa(r[k])), elems[r[k]])
    ensures Ascending(r)
            && forall i: nat :: i in r <==> i < |elems| && if a < 0 then |elems| + a <= i else a <= i
  {
    OpenMeans(min, min);
    r := RangeReports(min, ConstInt(2147483647), ConstInt(1), root, elems, a, 2147483647, 1);
    forall i: nat
      ensures InSlice(i, |elems|, a, 2147483647) <==> i < |elems| && if a < 0 then |elems| + a <= i else a <= i
    {}
  }

  /** `[:b]` with a negative b reports nothing at all: the omitted min is 0, which exceeds it. */
  lemma NegativeEnd(max: Expr, root: Json, v: Json, b: int)
    requires max.evalInt(v, root) == Ok(b) && b < 0
    ensures var path := Denote(Bracketed(RangeBody(Slice(None, Some(max), NoColon))));
            |path| == 1 && path[0].Branch? && Calls(path[0].sel, root, v) == []
  {
    OpenMeans(max, max);
    if v.Array? {
      var r := RangeReports(ConstInt(0), max, ConstInt(1), root, v.elems, 0, b, 1);
    }
  }

  // ---- Plain paths ----

  /** The name names a member or an element. */
  predicate Steps(v: Json, name: string) { Find(Children(v), name).Some? }

  /** An object without that member, or null: selecting gives Undefined, not an error. */
  predicate Lacks(v: Json, name: string) { v.Null? || v.Undefined? || (v.Object? && !Steps(v, name)) }

  /** The first names lead to a value that lacks the next one. */
  predicate Misses(v: Json, names: seq<string>) {
    exists k | 0 <= k < |names| :: MissesAt(v, names, k)
  }

  predicate MissesAt(v: Json, names: seq<string>, k: nat)
    requires k < |names|
  {
    var w := At(v, names[..k]);
    w.Some? && Lacks(w.value, names[k])
  }

  lemma {:induction false} UndefinedStays(names: seq<string>, current: Json, root: Json)
    ensures EvaluatePath(Directs(names), current, root, Undefined) == Ok(Undefined)
  {
    if names != [] {
      assert Directs(names)[1..] == Directs(names[1..]);
      UndefinedStays(names[1..], current, root);
    }
  }

  lemma MissesFurther(v: Json, names: seq<string>, kid: Json)
    requires names != [] && Find(Children(v), names[0]) == Some(kid) && !Lacks(v, names[0])
    ensures Misses(v, names) <==> Misses(kid, names[1..])
    ensures At(v, names) == At(kid, names[1..])
  {
    assert At(v, []) == Some(v);
    forall k | 0 <= k < |names[1..]| ensures MissesAt(v, names, k + 1) <==> MissesAt(kid, names[1..], k) {
      assert names[..k + 1][0] == names[0] && names[..k + 1][1..] == names[1..][..k];
      assert names[1..][k] == names[k + 1];
    }
    assert names[..0] == [];
    assert !MissesAt(v, names, 0);
    if k :| 0 <= k < |names| && MissesAt(v, names, k) { assert MissesAt(kid, names[1..], k - 1); }
    if k :| 0 <= k < |names[1..]| && MissesAt(kid, names[1..], k) { assert MissesAt(v, names, k + 1); }
  }

  lemma EvaluateName(names: seq<string>, current: Json, root: Json, v: Json)
    requires names != []
    ensures var r := SelectValue(ConstKey(names[0]), root, v);
            EvaluatePath(Directs(names), current, root, v)
            == if r.Ok? then EvaluatePath(Directs(names[1..]), current, root, r.value.value) else Err
  {
    assert Directs(names)[1..] == Directs(names[1..]);
  }

  lemma FirstFails(names: seq<string>, v: Json)
    requires names != [] && Find(Children(v), names[0]).None?
    ensures At(v, names) == None && (Misses(v, names) <==> Lacks(v, names[0]))
  {
    assert names[..0] == [] && At(v, []) == Some(v);
    forall k | 1 <= k < |names| ensures !MissesAt(v, names, k) {
      assert names[..k][0] == names[0];
    }
    assert MissesAt(v, names, 0) <==> Lacks(v, names[0]);
  }

  lemma FailsToSelect(name: string, root: Json, v: Json)
    requires IsGoValue(v) && !ReadsOdd(name) && Find(Children(v), name).None?
    ensures SelectValue(ConstKey(name), root, v) == if Lacks(v, name) then Ok(Selected(Undefined, name)) else Err
  {
    if v.Array? { FindElement(v, name); }
  }

  /** Names, one after the other, on a document: the value they lead to; Undefined, from the first
      object that lacks a name or the first null on; or an error, at a scalar or an array without
      that element. */
  lemma {:induction false} PlainPathOutcome(names: seq<string>, current: Json, root: Json, v: Json)
    requires IsDocument(v) && forall i | 0 <= i < |names| :: !ReadsOdd(names[i])
    ensures EvaluatePath(Directs(names), current, root, v)
         == if At(v, names).Some? then Ok(At(v, names).value) else if Misses(v, names) then Ok(Undefined) else Err
    decreases |names|
  {
    if names != [] {
      TreeIsGoValue(v, true);
      EvaluateName(names, current, root, v);
      match Find(Children(v), names[0])
      case Some(kid) =>
        var i :| 0 <= i < |Children(v)| && Children(v)[i] == Member(names[0], kid);
        assert IsTree(Children(v)[i].value, true);
        AtOneKey(v, names[0]);
        NameSelects(names[0], root, v, kid);
        MissesFurther(v, names, kid);
        PlainPathOutcome(names[1..], current, root, kid);
      case None =>
        FirstFails(names, v);
        FailsToSelect(names[0], root, v);
        UndefinedStays(names[1..], current, root);
    }
  }

  /** `@` starts over from the current element: of what comes before it only an error counts. */
  lemma CurrentStartsOver(before: seq<PlainSelector>, after: seq<PlainSelector>, current: Json, root: Json, v: Json)
    ensures EvaluatePath(before + [CurrentElement] + after, current, root, v)
         == if EvaluatePath(before, current, root, v).Ok? then EvaluatePath(after, current, root, current) else Err
  {
    assert before + [CurrentElement] + after == before + ([CurrentElement] + after);
    EvaluateAppend(before, [CurrentElement] + after, current, root, v);
    assert ([CurrentElement] + after)[1..] == after;
  }

  /** A script sees the value it is applied to as the current element, and the root; a filter sees each
      child in that place, and a key the value it is looked up in. */
  lemma WhatExpressionsSee(script: Expr, key: Expr, current: Json, root: Json, v: Json, i: int)
    ensures EvaluatePath([Script(script)], current, root, v) == script.eval(v, root)
    ensures v.Array? && key.evalInt(v, root) == Ok(i) && 0 <= i < |v.elems| ==>
              EvaluatePath([Direct(key)], current, root, v) == Ok(v.elems[i])
    ensures v.Object? && key.evalString(v, root).Err? ==> EvaluatePath([Direct(key)], current, root, v) == Err
  {
    assert [Script(script)][1..] == [] && [Direct(key)][1..] == [];
  }
}
