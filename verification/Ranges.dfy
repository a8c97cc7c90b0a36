/** The index arithmetic of [min:max:step], and the loops that call a visitor. */
module Ranges {
  import opened Values
  import opened Decimals
  import opened Selectors

  lemma MulBound(d: int, e: int)
    requires d > 0
    ensures e >= 1 ==> d * e >= d
    ensures e <= -1 ==> d * e <= -d
  {
    if e >= 1 {
      assert d * e == d + d * (e - 1);
    } else if e <= -1 {
      assert d * e == -d + d * (e + 1);
    }
  }

  lemma DivUnique(a: int, d: int, q: int, r: int)
    requires d > 0 && a == d * q + r && 0 <= r < d
    ensures a / d == q && a % d == r
  {
    var e := a / d - q;
    assert d * (a / d) == d * q + d * e;
    MulBound(d, e);
  }

  lemma DivAtLeast(a: int, d: int, q: int)
    requires d > 0 && a >= d * q
    ensures a / d >= q
  {
    MulBound(d, q - a / d);
    assert d * (q - a / d) == d * q - d * (a / d);
  }

  /** How many indices a step of the given size visits in [lo, hi). */
  function Count(lo: int, hi: int, stride: int): (n: nat)
    requires stride > 0
  {
    if lo < hi then (hi - lo + stride - 1) / stride else 0
  }

  lemma CountStep(lo: int, hi: int, stride: int)
    requires stride > 0 && lo < hi
    ensures Count(lo, hi, stride) == 1 + Count(lo + stride, hi, stride)
  {
    var a := hi - lo + stride - 1;
    if lo + stride < hi {
      DivUnique(a - stride, stride, a / stride - 1, a % stride);
    } else {
      DivUnique(a, stride, 1, a - stride);
    }
  }

  lemma {:induction false} UpFromAt(i: nat, hi: nat, step: int)
    requires step > 0
    ensures |UpFrom(i, hi, step)| == Count(i, hi, step)
    ensures forall k | 0 <= k < |UpFrom(i, hi, step)| :: UpFrom(i, hi, step)[k] == i + k * step
    decreases hi - i
  {
    if i < hi {
      UpFromAt(i + step, hi, step);
      CountStep(i, hi, step);
      var rest := UpFrom(i + step, hi, step);
      forall k | 0 <= k < |UpFrom(i, hi, step)| ensures UpFrom(i, hi, step)[k] == i + k * step {
        if k > 0 {
          assert UpFrom(i, hi, step)[k] == rest[k - 1] == i + step + (k - 1) * step;
        }
      }
    }
  }

  lemma {:induction false} DownFromAt(i: int, lo: nat, step: int)
    requires step < 0
    ensures |DownFrom(i, lo, step)| == Count(lo, i + 1, -step)
    ensures forall k | 0 <= k < |DownFrom(i, lo, step)| :: DownFrom(i, lo, step)[k] == i - k * -step
    decreases i - lo
  {
    if i >= lo {
      DownFromAt(i + step, lo, step);
      CountStep(lo, i + 1, -step);
      var rest := DownFrom(i + step, lo, step);
      forall k | 0 <= k < |DownFrom(i, lo, step)| ensures DownFrom(i, lo, step)[k] == i - k * -step {
        if k > 0 {
          assert DownFrom(i, lo, step)[k] == rest[k - 1] == i + step - (k - 1) * -step;
        }
      }
    }
  }

  function Stride(step: int): (stride: int)
    ensures stride > 0
  {
    if step < 0 then -step else if step == 0 then 1 else step
  }

  /** The k-th visited index, going up from lo or down from hi - 1. */
  function Visit(lo: nat, hi: nat, step: int, k: nat): int {
    if step < 0 then hi - 1 - k * Stride(step) else lo + k * Stride(step)
  }

  /** The visited indices in closed form: how many, and which one comes k-th. */
  lemma RangePositions(lo: nat, hi: nat, step: int)
    ensures |RangeIndices(lo, hi, step)| == Count(lo, hi, Stride(step))
    ensures forall k | 0 <= k < |RangeIndices(lo, hi, step)| ::
              RangeIndices(lo, hi, step)[k] == Visit(lo, hi, step, k)
  {
    if step < 0 { DownFromAt(hi - 1, lo, step); } else { UpFromAt(lo, hi, Stride(step)); }
  }

  /** Offsets of a progression: the multiples of the stride below the span. */
  lemma Progression(span: int, d: int, k: nat)
    requires d > 0
    ensures (k * d) % d == 0
    ensures k * d < span ==> k < Count(0, span, d)
  {
    DivUnique(k * d, d, k, 0);
    if k * d < span {
      assert d * (k + 1) == k * d + d;
      DivAtLeast(span + d - 1, d, k + 1);
    }
  }

  lemma RangeMember(lo: nat, hi: nat, step: int, k: nat)
    requires k < |RangeIndices(lo, hi, step)|
    ensures var x := RangeIndices(lo, hi, step)[k];
            (if step < 0 then hi - 1 - x else x - lo) % Stride(step) == 0
  {
    RangePositions(lo, hi, step);
    Progression(hi - lo, Stride(step), k);
  }

  lemma RangeReaches(lo: nat, hi: nat, step: int, x: nat)
    requires lo <= x < hi && (if step < 0 then hi - 1 - x else x - lo) % Stride(step) == 0
    ensures x in RangeIndices(lo, hi, step)
  {
    var d := Stride(step);
    var offset := if step < 0 then hi - 1 - x else x - lo;
    var k := offset / d;
    assert offset == k * d;
    Progression(hi - lo, d, k);
    RangePositions(lo, hi, step);
    assert RangeIndices(lo, hi, step)[k] == x;
  }

  /** The set of visited indices: those a whole number of strides from the starting end. */
  lemma RangeMembers(lo: nat, hi: nat, step: int, x: nat)
    ensures x in RangeIndices(lo, hi, step) <==>
            lo <= x < hi && (if step < 0 then hi - 1 - x else x - lo) % Stride(step) == 0
  {
    var r := RangeIndices(lo, hi, step);
    if x in r {
      var k :| 0 <= k < |r| && r[k] == x;
      RangeMember(lo, hi, step, k);
    }
    if lo <= x < hi && (if step < 0 then hi - 1 - x else x - lo) % Stride(step) == 0 {
      RangeReaches(lo, hi, step, x);
    }
  }

  /** Indices are visited in strictly one direction, so none twice. */
  lemma RangeDirection(lo: nat, hi: nat, step: int, j: nat, k: nat)
    requires j < k < |RangeIndices(lo, hi, step)|
    ensures var r := RangeIndices(lo, hi, step);
            if step < 0 then r[k] < r[j] else r[j] < r[k]
  {
    RangePositions(lo, hi, step);
    var d := Stride(step);
    MulBound(d, k - j);
    assert k * d == j * d + d * (k - j);
    var r := RangeIndices(lo, hi, step);
    assert r[j] == Visit(lo, hi, step, j) && r[k] == Visit(lo, hi, step, k);
  }

  /** Feeding calls to a visitor that transforms a state. */
  function Feed<S>(visit: (S, Key, Json) -> S, s: S, calls: seq<Call>): S {
    if calls == [] then s else Feed(visit, visit(s, calls[0].key, calls[0].value), calls[1..])
  }

  /** How a selector loop ends: normally, or with a Go index-out-of-range panic. */
  datatype Outcome<+S> = Done(state: S) | Panic

  /** The last index an upward range visits. */
  function LastUp(i: nat, hi: nat, step: int): nat
    requires step > 0
    decreases hi - i
  {
    if i + step < hi then LastUp(i + step, hi, step) else i
  }

  lemma {:induction false} LastUpClosedForm(i: nat, hi: nat, step: int)
    requires step > 0 && i < hi
    ensures LastUp(i, hi, step) == i + (hi - 1 - i) / step * step
    decreases hi - i
  {
    var a := hi - 1 - i;
    if i + step < hi {
      LastUpClosedForm(i + step, hi, step);
      DivUnique(a - step, step, a / step - 1, a % step);
      assert (a / step - 1) * step == a / step * step - step;
    } else {
      DivUnique(a, step, 0, a);
    }
  }

  /** Adding the step to the last visited index leaves the range of a Go int. */
  predicate StepOverflows(lo: nat, hi: nat, step: int) {
    step > 0 && lo < hi && LastUp(lo, hi, step) + step > MAX_INT64
  }

  /** The overflow condition in closed form: the last multiple of the step that stays below hi,
      and one step more. */
  lemma StepOverflowsIff(lo: nat, hi: nat, step: int)
    requires step > 0 && lo < hi
    ensures StepOverflows(lo, hi, step) <==> lo + ((hi - 1 - lo) / step + 1) * step > MAX_INT64
  {
    LastUpClosedForm(lo, hi, step);
    var q := (hi - 1 - lo) / step;
    assert (q + 1) * step == q * step + step;
  }

  lemma FeedIndex<S>(visit: (S, Key, Json) -> S, s: S, elems: seq<Json>, i: nat, rest: seq<nat>)
    requires i < |elems| && forall j | 0 <= j < |rest| :: rest[j] < |elems|
    ensures Feed(visit, s, IndexCalls(elems, [i] + rest))
         == Feed(visit, visit(s, One(Digits(i)), elems[i]), IndexCalls(elems, rest))
  {
    assert ([i] + rest)[1..] == rest;
    var calls := IndexCalls(elems, [i] + rest);
    assert calls == [Call(One(Digits(i)), elems[i])] + IndexCalls(elems, rest);
    assert calls[1..] == IndexCalls(elems, rest);
  }

  method VisitUp<S>(elems: seq<Json>, lo: nat, hi: nat, step: Int64, visit: (S, Key, Json) -> S, start: S)
    returns (out: Outcome<S>)
    requires step > 0 && lo <= MAX_INT64 && hi <= |elems| <= MAX_INT64
    ensures out == if StepOverflows(lo, hi, step) then Panic
                   else Done(Feed(visit, start, IndexCalls(elems, UpFrom(lo, hi, step))))
  {
    var i: Int64, s := lo, start;
    ghost var overflows := StepOverflows(lo, hi, step);
    ghost var all := Feed(visit, start, IndexCalls(elems, UpFrom(lo, hi, step)));
    while i < hi
      invariant i < 0 ==> overflows
      invariant 0 <= i < hi ==> StepOverflows(i, hi, step) == overflows
      invariant i >= hi ==> !overflows
      invariant i >= 0 ==> all == Feed(visit, s, IndexCalls(elems, UpFrom(i, hi, step)))
      decreases if i < 0 then 0 else hi - i + 1
    {
      if i < 0 { return Panic; }
      assert LastUp(i, hi, step) == if i + step < hi then LastUp(i + step, hi, step) else i;
      FeedIndex(visit, s, elems, i, UpFrom(i + step, hi, step));
      s := visit(s, One(Digits(i)), elems[i]);
      i := Wrap(i + step);
    }
    return Done(s);
  }

  method VisitDown<S>(elems: seq<Json>, lo: nat, hi: nat, step: Int64, visit: (S, Key, Json) -> S, start: S)
    returns (s: S)
    requires step < 0 && hi <= |elems| <= MAX_INT64
    ensures s == Feed(visit, start, IndexCalls(elems, DownFrom(hi - 1, lo, step)))
  {
    var i: Int64 := hi - 1;
    ghost var all := Feed(visit, start, IndexCalls(elems, DownFrom(hi - 1, lo, step)));
    s := start;
    while i >= lo
      invariant i < hi
      invariant all == Feed(visit, s, IndexCalls(elems, DownFrom(i, lo, step)))
      decreases i - lo
    {
      FeedIndex(visit, s, elems, i, DownFrom(i + step, lo, step));
      s := visit(s, One(Digits(i)), elems[i]);
      i := Wrap(i + step);
    }
  }

  /** The step after the last visit of this range overflows. */
  predicate RangePanics(min: Expr, max: Expr, step: Expr, root: Json, v: Json) {
    var b := RangeBounds(min, max, step, root, v);
    b.Some? && b.value.step >= 0 && StepOverflows(b.value.lo, b.value.hi, Stride(b.value.step))
  }

  /** The range [1024:1025:9223372036854774784] panics on any array with at least 1025 elements.
      The step is 2^63 - 1024, which is a float64 as well. */
  lemma StepOverflowExample(root: Json, elems: seq<Json>)
    requires |elems| >= 1025
    ensures RangePanics(ConstInt(1024), ConstInt(1025), ConstInt(9223372036854774784), root, Array(elems))
  {
    assert LastUp(1024, 1025, 9223372036854774784) == 1024;
  }

  /** rangeSelector with Go's 64-bit `i += step`: the listed calls, unless the step overflows. */
  method RangeSelect<S>(min: Expr, max: Expr, step: Expr, root: Json, v: Json,
                        visit: (S, Key, Json) -> S, start: S) returns (out: Outcome<S>)
    requires v.Array? ==> |v.elems| <= MAX_INT64
    ensures out == if RangePanics(min, max, step, root, v) then Panic
                   else Done(Feed(visit, start, RangeCalls(min, max, step, root, v)))
  {
    if !v.Array? { return Done(start); }
    var a, b, c := min.evalInt(v, root), max.evalInt(v, root), step.evalInt(v, root);
    if a.Err? || b.Err? || c.Err? || a.value > b.value { return Done(start); }
    var lo, hi := NegMax(a.value, |v.elems|), NegMax(b.value, |v.elems|);
    var stride := if c.value == 0 then 1 else c.value;
    if stride > 0 {
      out := VisitUp(v.elems, lo, hi, stride, visit, start);
    } else {
      var s := VisitDown(v.elems, lo, hi, stride, visit, start);
      out := Done(s);
    }
  }
}
