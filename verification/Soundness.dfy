/** What a reported match means: its captured keys address its value. */
module Soundness {
  import opened Sequences
  import opened Values
  import opened Decimals
  import opened Documents
  import opened Selectors
  import opened Descent
  import opened Paths

  /** Nested key lists in reading order. */
  function Flatten(keys: seq<Key>): seq<string>
    decreases keys, 1
  {
    if keys == [] then [] else FlattenKey(keys[0]) + Flatten(keys[1..])
  }

  function FlattenKey(key: Key): seq<string>
    decreases key, 0
  {
    match key
    case One(name) => [name]
    case Many(keys) => Flatten(keys)
  }

  lemma {:induction false} FlattenOnes(path: seq<string>)
    ensures Flatten(Ones(path)) == path
  {
    if path != [] {
      assert Ones(path)[1..] == Ones(path[1..]);
      FlattenOnes(path[1..]);
    }
  }

  lemma {:induction false} FlattenAppend(a: seq<Key>, b: seq<Key>)
    ensures Flatten(a + b) == Flatten(a) + Flatten(b)
  {
    if a == [] {
      assert a + b == b;
    } else {
      assert (a + b)[0] == a[0] && (a + b)[1..] == a[1..] + b;
      FlattenAppend(a[1..], b);
      Associate(FlattenKey(a[0]), Flatten(a[1..]), Flatten(b));
    }
  }

  lemma FlattenSnoc(keys: seq<Key>, key: Key)
    ensures Flatten(keys + [key]) == Flatten(keys) + FlattenKey(key)
  {
    FlattenAppend(keys, [key]);
    assert [key][1..] == [];
    assert Flatten([key]) == FlattenKey(key) + [];
  }

  function Directs(names: seq<string>): (r: seq<PlainSelector>)
    ensures |r| == |names| && forall i | 0 <= i < |r| :: r[i] == Direct(ConstKey(names[i]))
  {
    seq(|names|, i requires 0 <= i < |names| => Direct(ConstKey(names[i])))
  }

  function BranchCount(segments: seq<Segment>): nat {
    if segments == [] then 0
    else BranchCount(segments[..|segments| - 1]) + if segments[|segments| - 1].Branch? then 1 else 0
  }

  /** The path with every branch replaced by direct selection of its captured key; the key list
      of a `..` is expanded in order. */
  function Replay(segments: seq<Segment>, keys: seq<Key>): seq<PlainSelector>
    requires |keys| == BranchCount(segments)
  {
    if segments == [] then []
    else
      var init := segments[..|segments| - 1];
      match segments[|segments| - 1]
      case Single(sel) => Replay(init, keys) + [sel]
      case Branch(_) => Replay(init, keys[..|keys| - 1]) + Directs(FlattenKey(keys[|keys| - 1]))
  }

  // ---- One selector ----

  /** Selecting a child by its key gives that child. */
  lemma SelectChild(v: Json, root: Json, i: nat, strict: bool)
    requires IsTree(v, strict) && i < |Children(v)|
    ensures SelectValue(ConstKey(Children(v)[i].key), root, v)
         == Ok(Selected(Children(v)[i].value, Children(v)[i].key))
    ensures IsTree(Children(v)[i].value, strict)
  {
    TreeIsGoValue(v, strict);
    if v.Array? {
      ValueOfDigits(i);
    } else {
      FindMember(v.members, i);
    }
  }

  /** A direct selection that succeeds gives a child or Undefined, under the key it reports. */
  lemma SelectedIsChild(key: Expr, root: Json, v: Json, strict: bool)
    requires IsTree(v, strict) && SelectValue(key, root, v).Ok?
    ensures var s := SelectValue(key, root, v).value;
            s.value.Undefined? || (IsTree(s.value, strict) && SelectValue(ConstKey(s.jkey), root, v) == Ok(s))
  {
    var s := SelectValue(key, root, v).value;
    if v.Array? {
      var i := key.evalInt(v, root).value;
      assert Children(v)[i] == Member(s.jkey, s.value);
      SelectChild(v, root, i, strict);
    } else if v.Object? && Find(v.members, s.jkey).Some? {
      var i :| 0 <= i < |v.members| && v.members[i] == Member(s.jkey, s.value);
      assert Children(v)[i] == v.members[i];
      SelectChild(v, root, i, strict);
    }
  }

  lemma ChildStep(kid: Json, path: seq<string>, current: Json, root: Json, v: Json)
    requires path != [] && SelectValue(ConstKey(path[0]), root, v) == Ok(Selected(kid, path[0]))
    ensures EvaluatePath(Directs(path), current, root, v) == EvaluatePath(Directs(path[1..]), current, root, kid)
  {
    assert Directs(path)[1..] == Directs(path[1..]);
  }

  lemma {:induction false} AtReplays(v: Json, path: seq<string>, current: Json, root: Json, strict: bool)
    requires IsTree(v, strict) && At(v, path).Some?
    ensures EvaluatePath(Directs(path), current, root, v) == Ok(At(v, path).value)
    ensures IsTree(At(v, path).value, strict)
    decreases path
  {
    if path != [] {
      var kid := Find(Children(v), path[0]).value;
      var i :| 0 <= i < |Children(v)| && Children(v)[i] == Member(path[0], kid);
      SelectChild(v, root, i, strict);
      ChildStep(kid, path, current, root, v);
      AtReplays(kid, path[1..], current, root, strict);
    }
  }

  predicate Replays(call: Call, v: Json, current: Json, root: Json, strict: bool) {
    IsTree(call.value, strict) &&
    EvaluatePath(Directs(FlattenKey(call.key)), current, root, v) == Ok(call.value)
  }

  lemma OneReplays(key: string, value: Json, v: Json, current: Json, root: Json, strict: bool)
    requires IsTree(value, strict) && SelectValue(ConstKey(key), root, v) == Ok(Selected(value, key))
    ensures Replays(Call(One(key), value), v, current, root, strict)
  {
    var ds := Directs(FlattenKey(One(key)));
    assert ds == [Direct(ConstKey(key))];
    assert ds[1..] == [];
  }

  lemma ChildReplays(v: Json, i: nat, current: Json, root: Json, strict: bool)
    requires IsTree(v, strict) && i < |Children(v)|
    ensures Replays(Call(One(Children(v)[i].key), Children(v)[i].value), v, current, root, strict)
  {
    SelectChild(v, root, i, strict);
    OneReplays(Children(v)[i].key, Children(v)[i].value, v, current, root, strict);
  }

  lemma {:induction false} FilterCallIsChild(filter: Expr, root: Json, kids: seq<Member>, call: Call)
    requires call in FilterCalls(filter, root, kids)
    ensures exists i | 0 <= i < |kids| :: call == Call(One(kids[i].key), kids[i].value)
  {
    if call == Call(One(kids[0].key), kids[0].value) {
    } else {
      FilterCallIsChild(filter, root, kids[1..], call);
      var i :| 0 <= i < |kids[1..]| && call == Call(One(kids[1..][i].key), kids[1..][i].value);
      assert kids[i + 1] == kids[1..][i];
    }
  }

  /** A filter reports exactly the children its condition is true for. */
  lemma {:induction false} FilterKeepsExactly(filter: Expr, root: Json, kids: seq<Member>, i: nat)
    requires DistinctKeys(kids) && i < |kids|
    ensures Call(One(kids[i].key), kids[i].value) in FilterCalls(filter, root, kids)
            <==> filter.evalBool(kids[i].value, root) == Ok(true)
  {
    var call, rest := Call(One(kids[i].key), kids[i].value), FilterCalls(filter, root, kids[1..]);
    if i == 0 {
      if call in rest { FilterCallIsChild(filter, root, kids[1..], call); }
    } else {
      FilterKeepsExactly(filter, root, kids[1..], i - 1);
    }
  }

  lemma {:induction false} MultiCallReplays(keys: seq<Expr>, root: Json, v: Json, call: Call, current: Json,
                                            strict: bool)
    requires IsTree(v, strict) && call in MultiCalls(keys, root, v)
    ensures Replays(call, v, current, root, strict)
  {
    if call in MultiCall(keys[0], root, v) {
      var s := SelectValue(keys[0], root, v).value;
      SelectedIsChild(keys[0], root, v, strict);
      OneReplays(s.jkey, s.value, v, current, root, strict);
    } else {
      MultiCallReplays(keys[1..], root, v, call, current, strict);
    }
  }

  lemma RangeCallIsChild(min: Expr, max: Expr, step: Expr, root: Json, v: Json, call: Call)
    requires call in RangeCalls(min, max, step, root, v)
    ensures exists i | 0 <= i < |Children(v)| :: call == Call(One(Children(v)[i].key), Children(v)[i].value)
  {
    var Bounds(lo, hi, s) := RangeBounds(min, max, step, root, v).value;
    var indices := RangeIndices(lo, hi, s);
    var calls := IndexCalls(v.elems, indices);
    var j :| 0 <= j < |calls| && calls[j] == call;
    assert Children(v)[indices[j]] == Member(Digits(indices[j]), v.elems[indices[j]]);
  }

  lemma DescendCallReplays(v: Json, call: Call, current: Json, root: Json, strict: bool)
    requires IsTree(v, strict) && call in DescendCalls(Descendants(v))
    ensures Replays(call, v, current, root, strict)
  {
    var nodes := Descendants(v);
    var i :| 0 <= i < |nodes| && DescendCalls(nodes)[i] == call;
    TreeIsGoValue(v, strict);
    DescendantsAreNodes(v, nodes[i]);
    FlattenOnes(nodes[i].path);
    AtReplays(v, nodes[i].path, current, root, strict);
  }

  /** Any call of any selector: selecting its key directly gives its value. */
  lemma CallReplays(sel: BranchSelector, root: Json, v: Json, call: Call, current: Json, strict: bool)
    requires IsTree(v, strict) && call in Calls(sel, root, v)
    ensures Replays(call, v, current, root, strict)
  {
    if sel.Descend? {
      DescendCallReplays(v, call, current, root, strict);
    } else if sel.Multi? && sel.keys != [] {
      MultiCallReplays(sel.keys, root, v, call, current, strict);
    } else {
      match sel {
        case Filter(filter) => FilterCallIsChild(filter, root, Children(v), call);
        case Range(min, max, step) => RangeCallIsChild(min, max, step, root, v, call);
        case Star => assert call in StarCalls(Children(v));
        case Multi(_) => assert call in StarCalls(Children(v));
      }
      var i :| 0 <= i < |Children(v)| && call == Call(One(Children(v)[i].key), Children(v)[i].value);
      ChildReplays(v, i, current, root, strict);
    }
  }

  // ---- A whole path ----

  predicate PendingReplays(segments: seq<Segment>, current: Json, root: Json, p: Pending) {
    |p.keys| == BranchCount(segments) &&
    EvaluatePath(Replay(segments, p.keys), current, root, root) == p.value &&
    (p.value.Ok? ==> IsGoValue(p.value.value))
  }

  lemma PlainKeepsTree(sel: PlainSelector, current: Json, root: Json, v: Json)
    requires IsGoValue(v) && IsGoValue(current) && ApplyPlain(sel, current, root, v).Ok?
    ensures IsGoValue(ApplyPlain(sel, current, root, v).value)
  {
    if sel.Direct? { SelectedIsChild(sel.key, root, v, false); }
  }

  lemma {:induction false} SettledFrom(ps: seq<Pending>, m: Match) returns (p: Pending)
    requires m in Settle(ps)
    ensures p in ps && Settled(p) && m == Match(p.keys, p.value.value)
  {
    if m in Settle(ps[1..]) {
      p := SettledFrom(ps[1..], m);
    } else {
      p := ps[0];
    }
  }

  lemma {:induction false} BranchedFrom(sel: BranchSelector, root: Json, ms: seq<Match>, p: Pending)
    returns (m: Match, call: Call)
    requires p in StepBranch(sel, root, ms)
    ensures m in ms && call in Calls(sel, root, m.value) && p == Pending(m.keys + [call.key], Ok(call.value), false)
  {
    var calls := Calls(sel, root, ms[0].value);
    var here := Extend(ms[0].keys, calls);
    if p in here {
      var i :| 0 <= i < |here| && here[i] == p;
      m, call := ms[0], calls[i];
    } else {
      m, call := BranchedFrom(sel, root, ms[1..], p);
    }
  }

  lemma PlainStepReplays(init: seq<Segment>, sel: PlainSelector, current: Json, root: Json, q: Pending)
    requires IsGoValue(root) && IsGoValue(current) && PendingReplays(init, current, root, q)
    ensures PendingReplays(init + [Single(sel)], current, root, PlainStep(sel, current, root, q))
  {
    assert (init + [Single(sel)])[..|init|] == init;
    EvaluateAppend(Replay(init, q.keys), [sel], current, root, root);
    if q.value.Ok? {
      SinglePlain(sel, current, root, q.value.value);
      if ApplyPlain(sel, current, root, q.value.value).Ok? { PlainKeepsTree(sel, current, root, q.value.value); }
    }
  }

  lemma BranchStepReplays(init: seq<Segment>, sel: BranchSelector, current: Json, root: Json, q: Pending, call: Call)
    requires PendingReplays(init, current, root, q) && q.value.Ok?
    requires Replays(call, q.value.value, current, root, false)
    ensures PendingReplays(init + [Branch(sel)], current, root, Pending(q.keys + [call.key], Ok(call.value), false))
  {
    var keys := q.keys + [call.key];
    assert (init + [Branch(sel)])[..|init|] == init;
    assert keys[..|keys| - 1] == q.keys;
    EvaluateAppend(Replay(init, q.keys), Directs(FlattenKey(call.key)), current, root, root);
  }

  /** Where a pending value comes from: one plain step or one call on an earlier value. */
  lemma StepFrom(last: Segment, current: Json, root: Json, ps: seq<Pending>, p: Pending)
    returns (q: Pending, call: Call)
    requires p in Step(last, current, root, ps)
    ensures q in ps
    ensures last.Single? ==> p == PlainStep(last.plain, current, root, q)
    ensures last.Branch? ==> Settled(q) && call in Calls(last.sel, root, q.value.value)
                             && p == Pending(q.keys + [call.key], Ok(call.value), false)
  {
    if last.Single? {
      var i :| 0 <= i < |ps| && p == PlainStep(last.plain, current, root, ps[i]);
      q, call := ps[i], Call(One(""), Null);
    } else {
      var m: Match;
      m, call := BranchedFrom(last.sel, root, Settle(ps), p);
      q := SettledFrom(ps, m);
    }
  }

  lemma StepReplays(init: seq<Segment>, last: Segment, current: Json, root: Json, q: Pending, call: Call, p: Pending)
    requires IsGoValue(root) && IsGoValue(current) && PendingReplays(init, current, root, q)
    requires last.Single? ==> p == PlainStep(last.plain, current, root, q)
    requires last.Branch? ==> Settled(q) && call in Calls(last.sel, root, q.value.value)
                              && p == Pending(q.keys + [call.key], Ok(call.value), false)
    ensures PendingReplays(init + [last], current, root, p)
  {
    match last
    case Single(sel) => PlainStepReplays(init, sel, current, root, q);
    case Branch(sel) =>
      CallReplays(sel, root, q.value.value, call, current, false);
      BranchStepReplays(init, sel, current, root, q, call);
  }

  lemma {:induction false} PendingsReplay(segments: seq<Segment>, current: Json, root: Json, p: Pending)
    requires IsGoValue(root) && IsGoValue(current) && p in Pendings(segments, current, root)
    ensures PendingReplays(segments, current, root, p)
  {
    if segments != [] {
      var init, last := segments[..|segments| - 1], segments[|segments| - 1];
      SplitLast(segments);
      var q, call := StepFrom(last, current, root, Pendings(init, current, root), p);
      PendingsReplay(init, current, root, q);
      StepReplays(init, last, current, root, q, call, p);
    }
  }

  /** Key soundness: replaying the captured keys from the root gives the reported value. */
  lemma KeySoundness(segments: seq<Segment>, current: Json, root: Json, m: Match)
    requires IsGoValue(root) && IsGoValue(current) && m in Matches(segments, current, root)
    ensures |m.keys| == BranchCount(segments)
    ensures EvaluatePath(Replay(segments, m.keys), current, root, root) == Ok(m.value)
  {
    var p := SettledFrom(Pendings(segments, current, root), m);
    PendingsReplay(segments, current, root, p);
  }

  /** Equal key tuples carry equal values. */
  lemma EqualKeysEqualValues(segments: seq<Segment>, current: Json, root: Json, m: Match, n: Match)
    requires IsGoValue(root) && IsGoValue(current)
    requires m in Matches(segments, current, root) && n in Matches(segments, current, root) && m.keys == n.keys
    ensures m == n
  {
    KeySoundness(segments, current, root, m);
    KeySoundness(segments, current, root, n);
  }

  // ---- Undefined ----

  /** Plain selectors are direct, or name the current element, which is a document. */
  predicate ScriptFree(segments: seq<Segment>, current: Json) {
    forall i | 0 <= i < |segments| && segments[i].Single? ::
      segments[i].plain.Direct? || (segments[i].plain.CurrentElement? && IsDocument(current))
  }

  predicate Contained(p: Pending) {
    p.value.Ok? ==> IsDocument(p.value.value) || (p.ran && p.value.value.Undefined?)
  }

  lemma DirectContained(key: Expr, current: Json, root: Json, q: Pending)
    requires Contained(q)
    ensures Contained(PlainStep(Direct(key), current, root, q))
  {
    if q.value.Ok? && IsDocument(q.value.value) && SelectValue(key, root, q.value.value).Ok? {
      SelectedIsChild(key, root, q.value.value, true);
    }
  }

  lemma {:induction false} PendingsContained(segments: seq<Segment>, current: Json, root: Json, p: Pending)
    requires IsDocument(root) && ScriptFree(segments, current) && p in Pendings(segments, current, root)
    ensures Contained(p)
  {
    if segments != [] {
      var init, last := segments[..|segments| - 1], segments[|segments| - 1];
      assert ScriptFree(init, current);
      var q, call := StepFrom(last, current, root, Pendings(init, current, root), p);
      PendingsContained(init, current, root, q);
      if last.Branch? {
        CallReplays(last.sel, root, q.value.value, call, current, true);
      } else if last.plain.Direct? {
        DirectContained(last.plain.key, current, root, q);
      }
    }
  }

  /** Undefined containment: a script-free path with a branch evaluates to a list without
      Undefined, at any depth, and never to an error. */
  lemma UndefinedContained(segments: seq<Segment>, current: Json, root: Json)
    requires IsDocument(root) && ScriptFree(segments, current) && HasBranch(segments)
    ensures var r := Evaluate(Build(segments), current, root);
            r.Ok? && r.value.Array? && forall i | 0 <= i < |r.value.elems| :: IsDocument(r.value.elems[i])
  {
    EvaluateLists(segments, current, root);
    var ms := Matches(segments, current, root);
    forall i | 0 <= i < |ms| ensures IsDocument(ms[i].value) {
      MatchIsDocument(segments, current, root, ms[i]);
    }
  }

  lemma MatchIsDocument(segments: seq<Segment>, current: Json, root: Json, m: Match)
    requires IsDocument(root) && ScriptFree(segments, current) && m in Matches(segments, current, root)
    ensures IsDocument(m.value)
  {
    var p := SettledFrom(Pendings(segments, current, root), m);
    PendingsContained(segments, current, root, p);
  }
}
