/** Matches that must be found: how a value that is there gets on the list. */
module Reaching {
  import opened Values
  import opened Documents
  import opened Selectors
  import opened Descent
  import opened Paths

  lemma {:induction false} SettledInto(ps: seq<Pending>, p: Pending)
    requires p in ps && Settled(p)
    ensures Match(p.keys, p.value.value) in Settle(ps)
  {
    if p != ps[0] { SettledInto(ps[1..], p); }
  }

  lemma {:induction false} BranchedInto(sel: BranchSelector, root: Json, ms: seq<Match>, m: Match, call: Call)
    requires m in ms && call in Calls(sel, root, m.value)
    ensures Pending(m.keys + [call.key], Ok(call.value), false) in StepBranch(sel, root, ms)
  {
    if m == ms[0] {
      var calls := Calls(sel, root, m.value);
      var i :| 0 <= i < |calls| && calls[i] == call;
      assert Extend(m.keys, calls)[i] == Pending(m.keys + [call.key], Ok(call.value), false);
    } else {
      BranchedInto(sel, root, ms[1..], m, call);
    }
  }

  lemma NodeIsCalled(nodes: seq<Node>, n: Node)
    requires n in nodes
    ensures Call(Many(Ones(n.path)), n.value) in DescendCalls(nodes)
  {
    var calls := DescendCalls(nodes);
    var i :| 0 <= i < |nodes| && nodes[i] == n;
    assert calls[i] == Call(Many(Ones(n.path)), n.value);
  }

  lemma DescendedInto(v: Json, path: seq<string>, w: Json)
    requires At(v, path) == Some(w)
    ensures Call(Many(Ones(path)), w) in DescendCalls(Descendants(v))
  {
    NodesAreDescendants(v, path, w);
    NodeIsCalled(Descendants(v), Node(path, w));
  }

  lemma CallsOfDescend(root: Json, v: Json)
    ensures Calls(Descend, root, v) == DescendCalls(Descendants(v))
  {}

  lemma DescendStep(init: seq<Segment>, current: Json, root: Json, p: Pending, path: seq<string>, w: Json)
    requires p in Pendings(init, current, root) && Settled(p) && At(p.value.value, path) == Some(w)
    ensures Pending(p.keys + [Many(Ones(path))], Ok(w), false) in Pendings(init + [Branch(Descend)], current, root)
  {
    assert (init + [Branch(Descend)])[..|init|] == init;
    var ps := Pendings(init, current, root);
    SettledInto(ps, p);
    DescendedInto(p.value.value, path, w);
    CallsOfDescend(root, p.value.value);
    BranchedInto(Descend, root, Settle(ps), Match(p.keys, p.value.value), Call(Many(Ones(path)), w));
  }

  lemma PlainInto(init: seq<Segment>, sel: PlainSelector, current: Json, root: Json, q: Pending)
    requires q in Pendings(init, current, root)
    ensures PlainStep(sel, current, root, q) in Pendings(init + [Single(sel)], current, root)
  {
    assert (init + [Single(sel)])[..|init|] == init;
    var qs := Pendings(init, current, root);
    var i :| 0 <= i < |qs| && qs[i] == q;
    assert StepPlain(sel, current, root, qs)[i] == PlainStep(sel, current, root, q);
  }

  /** Selecting a member of an object by its name. */
  lemma NameStep(name: string, current: Json, root: Json, q: Pending, x: Json)
    requires q.value.Ok? && q.value.value.Object? && Find(q.value.value.members, name) == Some(x)
    ensures PlainStep(Direct(ConstKey(name)), current, root, q) == Pending(q.keys, Ok(x), true)
  {}

  lemma StarStep(init: seq<Segment>, sel: BranchSelector, current: Json, root: Json, p: Pending, i: nat)
    requires IsStar(sel) && p in Pendings(init, current, root) && Settled(p) && i < |Children(p.value.value)|
    ensures var kid := Children(p.value.value)[i];
            Pending(p.keys + [One(kid.key)], Ok(kid.value), false) in Pendings(init + [Branch(sel)], current, root)
  {
    var v := p.value.value;
    var kid := Children(v)[i];
    assert (init + [Branch(sel)])[..|init|] == init;
    SettledInto(Pendings(init, current, root), p);
    assert StarCalls(Children(v))[i] == Call(One(kid.key), kid.value);
    BranchedInto(sel, root, Settle(Pendings(init, current, root)), Match(p.keys, v), Call(One(kid.key), kid.value));
  }
}
