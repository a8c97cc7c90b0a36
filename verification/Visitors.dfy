/** The callback style of jsonpath/selector.go: each selector drives a visitor. */
module Visitors {
  import opened Values
  import opened Decimals
  import opened Documents
  import opened Selectors
  import opened Ranges

  /** visitAll as a state transformer: the visitor sees every child once, in order. */
  function VisitAll<S>(kids: seq<Member>, visit: (S, string, Json) -> S, s: S): S {
    if kids == [] then s else VisitAll(kids[1..], visit, visit(s, kids[0].key, kids[0].value))
  }

  /** visitAll's own loops: a range over indices, or a range over map entries. */
  method VisitAllLoop<S>(v: Json, visit: (S, string, Json) -> S, start: S) returns (s: S)
    ensures s == VisitAll(Children(v), visit, start)
  {
    s := start;
    if v.Array? {
      for i := 0 to |v.elems|
        invariant VisitAll(Children(v), visit, start) == VisitAll(Children(v)[i..], visit, s)
      {
        s := visit(s, Digits(i), v.elems[i]);
        assert Children(v)[i..][1..] == Children(v)[i + 1..];
      }
    } else if v.Object? {
      for i := 0 to |v.members|
        invariant VisitAll(v.members, visit, start) == VisitAll(v.members[i..], visit, s)
      {
        s := visit(s, v.members[i].key, v.members[i].value);
        assert v.members[i..][1..] == v.members[i + 1..];
      }
    }
  }

  /** multiSelector's loop: keys that fail or select Undefined are skipped. */
  method MultiSelect<S>(keys: seq<Expr>, root: Json, v: Json, visit: (S, Key, Json) -> S, start: S) returns (s: S)
    ensures s == Feed(visit, start, MultiCalls(keys, root, v))
  {
    s := start;
    for i := 0 to |keys|
      invariant Feed(visit, start, MultiCalls(keys, root, v)) == Feed(visit, s, MultiCalls(keys[i..], root, v))
    {
      assert keys[i..][1..] == keys[i + 1..];
      FeedAppend(visit, s, MultiCall(keys[i], root, v), MultiCalls(keys[i + 1..], root, v));
      var selected := SelectValue(keys[i], root, v);
      if selected.Err? || selected.value.value.Undefined? { continue; }
      assert MultiCall(keys[i], root, v)[1..] == [];
      s := visit(s, One(selected.value.jkey), selected.value.value);
    }
  }

  lemma {:induction false} FeedAppend<S>(visit: (S, Key, Json) -> S, s: S, a: seq<Call>, b: seq<Call>)
    ensures Feed(visit, s, a + b) == Feed(visit, Feed(visit, s, a), b)
  {
    if a == [] {
      assert a + b == b;
    } else {
      assert (a + b)[1..] == a[1..] + b;
      FeedAppend(visit, visit(s, a[0].key, a[0].value), a[1..], b);
    }
  }

  /** mapper: the node itself, then each child's descendants with the child's key put in front. */
  function Mapper<S>(v: Json, visit: (S, seq<string>, Json) -> S, s: S): S
    decreases v, 0
  {
    MapperKids(v, Children(v), visit, visit(s, [], v))
  }

  function MapperKids<S>(ghost parent: Json, kids: seq<Member>, visit: (S, seq<string>, Json) -> S, s: S): S
    requires forall i | 0 <= i < |kids| :: kids[i].value < parent
    decreases parent, 0, |kids|
  {
    if kids == [] then s
    else MapperKids(parent, kids[1..], visit, Mapper(kids[0].value, Prefixed(kids[0].key, visit), s))
  }

  function Prefixed<S>(key: string, visit: (S, seq<string>, Json) -> S): (S, seq<string>, Json) -> S {
    (s, path, v) => visit(s, [key] + path, v)
  }

  function FeedNodes<S>(visit: (S, seq<string>, Json) -> S, s: S, nodes: seq<Node>): S {
    if nodes == [] then s else FeedNodes(visit, visit(s, nodes[0].path, nodes[0].value), nodes[1..])
  }

  lemma {:induction false} FeedNodesAppend<S>(visit: (S, seq<string>, Json) -> S, s: S, a: seq<Node>, b: seq<Node>)
    ensures FeedNodes(visit, s, a + b) == FeedNodes(visit, FeedNodes(visit, s, a), b)
  {
    if a == [] {
      assert a + b == b;
    } else {
      assert (a + b)[1..] == a[1..] + b;
      FeedNodesAppend(visit, visit(s, a[0].path, a[0].value), a[1..], b);
    }
  }

  lemma {:induction false} FeedPrefixed<S>(key: string, visit: (S, seq<string>, Json) -> S, s: S, nodes: seq<Node>)
    ensures FeedNodes(Prefixed(key, visit), s, nodes) == FeedNodes(visit, s, Under(key, nodes))
  {
    if nodes != [] {
      FeedPrefixed(key, visit, visit(s, [key] + nodes[0].path, nodes[0].value), nodes[1..]);
      assert Under(key, nodes)[1..] == Under(key, nodes[1..]);
    }
  }

  /** The recursive callbacks of mapper report exactly the listed descendants, in order. */
  lemma {:induction false} MapperFeedsDescendants<S>(v: Json, visit: (S, seq<string>, Json) -> S, s: S)
    ensures Mapper(v, visit, s) == FeedNodes(visit, s, Descendants(v))
    decreases v, 0
  {
    MapperKidsFeed(v, Children(v), visit, visit(s, [], v));
    assert Descendants(v)[1..] == DescendantsOf(v, Children(v));
  }

  lemma {:induction false} MapperKidsFeed<S>(parent: Json, kids: seq<Member>, visit: (S, seq<string>, Json) -> S, s: S)
    requires forall i | 0 <= i < |kids| :: kids[i].value < parent
    ensures MapperKids(parent, kids, visit, s) == FeedNodes(visit, s, DescendantsOf(parent, kids))
    decreases parent, 0, |kids|
  {
    if kids != [] {
      var nodes := Descendants(kids[0].value);
      MapperFeedsDescendants(kids[0].value, Prefixed(kids[0].key, visit), s);
      FeedPrefixed(kids[0].key, visit, s, nodes);
      var s' := FeedNodes(visit, s, Under(kids[0].key, nodes));
      MapperKidsFeed(parent, kids[1..], visit, s');
      FeedNodesAppend(visit, s, Under(kids[0].key, nodes), DescendantsOf(parent, kids[1..]));
    }
  }

  function OneVisitor<S>(visit: (S, Key, Json) -> S): (S, string, Json) -> S {
    (s, key, v) => visit(s, One(key), v)
  }

  function FilterVisitor<S>(filter: Expr, root: Json, visit: (S, Key, Json) -> S): (S, string, Json) -> S {
    (s, key, v) => if filter.evalBool(v, root) == Ok(true) then visit(s, One(key), v) else s
  }

  function ManyVisitor<S>(visit: (S, Key, Json) -> S): (S, seq<string>, Json) -> S {
    (s, path, v) => visit(s, Many(Ones(path)), v)
  }

  /** The union loop: one key after the other, skipping what fails or is Undefined. */
  function VisitKeys<S>(keys: seq<Expr>, root: Json, v: Json, visit: (S, Key, Json) -> S, s: S): S {
    if keys == [] then s
    else
      VisitKeys(keys[1..], root, v, visit,
                match SelectValue(keys[0], root, v)
                case Ok(Selected(e, wildcard)) => if e.Undefined? then s else visit(s, One(wildcard), e)
                case Err => s)
  }

  /** The range loops, up and down, as long as adding the step does not overflow. */
  function VisitUpward<S>(elems: seq<Json>, i: nat, hi: nat, step: int, visit: (S, Key, Json) -> S, s: S): S
    requires step > 0 && hi <= |elems|
    decreases hi - i
  {
    if i < hi then VisitUpward(elems, i + step, hi, step, visit, visit(s, One(Digits(i)), elems[i])) else s
  }

  function VisitDownward<S>(elems: seq<Json>, i: int, lo: nat, step: int, visit: (S, Key, Json) -> S, s: S): S
    requires step < 0 && i < |elems|
    decreases i - lo
  {
    if i >= lo then VisitDownward(elems, i + step, lo, step, visit, visit(s, One(Digits(i)), elems[i])) else s
  }

  function VisitRange<S>(min: Expr, max: Expr, step: Expr, root: Json, v: Json,
                         visit: (S, Key, Json) -> S, s: S): S
  {
    match RangeBounds(min, max, step, root, v)
    case None => s
    case Some(Bounds(lo, hi, k)) =>
      if k < 0 then VisitDownward(v.elems, hi - 1, lo, k, visit, s)
      else VisitUpward(v.elems, lo, hi, if k == 0 then 1 else k, visit, s)
  }

  /** One ambiguous selector in callback style. */
  function RunBranch<S>(sel: BranchSelector, root: Json, v: Json, visit: (S, Key, Json) -> S, s: S): S {
    match sel
    case Star => VisitAll(Children(v), OneVisitor(visit), s)
    case Multi(keys) =>
      if keys == [] then VisitAll(Children(v), OneVisitor(visit), s)
      else VisitKeys(keys, root, v, visit, s)
    case Filter(filter) => VisitAll(Children(v), FilterVisitor(filter, root, visit), s)
    case Range(min, max, step) => VisitRange(min, max, step, root, v, visit, s)
    case Descend => Mapper(v, ManyVisitor(visit), s)
  }

  lemma {:induction false} VisitAllStar<S>(kids: seq<Member>, visit: (S, Key, Json) -> S, s: S)
    ensures VisitAll(kids, OneVisitor(visit), s) == Feed(visit, s, StarCalls(kids))
  {
    if kids != [] {
      VisitAllStar(kids[1..], visit, visit(s, One(kids[0].key), kids[0].value));
      assert StarCalls(kids)[1..] == StarCalls(kids[1..]);
    }
  }

  lemma {:induction false} VisitAllFilter<S>(filter: Expr, root: Json, kids: seq<Member>, visit: (S, Key,
                                             Json) -> S, s: S)
    ensures VisitAll(kids, FilterVisitor(filter, root, visit), s) == Feed(visit, s, FilterCalls(filter, root, kids))
  {
    if kids != [] {
      var rest := FilterCalls(filter, root, kids[1..]);
      VisitAllFilter(filter, root, kids[1..], visit, FilterVisitor(filter, root, visit)(s, kids[0].key, kids[0].value));
      if filter.evalBool(kids[0].value, root) == Ok(true) {
        assert FilterCalls(filter, root, kids)[1..] == rest;
      } else {
        assert FilterCalls(filter, root, kids) == rest;
      }
    }
  }

  lemma {:induction false} FeedMany<S>(visit: (S, Key, Json) -> S, s: S, nodes: seq<Node>)
    ensures FeedNodes(ManyVisitor(visit), s, nodes) == Feed(visit, s, DescendCalls(nodes))
  {
    if nodes != [] {
      FeedMany(visit, visit(s, Many(Ones(nodes[0].path)), nodes[0].value), nodes[1..]);
      assert DescendCalls(nodes)[1..] == DescendCalls(nodes[1..]);
    }
  }

  lemma {:induction false} VisitKeysFeeds<S>(keys: seq<Expr>, root: Json, v: Json,
                                             visit: (S, Key, Json) -> S, s: S)
    ensures VisitKeys(keys, root, v, visit, s) == Feed(visit, s, MultiCalls(keys, root, v))
  {
    if keys != [] {
      var here, rest := MultiCall(keys[0], root, v), MultiCalls(keys[1..], root, v);
      var next := Feed(visit, s, here);
      assert here != [] ==> here[1..] == [];
      VisitKeysFeeds(keys[1..], root, v, visit, next);
      FeedAppend(visit, s, here, rest);
    }
  }

  lemma {:induction false} UpwardFeeds<S>(elems: seq<Json>, i: nat, hi: nat, step: int,
                                          visit: (S, Key, Json) -> S, s: S)
    requires step > 0 && hi <= |elems|
    ensures VisitUpward(elems, i, hi, step, visit, s) == Feed(visit, s, IndexCalls(elems, UpFrom(i, hi, step)))
    decreases hi - i
  {
    if i < hi {
      UpwardFeeds(elems, i + step, hi, step, visit, visit(s, One(Digits(i)), elems[i]));
      FeedIndex(visit, s, elems, i, UpFrom(i + step, hi, step));
    }
  }

  lemma {:induction false} DownwardFeeds<S>(elems: seq<Json>, i: int, lo: nat, step: int,
                                            visit: (S, Key, Json) -> S, s: S)
    requires step < 0 && i < |elems|
    ensures VisitDownward(elems, i, lo, step, visit, s) == Feed(visit, s, IndexCalls(elems, DownFrom(i, lo, step)))
    decreases i - lo
  {
    if i >= lo {
      DownwardFeeds(elems, i + step, lo, step, visit, visit(s, One(Digits(i)), elems[i]));
      FeedIndex(visit, s, elems, i, DownFrom(i + step, lo, step));
    }
  }

  lemma IndicesFeed<S>(elems: seq<Json>, lo: nat, hi: nat, step: int, visit: (S, Key, Json) -> S, s: S)
    requires hi <= |elems|
    ensures Feed(visit, s, IndexCalls(elems, RangeIndices(lo, hi, step)))
         == if step < 0 then VisitDownward(elems, hi - 1, lo, step, visit, s)
            else VisitUpward(elems, lo, hi, if step == 0 then 1 else step, visit, s)
  {
    if step < 0 {
      DownwardFeeds(elems, hi - 1, lo, step, visit, s);
    } else {
      UpwardFeeds(elems, lo, hi, if step == 0 then 1 else step, visit, s);
    }
  }

  lemma RangeFeeds<S>(min: Expr, max: Expr, step: Expr, root: Json, v: Json, visit: (S, Key, Json) -> S, s: S)
    ensures VisitRange(min, max, step, root, v, visit, s) == Feed(visit, s, RangeCalls(min, max, step, root, v))
  {
    var bounds := RangeBounds(min, max, step, root, v);
    if bounds.Some? {
      IndicesFeed(v.elems, bounds.value.lo, bounds.value.hi, bounds.value.step, visit, s);
    }
  }

  /** Every selector, run with any visitor, makes exactly its listed calls in order. */
  lemma RunBranchFeedsCalls<S>(sel: BranchSelector, root: Json, v: Json, visit: (S, Key, Json) -> S, s: S)
    ensures RunBranch(sel, root, v, visit, s) == Feed(visit, s, Calls(sel, root, v))
  {
    match sel
    case Star => VisitAllStar(Children(v), visit, s);
    case Multi(keys) =>
      if keys == [] { VisitAllStar(Children(v), visit, s); } else { VisitKeysFeeds(keys, root, v, visit, s); }
    case Filter(filter) => VisitAllFilter(filter, root, Children(v), visit, s);
    case Range(min, max, step) => RangeFeeds(min, max, step, root, v, visit, s);
    case Descend =>
      MapperFeedsDescendants(v, ManyVisitor(visit), s);
      FeedMany(visit, s, Descendants(v));
  }
}
