/** Exactly what a path of names, stars and `..` matches. */
module Exactness {
  import opened Sequences
  import opened Values
  import opened Decimals
  import opened Documents
  import opened Selectors
  import opened Descent
  import opened Paths
  import opened Picks
  import opened Reaching
  import opened Soundness
  import opened Placeholders

  /** Where a key tuple leads: the names of the path and the captured names, in order. */
  function Place(picks: seq<Pick>, keys: seq<Key>): seq<string>
    requires Shaped(ToSegments(picks), keys)
  {
    if picks == [] then []
    else
      var init := picks[..|picks| - 1];
      assert ToSegments(picks)[..|picks| - 1] == ToSegments(init);
      match picks[|picks| - 1]
      case Name(name) => Place(init, keys) + [name]
      case Wild(_) => Place(init, keys[..|keys| - 1]) + FlattenKey(keys[|keys| - 1])
  }

  predicate NoOddNames(picks: seq<Pick>) {
    forall i | 0 <= i < |picks| && picks[i].Name? :: !ReadsOdd(picks[i].name)
  }

  lemma {:induction false} AtAppend(v: Json, a: seq<string>, b: seq<string>)
    ensures At(v, a + b) == match At(v, a)
                            case Some(w) => At(w, b)
                            case None => None
    decreases |a|
  {
    if a == [] {
      assert a + b == b;
    } else {
      assert (a + b)[0] == a[0] && (a + b)[1..] == a[1..] + b;
      match Find(Children(v), a[0])
      case Some(kid) => AtAppend(kid, a[1..], b);
      case None =>
    }
  }

  lemma AtOneKey(v: Json, key: string)
    ensures At(v, [key]) == Find(Children(v), key)
  {
    assert [key][1..] == [];
    match Find(Children(v), key)
    case Some(kid) => assert At(kid, []) == Some(kid);
    case None =>
  }

  /** A child of an array is found by its index, as it is written, and by nothing else. */
  lemma FindElement(v: Json, key: string)
    requires v.Array? && IsGoValue(v)
    ensures Find(Children(v), key)
         == if IsIndex(key) && Value(key) < |v.elems| then Some(v.elems[Value(key)]) else None
  {
    if IsIndex(key) && Value(key) < |v.elems| {
      DigitsOfValue(key);
      ChildKeysDistinct(v);
      FindMember(Children(v), Value(key));
    } else if Find(Children(v), key).Some? {
      var e := Find(Children(v), key).value;
      var i :| 0 <= i < |Children(v)| && Children(v)[i] == Member(key, e);
      ValueOfDigits(i);
    }
  }

  predicate SelectsTo(name: string, root: Json, v: Json, e: Json) {
    var r := SelectValue(ConstKey(name), root, v);
    r.Ok? && r.value.value == e
  }

  lemma ElementIsSelected(name: string, root: Json, v: Json, e: Json)
    requires IsGoValue(v) && v.Array? && Find(Children(v), name) == Some(e)
    ensures SelectValue(ConstKey(name), root, v) == Ok(Selected(e, name))
  {
    FindElement(v, name);
    DigitsOfValue(name);
  }

  lemma SelectedIsElement(name: string, root: Json, v: Json, e: Json)
    requires IsGoValue(v) && v.Array? && !ReadsOdd(name) && SelectsTo(name, root, v, e)
    ensures Find(Children(v), name) == Some(e)
  {
    FindElement(v, name);
  }

  lemma ElementSelects(name: string, root: Json, v: Json, e: Json)
    requires IsGoValue(v) && v.Array?
    ensures Find(Children(v), name) == Some(e) ==> SelectValue(ConstKey(name), root, v) == Ok(Selected(e, name))
    ensures !ReadsOdd(name) && SelectsTo(name, root, v, e) ==> Find(Children(v), name) == Some(e)
  {
    if Find(Children(v), name) == Some(e) { ElementIsSelected(name, root, v, e); }
    if !ReadsOdd(name) && SelectsTo(name, root, v, e) { SelectedIsElement(name, root, v, e); }
  }

  lemma MemberSelects(name: string, root: Json, v: Json, e: Json)
    requires !v.Array? && !e.Undefined?
    ensures Find(Children(v), name) == Some(e) ==> SelectValue(ConstKey(name), root, v) == Ok(Selected(e, name))
    ensures SelectsTo(name, root, v, e) ==> Find(Children(v), name) == Some(e)
  {}

  /** Selecting a name of a Go value is stepping to the child of that key, as far as the name does
      not read as an odd index; a child is always selected. */
  lemma NameSelects(name: string, root: Json, v: Json, e: Json)
    requires IsGoValue(v) && !e.Undefined?
    ensures At(v, [name]) == Some(e) ==> SelectValue(ConstKey(name), root, v) == Ok(Selected(e, name))
    ensures !ReadsOdd(name) && SelectsTo(name, root, v, e) ==> At(v, [name]) == Some(e)
  {
    AtOneKey(v, name);
    if v.Array? { ElementSelects(name, root, v, e); } else { MemberSelects(name, root, v, e); }
  }

  // ---- Reported means placed ----

  /** The value of a tuple is what it leads to, unless it is Undefined. */
  predicate Placed(picks: seq<Pick>, root: Json, p: Pending) {
    Shaped(ToSegments(picks), p.keys)
    && (p.value.Ok? && !p.value.value.Undefined? ==> At(root, Place(picks, p.keys)) == Some(p.value.value))
  }

  lemma PlaceSnoc(init: seq<Pick>, pick: Pick, keys: seq<Key>, key: Key)
    requires Shaped(ToSegments(init), keys)
    requires pick.Wild? ==> if pick.sel.Descend? then IsDescentKey(key) else key.One?
    ensures pick.Name? ==> Shaped(ToSegments(init + [pick]), keys)
                           && Place(init + [pick], keys) == Place(init, keys) + [pick.name]
    ensures pick.Wild? ==> Shaped(ToSegments(init + [pick]), keys + [key])
                           && Place(init + [pick], keys + [key]) == Place(init, keys) + FlattenKey(key)
  {
    MorePicks(init, pick);
    assert (init + [pick])[..|init|] == init && (keys + [key])[..|keys|] == keys;
  }

  lemma StarCallLeads(sel: BranchSelector, root: Json, v: Json, call: Call)
    requires IsStar(sel) && IsGoValue(v) && call in Calls(sel, root, v)
    ensures call.key.One? && At(v, [call.key.name]) == Some(call.value)
  {
    var kids := Children(v);
    var i :| 0 <= i < |kids| && StarCalls(kids)[i] == call;
    ChildKeysDistinct(v);
    FindMember(kids, i);
    AtOneKey(v, kids[i].key);
  }

  lemma DescentCallLeads(root: Json, v: Json, call: Call)
    requires IsGoValue(v) && call in Calls(Descend, root, v)
    ensures At(v, FlattenKey(call.key)) == Some(call.value)
  {
    var nodes := Descendants(v);
    var i :| 0 <= i < |nodes| && DescendCalls(nodes)[i] == call;
    DescendantsAreNodes(v, nodes[i]);
    FlattenOnes(nodes[i].path);
  }

  /** Any call of a star or `..` leads to its value. */
  lemma CallLeads(sel: BranchSelector, root: Json, v: Json, call: Call)
    requires (IsStar(sel) || sel.Descend?) && IsGoValue(v) && call in Calls(sel, root, v)
    ensures At(v, FlattenKey(call.key)) == Some(call.value)
  {
    if sel.Descend? { DescentCallLeads(root, v, call); } else { StarCallLeads(sel, root, v, call); }
  }

  lemma StepPlaced(init: seq<Pick>, pick: Pick, current: Json, root: Json, q: Pending, call: Call, p: Pending)
    requires Simple(pick) && (pick.Name? ==> !ReadsOdd(pick.name))
    requires Placed(init, root, q) && Contained(q)
    requires pick.Name? ==> p == PlainStep(Direct(ConstKey(pick.name)), current, root, q)
    requires pick.Wild? ==> Settled(q) && call in Calls(pick.sel, root, q.value.value)
                            && p == Pending(q.keys + [call.key], Ok(call.value), false)
    ensures Placed(init + [pick], root, p)
  {
    match pick
    case Name(name) =>
      PlaceSnoc(init, pick, q.keys, One(""));
      if p.value.Ok? && !p.value.value.Undefined? {
        var v := q.value.value;
        if IsDocument(v) {
          TreeIsGoValue(v, true);
          NameSelects(name, root, v, p.value.value);
          AtAppend(root, Place(init, q.keys), [name]);
        }
      }
    case Wild(sel) =>
      var v := q.value.value;
      TreeIsGoValue(v, true);
      CallShape(sel, root, v, call);
      PlaceSnoc(init, pick, q.keys, call.key);
      CallLeads(sel, root, v, call);
      AtAppend(root, Place(init, q.keys), FlattenKey(call.key));
  }

  lemma {:induction false} PendingsPlaced(picks: seq<Pick>, current: Json, root: Json, p: Pending)
    requires AllSimple(picks) && NoOddNames(picks) && IsDocument(root)
    requires p in Pendings(ToSegments(picks), current, root)
    ensures Placed(picks, root, p) && Contained(p)
  {
    if picks != [] {
      var init, last := picks[..|picks| - 1], picks[|picks| - 1];
      SplitLast(picks);
      MorePicks(init, last);
      assert Simple(last) && (last.Name? ==> !ReadsOdd(last.name));
      var q, call := StepFrom(SegmentOf(last), current, root, Pendings(ToSegments(init), current, root), p);
      PendingsPlaced(init, current, root, q);
      StepPlaced(init, last, current, root, q, call, p);
      NoScripts(picks, current);
      PendingsContained(ToSegments(picks), current, root, p);
    }
  }

  lemma NoScripts(picks: seq<Pick>, current: Json)
    ensures ScriptFree(ToSegments(picks), current)
  {}

  // ---- Placed means reported ----

  ghost predicate Pends(picks: seq<Pick>, keys: seq<Key>, current: Json, root: Json, v: Json) {
    exists ran :: Pending(keys, Ok(v), ran) in Pendings(ToSegments(picks), current, root)
  }

  lemma NamePends(init: seq<Pick>, name: string, keys: seq<Key>, current: Json, root: Json, v: Json, w: Json)
    requires Pends(init, keys, current, root, v) && SelectValue(ConstKey(name), root, v) == Ok(Selected(w, name))
    ensures Pends(init + [Name(name)], keys, current, root, w)
  {
    var ran :| Pending(keys, Ok(v), ran) in Pendings(ToSegments(init), current, root);
    MorePicks(init, Name(name));
    PlainInto(ToSegments(init), Direct(ConstKey(name)), current, root, Pending(keys, Ok(v), ran));
    assert Pending(keys, Ok(w), true) in Pendings(ToSegments(init + [Name(name)]), current, root);
  }

  lemma StarPends(init: seq<Pick>, sel: BranchSelector, keys: seq<Key>, key: string, current: Json, root: Json, v: Json,
                  w: Json)
    requires Pends(init, keys, current, root, v) && IsStar(sel) && At(v, [key]) == Some(w) && !v.Undefined?
    ensures Pends(init + [Wild(sel)], keys + [One(key)], current, root, w)
  {
    var ran :| Pending(keys, Ok(v), ran) in Pendings(ToSegments(init), current, root);
    MorePicks(init, Wild(sel));
    AtOneKey(v, key);
    var i :| 0 <= i < |Children(v)| && Children(v)[i] == Member(key, w);
    StarStep(ToSegments(init), sel, current, root, Pending(keys, Ok(v), ran), i);
    assert Pending(keys + [One(key)], Ok(w), false) in Pendings(ToSegments(init + [Wild(sel)]), current, root);
  }

  lemma DescentPends(init: seq<Pick>, keys: seq<Key>, key: Key, current: Json, root: Json, v: Json, w: Json)
    requires Pends(init, keys, current, root, v) && IsDescentKey(key) && At(v, FlattenKey(key)) == Some(w)
    requires !v.Undefined?
    ensures Pends(init + [Wild(Descend)], keys + [key], current, root, w)
  {
    var ran :| Pending(keys, Ok(v), ran) in Pendings(ToSegments(init), current, root);
    MorePicks(init, Wild(Descend));
    DescentKeyFlattens(key);
    DescendStep(ToSegments(init), current, root, Pending(keys, Ok(v), ran), FlattenKey(key), w);
    assert Pending(keys + [key], Ok(w), false) in Pendings(ToSegments(init + [Wild(Descend)]), current, root);
  }

  lemma {:induction false} AtIsDocument(v: Json, path: seq<string>, w: Json)
    requires IsDocument(v) && At(v, path) == Some(w)
    ensures IsDocument(w)
    decreases |path|
  {
    if path != [] {
      var kid := Find(Children(v), path[0]).value;
      var i :| 0 <= i < |Children(v)| && Children(v)[i] == Member(path[0], kid);
      AtIsDocument(kid, path[1..], w);
    }
  }

  lemma PickPends(init: seq<Pick>, pick: Pick, front: seq<Key>, key: Key, current: Json, root: Json, v: Json, w: Json)
    requires Simple(pick) && IsDocument(v) && IsDocument(w) && Pends(init, front, current, root, v)
    requires pick.Name? ==> At(v, [pick.name]) == Some(w)
    requires pick.Wild? ==> At(v, FlattenKey(key)) == Some(w)
    requires pick.Wild? ==> if pick.sel.Descend? then IsDescentKey(key) else key.One?
    ensures Pends(init + [pick], if pick.Name? then front else front + [key], current, root, w)
  {
    match pick
    case Name(name) =>
      TreeIsGoValue(v, true);
      NameSelects(name, root, v, w);
      NamePends(init, name, front, current, root, v, w);
    case Wild(sel) =>
      if sel.Descend? {
        DescentPends(init, front, key, current, root, v, w);
      } else {
        StarPends(init, sel, front, key.name, current, root, v, w);
      }
  }

  /** The last step of a place. */
  lemma LastStep(init: seq<Pick>, pick: Pick, keys: seq<Key>, root: Json, w: Json)
    returns (front: seq<Key>, key: Key, v: Json)
    requires IsDocument(root) && Shaped(ToSegments(init + [pick]), keys)
    requires At(root, Place(init + [pick], keys)) == Some(w)
    ensures Shaped(ToSegments(init), front) && At(root, Place(init, front)) == Some(v)
    ensures pick.Name? ==> keys == front && At(v, [pick.name]) == Some(w)
    ensures pick.Wild? ==> keys == front + [key] && At(v, FlattenKey(key)) == Some(w)
                           && if pick.sel.Descend? then IsDescentKey(key) else key.One?
  {
    MorePicks(init, pick);
    front, key := if pick.Name? then keys else keys[..|keys| - 1], if pick.Name? then One("") else keys[|keys| - 1];
    if pick.Wild? { SplitLast(keys); }
    PlaceSnoc(init, pick, front, key);
    AtAppend(root, Place(init, front), if pick.Name? then [pick.name] else FlattenKey(key));
    v := At(root, Place(init, front)).value;
  }

  lemma StepPends(init: seq<Pick>, pick: Pick, front: seq<Key>, key: Key, current: Json, root: Json,
                  here: seq<string>, there: seq<string>, v: Json, w: Json)
    requires Simple(pick) && IsDocument(root) && Pends(init, front, current, root, v)
    requires At(root, here) == Some(v) && At(root, there) == Some(w)
    requires pick.Name? ==> At(v, [pick.name]) == Some(w)
    requires pick.Wild? ==> At(v, FlattenKey(key)) == Some(w)
    requires pick.Wild? ==> if pick.sel.Descend? then IsDescentKey(key) else key.One?
    ensures Pends(init + [pick], if pick.Name? then front else front + [key], current, root, w)
  {
    AtIsDocument(root, here, v);
    AtIsDocument(root, there, w);
    PickPends(init, pick, front, key, current, root, v, w);
  }

  lemma {:induction false} PlacedPends(picks: seq<Pick>, keys: seq<Key>, current: Json, root: Json, w: Json)
    requires AllSimple(picks) && IsDocument(root) && Shaped(ToSegments(picks), keys)
    requires At(root, Place(picks, keys)) == Some(w)
    ensures Pends(picks, keys, current, root, w)
  {
    if picks == [] {
      var start := Pending([], Ok(root), true);
      assert Pendings(ToSegments([]), current, root) == [start] && start in [start];
    } else {
      var init, last := picks[..|picks| - 1], picks[|picks| - 1];
      SplitLast(picks);
      var front, key, v := LastStep(init, last, keys, root, w);
      PlacedPends(init, front, current, root, v);
      assert Simple(last);
      StepPends(init, last, front, key, current, root, Place(init, front), Place(picks, keys), v, w);
    }
  }

  lemma PlacedMatches(picks: seq<Pick>, current: Json, root: Json, m: Match)
    requires AllSimple(picks) && IsDocument(root) && Shaped(ToSegments(picks), m.keys)
    requires At(root, Place(picks, m.keys)) == Some(m.value)
    ensures m in Matches(ToSegments(picks), current, root)
  {
    PlacedPends(picks, m.keys, current, root, m.value);
    AtIsDocument(root, Place(picks, m.keys), m.value);
    var ran :| Pending(m.keys, Ok(m.value), ran) in Pendings(ToSegments(picks), current, root);
    SettledInto(Pendings(ToSegments(picks), current, root), Pending(m.keys, Ok(m.value), ran));
  }

  /** The matches of a path of names, stars and `..` on a document: every key tuple of the path's
      shape that leads somewhere in the tree, with the value it leads to, and nothing else. */
  lemma MatchesExactly(picks: seq<Pick>, current: Json, root: Json, m: Match)
    requires AllSimple(picks) && NoOddNames(picks) && IsDocument(root)
    ensures m in Matches(ToSegments(picks), current, root) <==>
              Shaped(ToSegments(picks), m.keys) && At(root, Place(picks, m.keys)) == Some(m.value)
  {
    if m in Matches(ToSegments(picks), current, root) {
      var p := SettledFrom(Pendings(ToSegments(picks), current, root), m);
      PendingsPlaced(picks, current, root, p);
    } else if Shaped(ToSegments(picks), m.keys) && At(root, Place(picks, m.keys)) == Some(m.value) {
      PlacedMatches(picks, current, root, m);
    }
  }

  // ---- Which trees are documents ----

  /** What Go requires of one value: an object is a map, an array a slice, and a strict one is defined. */
  predicate Fits(v: Json, strict: bool) {
    (v.Object? ==> forall i, j | 0 <= i < |v.members| && 0 <= j < |v.members| && i != j ::
                     v.members[i].key != v.members[j].key) &&
    (v.Array? ==> |v.elems| <= 9223372036854775807) &&
    (strict ==> v != Undefined)
  }

  ghost predicate AllFit(v: Json, strict: bool) {
    forall path | At(v, path).Some? :: Fits(At(v, path).value, strict)
  }

  lemma {:induction false} TreeFits(v: Json, strict: bool, path: seq<string>)
    requires IsTree(v, strict) && At(v, path).Some?
    ensures Fits(At(v, path).value, strict)
    decreases |path|
  {
    if path != [] {
      var kid := Find(Children(v), path[0]).value;
      var i :| 0 <= i < |Children(v)| && Children(v)[i] == Member(path[0], kid);
      TreeFits(kid, strict, path[1..]);
    }
  }

  lemma FittingChild(v: Json, strict: bool, i: nat, path: seq<string>)
    requires Fits(v, strict) && i < |Children(v)|
    ensures At(v, [Children(v)[i].key] + path) == At(Children(v)[i].value, path)
  {
    var kids := Children(v);
    forall j, k | 0 <= j < k < |kids| ensures kids[j].key != kids[k].key {
      if v.Array? && Digits(j) == Digits(k) { DigitsInjective(j, k); }
    }
    FindMember(kids, i);
    assert ([kids[i].key] + path)[1..] == path;
  }

  lemma {:induction false} FitsTree(v: Json, strict: bool)
    requires AllFit(v, strict)
    ensures IsTree(v, strict)
    decreases v
  {
    assert At(v, []) == Some(v);
    var kids := Children(v);
    forall i | 0 <= i < |kids| ensures IsTree(kids[i].value, strict) {
      forall path | At(kids[i].value, path).Some? ensures Fits(At(kids[i].value, path).value, strict) {
        FittingChild(v, strict, i, path);
      }
      FitsTree(kids[i].value, strict);
    }
  }

  /** A value is what Go can hold, or what json.Unmarshal produces, exactly if all its nodes are. */
  lemma TreeIff(v: Json, strict: bool)
    ensures IsTree(v, strict) <==> AllFit(v, strict)
  {
    if IsTree(v, strict) {
      forall path | At(v, path).Some? ensures Fits(At(v, path).value, strict) { TreeFits(v, strict, path); }
    } else if AllFit(v, strict) {
      FitsTree(v, strict);
    }
  }
}
