/** Documents in which everything that could match does: complete trees over a set of keys. */
module FullTrees {
  import opened Sequences
  import opened Values
  import opened Documents
  import opened Selectors
  import opened Descent
  import opened Paths
  import opened Picks
  import opened Exactness
  import opened Soundness
  import opened Placeholders

  predicate Distinct(names: seq<string>) {
    forall i, j | 0 <= i < j < |names| :: names[i] != names[j]
  }

  function MembersFor(names: seq<string>, v: Json): (members: seq<Member>)
    ensures |members| == |names| && forall i | 0 <= i < |members| :: members[i] == Member(names[i], v)
  {
    seq(|names|, i requires 0 <= i < |names| => Member(names[i], v))
  }

  /** Every node above the leaves has one member for each name. */
  function Full(names: seq<string>, depth: nat): Json {
    if depth == 0 then Null else Object(MembersFor(names, Full(names, depth - 1)))
  }

  lemma NodeIsDocument(names: seq<string>, v: Json)
    requires Distinct(names) && IsDocument(v)
    ensures IsDocument(Object(MembersFor(names, v)))
  {
    var node := Object(MembersFor(names, v));
    forall i | 0 <= i < |Children(node)| ensures IsDocument(Children(node)[i].value) {
      assert Children(node)[i] == Member(names[i], v);
    }
  }

  lemma {:induction false} FullIsDocument(names: seq<string>, depth: nat)
    requires Distinct(names)
    ensures IsDocument(Full(names, depth))
  {
    if depth > 0 {
      FullIsDocument(names, depth - 1);
      NodeIsDocument(names, Full(names, depth - 1));
    }
  }

  lemma FindInFull(names: seq<string>, v: Json, name: string) returns (i: nat)
    requires Distinct(names) && name in names
    ensures Find(MembersFor(names, v), name) == Some(v)
    ensures i < |names| && MembersFor(names, v)[i] == Member(name, v)
  {
    i :| 0 <= i < |names| && names[i] == name;
    FindMember(MembersFor(names, v), i);
  }

  lemma AtMember(members: seq<Member>, path: seq<string>, w: Json)
    requires path != [] && Find(members, path[0]) == Some(w)
    ensures At(Object(members), path) == At(w, path[1..])
  {}

  lemma FullNode(names: seq<string>, depth: nat)
    requires depth > 0
    ensures Full(names, depth) == Object(MembersFor(names, Full(names, depth - 1)))
  {}

  lemma {:induction false} AtInFull(names: seq<string>, depth: nat, path: seq<string>, left: nat)
    requires Distinct(names) && |path| + left == depth && AllIn(path, names)
    ensures At(Full(names, depth), path) == Some(Full(names, left))
  {
    if path == [] {
      assert depth == left;
    } else {
      var above, rest := depth - 1, path[1..];
      var i := FindInFull(names, Full(names, above), path[0]);
      FullNode(names, depth);
      AtMember(MembersFor(names, Full(names, above)), path, Full(names, above));
      assert |rest| + left == above;
      AtInFull(names, above, rest, left);
    }
  }

  function NameCount(picks: seq<Pick>): nat {
    if picks == [] then 0
    else NameCount(picks[..|picks| - 1]) + if picks[|picks| - 1].Name? then 1 else 0
  }

  predicate NamesIn(picks: seq<Pick>, names: seq<string>) {
    forall i | 0 <= i < |picks| && picks[i].Name? :: picks[i].name in names
  }

  predicate AllIn(path: seq<string>, names: seq<string>) { forall i | 0 <= i < |path| :: path[i] in names }

  lemma AllInAppend(a: seq<string>, b: seq<string>, names: seq<string>)
    ensures AllIn(a + b, names) <==> AllIn(a, names) && AllIn(b, names)
  {
    if AllIn(a + b, names) {
      forall i | 0 <= i < |a| ensures a[i] in names { assert (a + b)[i] == a[i]; }
      forall i | 0 <= i < |b| ensures b[i] in names { assert (a + b)[|a| + i] == b[i]; }
    }
  }

  /** The address of a tuple over the names stays among them and is as long as it has names. */
  lemma {:induction false} AddressIn(picks: seq<Pick>, keys: seq<Key>, names: seq<string>)
    requires NamesIn(picks, names) && Shaped(ToSegments(picks), keys) && AllIn(Flatten(keys), names)
    ensures AllIn(Place(picks, keys), names) && |Place(picks, keys)| == NameCount(picks) + |Flatten(keys)|
  {
    if picks != [] {
      var init, last := picks[..|picks| - 1], picks[|picks| - 1];
      assert ToSegments(picks)[..|picks| - 1] == ToSegments(init);
      if last.Name? {
        AddressIn(init, keys, names);
        AllInAppend(Place(init, keys), [last.name], names);
      } else {
        var front, key := keys[..|keys| - 1], keys[|keys| - 1];
        SplitLast(keys);
        FlattenSnoc(front, key);
        AllInAppend(Flatten(front), FlattenKey(key), names);
        AddressIn(init, front, names);
        AllInAppend(Place(init, front), FlattenKey(key), names);
      }
    }
  }

  /** In the tree of its depth, every tuple of the path's shape over the tree's keys is captured. */
  lemma TupleIsCaptured(picks: seq<Pick>, keys: seq<Key>, current: Json, names: seq<string>, root: Json, depth: nat)
    requires AllSimple(picks) && NamesIn(picks, names) && Distinct(names)
    requires Shaped(ToSegments(picks), keys) && AllIn(Flatten(keys), names)
    requires depth == NameCount(picks) + |Flatten(keys)| && root == Full(names, depth)
    ensures keys in Tuples(ToSegments(picks), current, root)
  {
    var m := Match(keys, Full(names, 0));
    AddressIn(picks, keys, names);
    AtInFull(names, depth, Place(picks, keys), 0);
    FullIsDocument(names, depth);
    PlacedMatches(picks, current, root, m);
    assert m in Matches(ToSegments(picks), current, root);
  }

  /** The names of a path, and "x", each once. */
  function NamesOf(picks: seq<Pick>): (names: seq<string>)
    ensures Distinct(names) && "x" in names
  {
    if picks == [] then ["x"]
    else
      var names, last := NamesOf(picks[..|picks| - 1]), picks[|picks| - 1];
      if last.Name? && last.name !in names then names + [last.name] else names
  }

  lemma {:induction false} NamesOfHolds(picks: seq<Pick>)
    ensures NamesIn(picks, NamesOf(picks))
  {
    if picks != [] {
      var init, last := picks[..|picks| - 1], picks[|picks| - 1];
      NamesOfHolds(init);
      forall i | 0 <= i < |picks| && picks[i].Name? ensures picks[i].name in NamesOf(picks) {
        if i < |init| { assert init[i].name in NamesOf(init); }
      }
    }
  }
}
