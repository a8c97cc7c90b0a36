/** What `..` visits: every node of a JSON tree, once, parents first. */
module Descent {
  import opened Values
  import opened Documents
  import opened Selectors

  /** The node a list of keys leads to, stepping from child to child. */
  function At(v: Json, path: seq<string>): Option<Json>
    decreases path
  {
    if path == [] then Some(v) else AtChild(Children(v), path)
  }

  function AtChild(kids: seq<Member>, path: seq<string>): Option<Json>
    requires path != []
    decreases path, 0
  {
    match Find(kids, path[0])
    case Some(kid) => At(kid, path[1..])
    case None => None
  }

  /** The number of nodes of a JSON tree. */
  function Size(v: Json): nat
    decreases v, 0
  {
    1 + SizeOf(v, Children(v))
  }

  function SizeOf(ghost parent: Json, kids: seq<Member>): nat
    requires forall i | 0 <= i < |kids| :: kids[i].value < parent
    decreases parent, 0, |kids|
  {
    if kids == [] then 0 else Size(kids[0].value) + SizeOf(parent, kids[1..])
  }

  predicate AllTrees(kids: seq<Member>, strict: bool) {
    forall i | 0 <= i < |kids| :: IsTree(kids[i].value, strict)
  }

  lemma FindTail(kids: seq<Member>, key: string)
    requires DistinctKeys(kids) && kids != [] && Find(kids[1..], key).Some?
    ensures Find(kids, key) == Find(kids[1..], key)
  {
    var r := Find(kids[1..], key);
    var i :| 0 <= i < |kids[1..]| && kids[1..][i] == Member(key, r.value);
    assert kids[i + 1].key == key;
  }

  /** The reported value is the node at the reported key list. */
  lemma {:induction false} DescendantsAreNodes(v: Json, n: Node)
    requires IsGoValue(v) && n in Descendants(v)
    ensures At(v, n.path) == Some(n.value)
    decreases v, 0
  {
    if n != Node([], v) {
      assert n in DescendantsOf(v, Children(v));
      ChildKeysDistinct(v);
      DescendantsOfAreNodes(v, Children(v), n);
    }
  }

  lemma {:induction false} DescendantsOfAreNodes(parent: Json, kids: seq<Member>, n: Node)
    requires forall i | 0 <= i < |kids| :: kids[i].value < parent
    requires DistinctKeys(kids) && AllTrees(kids, false) && n in DescendantsOf(parent, kids)
    ensures n.path != [] && AtChild(kids, n.path) == Some(n.value)
    decreases parent, 0, |kids|
  {
    var under := Under(kids[0].key, Descendants(kids[0].value));
    if n in under {
      var i :| 0 <= i < |under| && under[i] == n;
      var m := Descendants(kids[0].value)[i];
      DescendantsAreNodes(kids[0].value, m);
      FindMember(kids, 0);
      assert n.path[1..] == m.path;
    } else {
      assert n in DescendantsOf(parent, kids[1..]);
      DescendantsOfAreNodes(parent, kids[1..], n);
      FindTail(kids, n.path[0]);
    }
  }

  /** Every key list that leads to a node is reported with that node. */
  lemma {:induction false} NodesAreDescendants(v: Json, path: seq<string>, w: Json)
    requires At(v, path) == Some(w)
    ensures Node(path, w) in Descendants(v)
    decreases v, 0
  {
    if path != [] {
      NodesAreDescendantsOf(v, Children(v), path, w);
    } else {
      assert Descendants(v)[0] == Node(path, w);
    }
  }

  lemma {:induction false} NodesAreDescendantsOf(parent: Json, kids: seq<Member>, path: seq<string>, w: Json)
    requires forall i | 0 <= i < |kids| :: kids[i].value < parent
    requires path != [] && AtChild(kids, path) == Some(w)
    ensures Node(path, w) in DescendantsOf(parent, kids)
    decreases parent, 0, |kids|
  {
    if kids[0].key == path[0] {
      NodesAreDescendants(kids[0].value, path[1..], w);
      var nodes := Descendants(kids[0].value);
      var i :| 0 <= i < |nodes| && nodes[i] == Node(path[1..], w);
      assert [path[0]] + path[1..] == path;
      assert Under(kids[0].key, nodes)[i] == Node(path, w);
      assert DescendantsOf(parent, kids)[i] == Node(path, w);
    } else {
      NodesAreDescendantsOf(parent, kids[1..], path, w);
    }
  }

  function Parent(path: seq<string>): seq<string>
    requires path != []
  {
    path[..|path| - 1]
  }

  predicate HasBefore(ds: seq<Node>, j: nat, path: seq<string>)
    requires j <= |ds|
  {
    exists i | 0 <= i < j :: ds[i].path == path
  }

  predicate DistinctPaths(ds: seq<Node>) {
    forall i, j | 0 <= i < j < |ds| :: ds[i].path != ds[j].path
  }

  /** Below depth `top`, every node comes after its parent. */
  predicate ParentsFirst(ds: seq<Node>, top: nat) {
    forall j | 0 <= j < |ds| && |ds[j].path| > top :: HasBefore(ds, j, Parent(ds[j].path))
  }

  lemma RootFirstDistinct(root: Node, rest: seq<Node>)
    requires root.path == [] && DistinctPaths(rest) && forall j | 0 <= j < |rest| :: rest[j].path != []
    ensures DistinctPaths([root] + rest)
  {
    var ds := [root] + rest;
    forall i, j | 0 <= i < j < |ds| ensures ds[i].path != ds[j].path {
      assert ds[j] == rest[j - 1];
      if i > 0 { assert ds[i] == rest[i - 1]; }
    }
  }

  lemma RootFirstParents(root: Node, rest: seq<Node>)
    requires root.path == [] && ParentsFirst(rest, 1)
    ensures ParentsFirst([root] + rest, 0)
  {
    var ds := [root] + rest;
    forall j | 0 <= j < |ds| && |ds[j].path| > 0 ensures HasBefore(ds, j, Parent(ds[j].path)) {
      assert ds[j] == rest[j - 1];
      if |ds[j].path| == 1 {
        assert ds[0].path == Parent(ds[j].path);
      } else {
        var i :| 0 <= i < j - 1 && rest[i].path == Parent(rest[j - 1].path);
        assert ds[i + 1].path == Parent(ds[j].path);
      }
    }
  }

  /** No key list is reported twice, a node comes after its parent, and every node is counted. */
  lemma {:induction false} DescendantsOrder(v: Json)
    requires IsGoValue(v)
    ensures DistinctPaths(Descendants(v)) && ParentsFirst(Descendants(v), 0)
    ensures |Descendants(v)| == Size(v)
    decreases v, 0
  {
    var rest := DescendantsOf(v, Children(v));
    ChildKeysDistinct(v);
    DescendantsOfOrder(v, Children(v));
    forall j | 0 <= j < |rest| ensures rest[j].path != [] {
      DescendantsOfAreNodes(v, Children(v), rest[j]);
    }
    RootFirstDistinct(Node([], v), rest);
    RootFirstParents(Node([], v), rest);
  }

  lemma {:induction false} DescendantsOfOrder(parent: Json, kids: seq<Member>)
    requires forall i | 0 <= i < |kids| :: kids[i].value < parent
    requires DistinctKeys(kids) && AllTrees(kids, false)
    ensures DistinctPaths(DescendantsOf(parent, kids)) && ParentsFirst(DescendantsOf(parent, kids), 1)
    ensures |DescendantsOf(parent, kids)| == SizeOf(parent, kids)
    decreases parent, 0, |kids|
  {
    if kids != [] {
      var nodes, rest := Descendants(kids[0].value), DescendantsOf(parent, kids[1..]);
      DescendantsOrder(kids[0].value);
      DescendantsOfOrder(parent, kids[1..]);
      forall j | 0 <= j < |rest| ensures rest[j].path != [] && rest[j].path[0] != kids[0].key {
        DescendantsOfAreNodes(parent, kids[1..], rest[j]);
        KeyOfChild(kids[1..], rest[j].path);
      }
      UnderDistinct(kids[0].key, nodes, rest);
      UnderParentsFirst(kids[0].key, nodes, rest);
    }
  }

  lemma UnderDistinct(key: string, nodes: seq<Node>, rest: seq<Node>)
    requires DistinctPaths(nodes) && DistinctPaths(rest)
    requires forall j | 0 <= j < |rest| :: rest[j].path != [] && rest[j].path[0] != key
    ensures DistinctPaths(Under(key, nodes) + rest)
  {
    var under := Under(key, nodes);
    var ds := under + rest;
    forall i, j | 0 <= i < j < |ds| ensures ds[i].path != ds[j].path {
      if j < |under| {
        assert ds[i].path[1..] == nodes[i].path && ds[j].path[1..] == nodes[j].path;
      } else if i >= |under| {
        assert ds[i] == rest[i - |under|] && ds[j] == rest[j - |under|];
      } else {
        assert ds[i].path[0] == key && ds[j] == rest[j - |under|];
      }
    }
  }

  lemma UnderHasBefore(key: string, nodes: seq<Node>, j: nat)
    requires j < |nodes| && nodes[j].path != [] && HasBefore(nodes, j, Parent(nodes[j].path))
    ensures HasBefore(Under(key, nodes), j, Parent(Under(key, nodes)[j].path))
  {
    var i :| 0 <= i < j && nodes[i].path == Parent(nodes[j].path);
    assert [key] + Parent(nodes[j].path) == Parent([key] + nodes[j].path);
    assert Under(key, nodes)[i].path == Parent(Under(key, nodes)[j].path);
  }

  lemma HasBeforeAppend(a: seq<Node>, b: seq<Node>, j: nat, path: seq<string>)
    requires j <= |b| && HasBefore(b, j, path)
    ensures HasBefore(a + b, |a| + j, path)
  {
    var i :| 0 <= i < j && b[i].path == path;
    assert (a + b)[|a| + i].path == path;
  }

  lemma UnderParentsFirst(key: string, nodes: seq<Node>, rest: seq<Node>)
    requires ParentsFirst(nodes, 0) && ParentsFirst(rest, 1)
    ensures ParentsFirst(Under(key, nodes) + rest, 1)
  {
    var under := Under(key, nodes);
    var ds := under + rest;
    forall j | 0 <= j < |ds| && |ds[j].path| > 1 ensures HasBefore(ds, j, Parent(ds[j].path)) {
      if j < |under| {
        assert nodes[j].path != [];
        UnderHasBefore(key, nodes, j);
        var i :| 0 <= i < j && under[i].path == Parent(under[j].path);
        assert ds[i].path == Parent(ds[j].path);
      } else {
        HasBeforeAppend(under, rest, j - |under|, Parent(ds[j].path));
      }
    }
  }

  lemma KeyOfChild(kids: seq<Member>, path: seq<string>)
    requires path != [] && AtChild(kids, path).Some?
    ensures exists i | 0 <= i < |kids| :: kids[i].key == path[0]
  {
    var kid := Find(kids, path[0]).value;
    var i :| 0 <= i < |kids| && kids[i] == Member(path[0], kid);
    assert kids[i].key == path[0];
  }

  /** mapper's calls are exactly the nodes of the tree under their key lists. */
  lemma DescendantsExact(v: Json, path: seq<string>, w: Json)
    requires IsGoValue(v)
    ensures Node(path, w) in Descendants(v) <==> At(v, path) == Some(w)
  {
    if Node(path, w) in Descendants(v) { DescendantsAreNodes(v, Node(path, w)); }
    if At(v, path) == Some(w) { NodesAreDescendants(v, path, w); }
  }
}
