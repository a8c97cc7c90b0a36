/** When the map of `{#: path}` loses matches: two key tuples that print alike share one entry
    (jsonpath/placeholder.go). */
module Collisions {
  import opened Sequences
  import opened Values
  import opened Documents
  import opened Selectors
  import opened Descent
  import opened Paths
  import opened Picks
  import opened FullTrees
  import opened Reaching
  import opened Soundness
  import opened Placeholders
  import opened Syntax

  // ---- Tuples that print alike ----

  /** The tuple that captures only "x", and nothing for every `..`. */
  function Blank(segments: seq<Segment>): seq<Key> {
    if segments == [] then []
    else
      var init := Blank(segments[..|segments| - 1]);
      match segments[|segments| - 1]
      case Single(_) => init
      case Branch(sel) => init + [if sel.Descend? then Many([]) else One("x")]
  }

  /** One `..`, the first or the last, captures "x" as well. */
  function OneTaken(segments: seq<Segment>, first: bool): seq<Key>
    requires DescendCount(segments) >= 1
  {
    var init, last := segments[..|segments| - 1], segments[|segments| - 1];
    if last.Single? then OneTaken(init, first)
    else if !last.sel.Descend? then OneTaken(init, first) + [One("x")]
    else if first && DescendCount(init) >= 1 then OneTaken(init, first) + [Many([])]
    else Blank(init) + [Many([One("x")])]
  }

  predicate OnlyXs(names: seq<string>, n: nat) {
    |names| == n && forall i | 0 <= i < n :: names[i] == "x"
  }

  lemma SameXs(a: seq<string>, b: seq<string>, n: nat)
    requires OnlyXs(a, n) && OnlyXs(b, n)
    ensures a == b
  {}

  lemma FlattenSmall()
    ensures FlattenKey(Many([])) == [] && FlattenKey(Many([One("x")])) == ["x"] && FlattenKey(One("x")) == ["x"]
  {
    FlattenOnes([]);
    FlattenOnes(["x"]);
    assert Ones([]) == [] && Ones(["x"]) == [One("x")];
  }

  lemma SnocXs(keys: seq<Key>, key: Key, n: nat)
    requires OnlyXs(Flatten(keys), n) && key in {One("x"), Many([]), Many([One("x")])}
    ensures OnlyXs(Flatten(keys + [key]), if key == Many([]) then n else n + 1)
  {
    FlattenSmall();
    FlattenSnoc(keys, key);
  }

  lemma SnocShaped(segments: seq<Segment>, keys: seq<Key>, key: Key)
    requires segments != [] && segments[|segments| - 1].Branch? && Shaped(segments[..|segments| - 1], keys)
    requires if segments[|segments| - 1].sel.Descend? then IsDescentKey(key) else key.One?
    ensures Shaped(segments, keys + [key])
  {
    assert (keys + [key])[..|keys|] == keys;
  }

  lemma Counts(segments: seq<Segment>)
    requires segments != []
    ensures var init, last := segments[..|segments| - 1], segments[|segments| - 1];
            && (last.Single? ==> BranchCount(segments) == BranchCount(init)
                                 && DescendCount(segments) == DescendCount(init))
            && (last.Branch? ==> BranchCount(segments) == BranchCount(init) + 1
                                 && DescendCount(segments) == DescendCount(init) + if last.sel.Descend? then 1 else 0)
  {}

  /** A tuple of the path that flattens to that many "x" more than there are branches other than `..`. */
  ghost predicate IsXTuple(segments: seq<Segment>, keys: seq<Key>, more: nat) {
    DescendCount(segments) <= BranchCount(segments) && Shaped(segments, keys)
    && OnlyXs(Flatten(keys), BranchCount(segments) - DescendCount(segments) + more)
  }

  lemma XTupleSnoc(segments: seq<Segment>, keys: seq<Key>, more: nat, key: Key)
    requires segments != [] && segments[|segments| - 1].Branch? && IsXTuple(segments[..|segments| - 1], keys, more)
    requires if segments[|segments| - 1].sel.Descend? then key in {Many([]), Many([One("x")])} else key == One("x")
    ensures IsXTuple(segments, keys + [key], if key == Many([One("x")]) then more + 1 else more)
  {
    var init := segments[..|segments| - 1];
    Counts(segments);
    SnocShaped(segments, keys, key);
    SnocXs(keys, key, BranchCount(init) - DescendCount(init) + more);
  }

  lemma {:induction false} BlankTuple(segments: seq<Segment>)
    ensures IsXTuple(segments, Blank(segments), 0)
  {
    if segments != [] {
      var init, last := segments[..|segments| - 1], segments[|segments| - 1];
      BlankTuple(init);
      if last.Branch? {
        XTupleSnoc(segments, Blank(init), 0, if last.sel.Descend? then Many([]) else One("x"));
      } else {
        Counts(segments);
      }
    }
  }

  lemma {:induction false} TakenTuple(segments: seq<Segment>, first: bool)
    requires DescendCount(segments) >= 1
    ensures IsXTuple(segments, OneTaken(segments, first), 1)
  {
    var init, last := segments[..|segments| - 1], segments[|segments| - 1];
    Counts(segments);
    if last.Single? {
      TakenTuple(init, first);
    } else if !last.sel.Descend? {
      TakenTuple(init, first);
      XTupleSnoc(segments, OneTaken(init, first), 1, One("x"));
    } else if first && DescendCount(init) >= 1 {
      TakenTuple(init, first);
      XTupleSnoc(segments, OneTaken(init, first), 1, Many([]));
    } else {
      BlankTuple(init);
      XTupleSnoc(segments, Blank(init), 0, Many([One("x")]));
    }
  }

  lemma {:induction false} TakenDiffer(segments: seq<Segment>)
    requires DescendCount(segments) >= 2
    ensures OneTaken(segments, true) != OneTaken(segments, false)
  {
    var init, last := segments[..|segments| - 1], segments[|segments| - 1];
    var a, b := OneTaken(segments, true), OneTaken(segments, false);
    if last.Branch? && last.sel.Descend? {
      assert a[|a| - 1] == Many([]) && b[|b| - 1] == Many([One("x")]);
    } else {
      TakenDiffer(init);
      if last.Branch? {
        assert a[..|a| - 1] == OneTaken(init, true) && b[..|b| - 1] == OneTaken(init, false);
      }
    }
  }

  /** Two `..` leave room for two tuples with the same names. */
  lemma TwoAlike(segments: seq<Segment>) returns (a: seq<Key>, b: seq<Key>, n: nat)
    requires DescendCount(segments) >= 2
    ensures Shaped(segments, a) && Shaped(segments, b) && a != b
    ensures OnlyXs(Flatten(a), n) && Flatten(b) == Flatten(a)
  {
    a, b := OneTaken(segments, true), OneTaken(segments, false);
    TakenTuple(segments, true);
    TakenTuple(segments, false);
    TakenDiffer(segments);
    n := BranchCount(segments) - DescendCount(segments) + 1;
    SameXs(Flatten(a), Flatten(b), n);
  }

  /** Tuples of one path print alike only if they are equal: that holds exactly for the paths with
      at most one `..`. */
  lemma PrintsApartIff(isPrint: char -> bool, segments: seq<Segment>)
    ensures (forall a, b | Shaped(segments, a) && Shaped(segments, b) :: PrintedApart(isPrint, a, b))
            <==> DescendCount(segments) <= 1
  {
    if DescendCount(segments) <= 1 {
      forall a, b | Shaped(segments, a) && Shaped(segments, b) ensures PrintedApart(isPrint, a, b) {
        SelectKeyEqualIffFlattenEqual(isPrint, a, b);
        if Flatten(a) == Flatten(b) { FlattenInjective(segments, a, b); }
      }
    } else {
      var a, b, n := TwoAlike(segments);
      SelectKeyEqualIffFlattenEqual(isPrint, a, b);
      assert !PrintedApart(isPrint, a, b);
    }
  }

  // ---- Documents that lose a match ----

  lemma XsIn(keys: seq<Key>, n: nat, names: seq<string>)
    requires OnlyXs(Flatten(keys), n) && "x" in names
    ensures AllIn(Flatten(keys), names) && |Flatten(keys)| == n
  {}

  lemma XsCaptured(picks: seq<Pick>, keys: seq<Key>, n: nat, current: Json, names: seq<string>, root: Json)
    requires AllSimple(picks) && NamesIn(picks, names) && Distinct(names) && "x" in names
    requires Shaped(ToSegments(picks), keys) && OnlyXs(Flatten(keys), n)
    requires root == Full(names, NameCount(picks) + n)
    ensures keys in Tuples(ToSegments(picks), current, root)
  {
    XsIn(keys, n, names);
    TupleIsCaptured(picks, keys, current, names, root, NameCount(picks) + n);
  }

  lemma CollideIn(isPrint: char -> bool, picks: seq<Pick>, current: Json) returns (root: Json)
    requires AllSimple(picks) && DescendCount(ToSegments(picks)) >= 2
    ensures IsDocument(root)
    ensures |SelectMap(isPrint, Build(ToSegments(picks)), current, root)| < |Tuples(ToSegments(picks), current, root)|
  {
    var a, b, n := TwoAlike(ToSegments(picks));
    SelectKeyEqualIffFlattenEqual(isPrint, a, b);
    var names := NamesOf(picks);
    NamesOfHolds(picks);
    root := Full(names, NameCount(picks) + n);
    FullIsDocument(names, NameCount(picks) + n);
    XsCaptured(picks, a, n, current, names, root);
    XsCaptured(picks, b, n, current, names, root);
    FewerEntries(isPrint, ToSegments(picks), current, root, a, b);
  }

  /** For paths of names, stars and `..`: no document ever loses a match if and only if there is at
      most one `..`. */
  lemma LosesNothingIff(isPrint: char -> bool, picks: seq<Pick>, current: Json)
    requires AllSimple(picks) && IsGoValue(current)
    ensures (forall root | IsDocument(root) :: LosesNothing(isPrint, picks, current, root))
            <==> DescendCount(ToSegments(picks)) <= 1
  {
    if DescendCount(ToSegments(picks)) <= 1 {
      forall root | IsDocument(root) ensures LosesNothing(isPrint, picks, current, root) {
        TreeIsGoValue(root, true);
        NoMatchLost(isPrint, ToSegments(picks), current, root);
      }
    } else {
      var root := CollideIn(isPrint, picks, current);
      assert !LosesNothing(isPrint, picks, current, root);
    }
  }

  predicate LosesNothing(isPrint: char -> bool, picks: seq<Pick>, current: Json, root: Json) {
    |SelectMap(isPrint, Build(ToSegments(picks)), current, root)| == |Tuples(ToSegments(picks), current, root)|
  }

  // ---- A path and a document that lose a match ----

  /** One `..` and the name after it, from a pending value on. */
  lemma DescendToName(init: seq<Segment>, all: seq<Segment>, name: string, current: Json, root: Json, p: Pending,
                      path: seq<string>, w: Json, x: Json)
    requires all == init + [Branch(Descend), Single(Direct(ConstKey(name)))]
    requires p in Pendings(init, current, root) && Settled(p)
    requires At(p.value.value, path) == Some(w) && w.Object? && Find(w.members, name) == Some(x)
    ensures Pending(p.keys + [Many(Ones(path))], Ok(x), true) in Pendings(all, current, root)
  {
    var q := Pending(p.keys + [Many(Ones(path))], Ok(w), false);
    var sel := Direct(ConstKey(name));
    DescendStep(init, current, root, p, path, w);
    PlainInto(init + [Branch(Descend)], sel, current, root, q);
    NameStep(name, current, root, q, x);
    Associate(init, [Branch(Descend)], [Single(sel)]);
    assert [Branch(Descend)] + [Single(sel)] == [Branch(Descend), Single(sel)];
  }

  /** The path `$..x..y` as written. */
  function TwoDescents(): seq<Form> { [DescendName("x"), DescendName("y")] }

  const INNER: Json := Object([Member("q", Object([Member("y", Number(1.0))]))])
  const OUTER: Json := Object([Member("x", Object([Member("y", Number(2.0))]))])

  /** The document {"p": {"x": {"q": {"y": 1}}, "q": {"x": {"y": 2}}}}. */
  const TWICE: Json := Object([Member("p", Object([Member("x", INNER), Member("q", OUTER)]))])

  lemma TwiceIsDocument()
    ensures IsDocument(TWICE)
  {
    var kids := [Member("x", INNER), Member("q", OUTER)];
    assert IsDocument(Number(1.0)) && IsDocument(Number(2.0));
    assert IsDocument(INNER.members[0].value) && IsDocument(OUTER.members[0].value);
    assert IsDocument(INNER) && IsDocument(OUTER);
    assert IsDocument(Object(kids));
  }

  lemma PathSegments()
    ensures DenoteAll(TwoDescents())
         == [Branch(Descend), Single(Direct(ConstKey("x"))), Branch(Descend), Single(Direct(ConstKey("y")))]
  {
    assert TwoDescents()[1..] == [DescendName("y")] && [DescendName("y")][1..] == [];
    assert DenoteAll([DescendName("y")]) == Denote(DescendName("y")) + DenoteAll([]);
  }

  lemma FindFirst(members: seq<Member>, key: string, v: Json)
    requires members != [] && members[0] == Member(key, v)
    ensures Find(members, key) == Some(v)
  {}

  lemma FindSecond(members: seq<Member>, key: string, v: Json)
    requires |members| == 2 && members[0].key != key && members[1] == Member(key, v)
    ensures Find(members, key) == Some(v)
  {
    FindFirst(members[1..], key, v);
  }

  lemma AtOne(v: Json, key: string, w: Json)
    requires v.Object? && Find(v.members, key) == Some(w)
    ensures At(v, [key]) == Some(w)
  {
    assert [key][1..] == [] && At(w, []) == Some(w);
    assert At(v, [key]) == AtChild(v.members, [key]);
  }

  lemma AtTwo(v: Json, a: string, w: Json, b: string, x: Json)
    requires v.Object? && Find(v.members, a) == Some(w) && At(w, [b]) == Some(x)
    ensures At(v, [a, b]) == Some(x)
  {
    assert [a, b][1..] == [b];
  }

  lemma NodesOfTwice()
    ensures At(TWICE, ["p"]) == Some(TWICE.members[0].value)
    ensures At(TWICE, ["p", "q"]) == Some(OUTER)
    ensures At(INNER, ["q"]) == Some(INNER.members[0].value)
    ensures Find(TWICE.members[0].value.members, "x") == Some(INNER)
  {
    var p := TWICE.members[0].value;
    FindFirst(TWICE.members, "p", p);
    FindFirst(p.members, "x", INNER);
    FindSecond(p.members, "q", OUTER);
    FindFirst(INNER.members, "q", INNER.members[0].value);
    AtOne(TWICE, "p", p);
    AtOne(p, "q", OUTER);
    AtTwo(TWICE, "p", p, "q", OUTER);
    AtOne(INNER, "q", INNER.members[0].value);
  }

  /** Both y's match, one below each x. */
  lemma BothMatch(current: Json)
    ensures var ms := Matches(DenoteAll(TwoDescents()), current, TWICE);
            && Match([Many(Ones(["p"])), Many(Ones(["q"]))], Number(1.0)) in ms
            && Match([Many(Ones(["p", "q"])), Many(Ones([]))], Number(2.0)) in ms
  {
    var first, second := INNER.members[0].value, OUTER.members[0].value;
    var x, all := [Branch(Descend), Single(Direct(ConstKey("x")))], DenoteAll(TwoDescents());
    PathSegments();
    assert all == x + [Branch(Descend), Single(Direct(ConstKey("y")))];
    NodesOfTwice();
    FindFirst(first.members, "y", Number(1.0));
    BelowX(current, TWICE, x, ["p"], TWICE.members[0].value, INNER);
    MatchBelow(current, TWICE, x, all, Many(Ones(["p"])), INNER, ["q"], first, Number(1.0));
    FindFirst(OUTER.members, "x", second);
    FindFirst(second.members, "y", Number(2.0));
    assert At(second, []) == Some(second);
    BelowX(current, TWICE, x, ["p", "q"], OUTER, second);
    MatchBelow(current, TWICE, x, all, Many(Ones(["p", "q"])), second, [], second, Number(2.0));
  }

  lemma BelowX(current: Json, root: Json, x: seq<Segment>, a: seq<string>, v: Json, vx: Json)
    requires x == [Branch(Descend), Single(Direct(ConstKey("x")))] && !root.Undefined?
    requires At(root, a) == Some(v) && v.Object? && Find(v.members, "x") == Some(vx)
    ensures Pending([Many(Ones(a))], Ok(vx), true) in Pendings(x, current, root)
  {
    var start := Pending([], Ok(root), true);
    assert Pendings([], current, root) == [start] && start in [start];
    assert [] + x == x && [] + [Many(Ones(a))] == [Many(Ones(a))];
    DescendToName([], x, "x", current, root, start, a, v, vx);
  }

  lemma MatchBelow(current: Json, root: Json, x: seq<Segment>, all: seq<Segment>, key: Key, vx: Json,
                   b: seq<string>, w: Json, wy: Json)
    requires all == x + [Branch(Descend), Single(Direct(ConstKey("y")))]
    requires Pending([key], Ok(vx), true) in Pendings(x, current, root) && !vx.Undefined?
    requires At(vx, b) == Some(w) && w.Object? && Find(w.members, "y") == Some(wy) && !wy.Undefined?
    ensures Match([key, Many(Ones(b))], wy) in Matches(all, current, root)
  {
    DescendToName(x, all, "y", current, root, Pending([key], Ok(vx), true), b, w, wy);
    assert [key] + [Many(Ones(b))] == [key, Many(Ones(b))];
    SettledInto(Pendings(all, current, root), Pending([key, Many(Ones(b))], Ok(wy), true));
  }

  lemma FlattenTwo(a: seq<string>, b: seq<string>)
    ensures Flatten([Many(Ones(a)), Many(Ones(b))]) == a + b
  {
    FlattenOnes(a);
    FlattenOnes(b);
    FlattenSnoc([Many(Ones(a))], Many(Ones(b)));
    FlattenSnoc([], Many(Ones(a)));
    assert [] + [Many(Ones(a))] == [Many(Ones(a))];
    assert [Many(Ones(a))] + [Many(Ones(b))] == [Many(Ones(a)), Many(Ones(b))];
  }

  lemma TwoTuplesPrintAlike(isPrint: char -> bool, a: seq<Key>, b: seq<Key>)
    requires a == [Many(Ones(["p"])), Many(Ones(["q"]))] && b == [Many(Ones(["p", "q"])), Many(Ones([]))]
    ensures !PrintedApart(isPrint, a, b)
  {
    FlattenTwo(["p"], ["q"]);
    FlattenTwo(["p", "q"], []);
    assert ["p"] + ["q"] == ["p", "q"] + [];
    SelectKeyEqualIffFlattenEqual(isPrint, a, b);
    assert |a[0].keys| == 1 && |b[0].keys| == 2;
  }

  lemma TwoDescentsParse()
    ensures ParsePath(PrintAll(TwoDescents())) == Ok(Parsed(DenoteAll(TwoDescents()), []))
  {
    var tokens := PrintAll(TwoDescents());
    ParseRoundTrip(TwoDescents(), []);
    assert tokens + [] == tokens;
  }

  /** Two `..` lose a match: the path `$..x..y`, which the parser accepts, finds two values in this
      document under tuples that print alike, and the map has fewer entries than there are tuples. */
  lemma TwoDescentsCollide(isPrint: char -> bool, current: Json)
    ensures IsDocument(TWICE)
    ensures ParsePath(PrintAll(TwoDescents())) == Ok(Parsed(DenoteAll(TwoDescents()), []))
    ensures var segments := DenoteAll(TwoDescents());
            |SelectMap(isPrint, Build(segments), current, TWICE)| < |Tuples(segments, current, TWICE)|
  {
    var segments := DenoteAll(TwoDescents());
    var tuples := Tuples(segments, current, TWICE);
    var a, b := [Many(Ones(["p"])), Many(Ones(["q"]))], [Many(Ones(["p", "q"])), Many(Ones([]))];
    TwiceIsDocument();
    TwoDescentsParse();
    assert a in tuples && b in tuples by { BothMatch(current); }
    TwoTuplesPrintAlike(isPrint, a, b);
    FewerEntries(isPrint, segments, current, TWICE, a, b);
  }

  lemma FewerEntries(isPrint: char -> bool, segments: seq<Segment>, current: Json, root: Json, a: seq<Key>, b: seq<Key>)
    requires a in Tuples(segments, current, root) && b in Tuples(segments, current, root)
    requires !PrintedApart(isPrint, a, b)
    ensures |SelectMap(isPrint, Build(segments), current, root)| < |Tuples(segments, current, root)|
  {
    NothingLostIff(isPrint, segments, current, root);
    EntriesArePrinted(isPrint, segments, current, root);
    PrintedSize(isPrint, Tuples(segments, current, root));
  }
}
