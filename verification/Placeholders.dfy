/** jsonpath/placeholder.go: the object `{#: path}` maps printed wildcard keys to matches. */
module Placeholders {
  import opened Values
  import opened Documents
  import opened Selectors
  import opened Paths
  import opened Soundness
  import opened Quoting

  /** quoteWildcardValues: nested lists are written out in place. */
  function QuoteWildcards(isPrint: char -> bool, keys: seq<Key>): string
    decreases keys, 1
  {
    if keys == [] then "" else QuoteWildcard(isPrint, keys[0]) + QuoteWildcards(isPrint, keys[1..])
  }

  function QuoteWildcard(isPrint: char -> bool, key: Key): string
    decreases key, 0
  {
    match key
    case Many(inner) => QuoteWildcards(isPrint, inner)
    case One(name) => "[" + Quote(isPrint, name) + "]"
  }

  class Buffer {
    var text: string

    constructor ()
      ensures text == ""
    {
      text := "";
    }

    method WriteString(s: string)
      modifies this
      ensures text == old(text) + s
    {
      text := text + s;
    }
  }

  method WriteWildcards(isPrint: char -> bool, sb: Buffer, keys: seq<Key>)
    modifies sb
    ensures sb.text == old(sb.text) + QuoteWildcards(isPrint, keys)
    decreases keys
  {
    ghost var before, all := sb.text, QuoteWildcards(isPrint, keys);
    for i := 0 to |keys|
      invariant sb.text + QuoteWildcards(isPrint, keys[i..]) == before + all
    {
      ghost var written, rest := sb.text, QuoteWildcards(isPrint, keys[i + 1..]);
      assert keys[i..][1..] == keys[i + 1..];
      assert QuoteWildcards(isPrint, keys[i..]) == QuoteWildcard(isPrint, keys[i]) + rest;
      match keys[i] {
        case Many(inner) => WriteWildcards(isPrint, sb, inner);
        case One(name) => sb.WriteString("[" + Quote(isPrint, name) + "]");
      }
      assert written + (QuoteWildcard(isPrint, keys[i]) + rest) == written + QuoteWildcard(isPrint, keys[i]) + rest;
    }
    assert sb.text + "" == sb.text;
  }

  /** The value of the placeholder `#`. */
  function SelectKey(isPrint: char -> bool, keys: seq<Key>): string {
    "$" + QuoteWildcards(isPrint, keys)
  }

  method PrintSelectKey(isPrint: char -> bool, keys: seq<Key>) returns (s: string)
    ensures s == SelectKey(isPrint, keys)
  {
    var sb := new Buffer();
    sb.WriteString("$");
    WriteWildcards(isPrint, sb, keys);
    s := sb.text;
  }

  lemma {:induction false} QuoteWildcardsFlattens(isPrint: char -> bool, keys: seq<Key>)
    ensures QuoteWildcards(isPrint, keys) == QuoteAll(isPrint, Flatten(keys))
    decreases keys
  {
    if keys != [] {
      match keys[0] {
        case Many(inner) => QuoteWildcardsFlattens(isPrint, inner);
        case One(name) =>
          assert [name][1..] == [];
          assert QuoteAll(isPrint, [name]) == "[" + Quote(isPrint, name) + "]" + "";
      }
      QuoteWildcardsFlattens(isPrint, keys[1..]);
      QuoteAllAppend(isPrint, FlattenKey(keys[0]), Flatten(keys[1..]));
    }
  }

  /** Printing identifies key tuples exactly up to flattening. */
  lemma SelectKeyEqualIffFlattenEqual(isPrint: char -> bool, a: seq<Key>, b: seq<Key>)
    ensures SelectKey(isPrint, a) == SelectKey(isPrint, b) <==> Flatten(a) == Flatten(b)
  {
    QuoteWildcardsFlattens(isPrint, a);
    QuoteWildcardsFlattens(isPrint, b);
    if SelectKey(isPrint, a) == SelectKey(isPrint, b) {
      assert QuoteAll(isPrint, Flatten(a)) == SelectKey(isPrint, a)[1..];
      assert QuoteAll(isPrint, Flatten(b)) == SelectKey(isPrint, b)[1..];
      QuoteAllInjective(isPrint, Flatten(a), Flatten(b));
    }
  }

  // ---- The shape of captured key tuples ----

  predicate IsDescentKey(key: Key) {
    key.Many? && forall i | 0 <= i < |key.keys| :: key.keys[i].One?
  }

  /** One key per branch, in order: a list of names for `..`, a name for every other selector. */
  predicate Shaped(segments: seq<Segment>, keys: seq<Key>) {
    if segments == [] then keys == []
    else
      var init := segments[..|segments| - 1];
      match segments[|segments| - 1]
      case Single(_) => Shaped(init, keys)
      case Branch(sel) =>
        keys != [] && Shaped(init, keys[..|keys| - 1])
        && if sel.Descend? then IsDescentKey(keys[|keys| - 1]) else keys[|keys| - 1].One?
  }

  function DescendCount(segments: seq<Segment>): nat {
    if segments == [] then 0
    else
      var last := segments[|segments| - 1];
      DescendCount(segments[..|segments| - 1]) + if last.Branch? && last.sel.Descend? then 1 else 0
  }

  lemma {:induction false} MultiShape(keys: seq<Expr>, root: Json, v: Json, call: Call)
    requires call in MultiCalls(keys, root, v)
    ensures call.key.One?
  {
    if call !in MultiCall(keys[0], root, v) { MultiShape(keys[1..], root, v, call); }
  }

  lemma CallShape(sel: BranchSelector, root: Json, v: Json, call: Call)
    requires call in Calls(sel, root, v)
    ensures if sel.Descend? then IsDescentKey(call.key) else call.key.One?
  {
    if sel.Multi? && sel.keys != [] {
      MultiShape(sel.keys, root, v, call);
    } else if sel.Filter? {
      FilterCallIsChild(sel.filter, root, Children(v), call);
    } else if sel.Range? {
      RangeCallIsChild(sel.min, sel.max, sel.step, root, v, call);
    }
  }

  lemma {:induction false} PendingShape(segments: seq<Segment>, current: Json, root: Json, p: Pending)
    requires p in Pendings(segments, current, root)
    ensures Shaped(segments, p.keys)
  {
    if segments != [] {
      var init, last := segments[..|segments| - 1], segments[|segments| - 1];
      var q, call := StepFrom(last, current, root, Pendings(init, current, root), p);
      PendingShape(init, current, root, q);
      if last.Branch? {
        CallShape(last.sel, root, q.value.value, call);
        assert p.keys[..|p.keys| - 1] == q.keys;
      }
    }
  }

  lemma {:induction false} FlatLength(segments: seq<Segment>, keys: seq<Key>)
    requires Shaped(segments, keys) && DescendCount(segments) == 0
    ensures |Flatten(keys)| == BranchCount(segments)
  {
    if segments != [] {
      var init, last := segments[..|segments| - 1], segments[|segments| - 1];
      if last.Branch? {
        FlatLength(init, keys[..|keys| - 1]);
        assert keys == keys[..|keys| - 1] + [keys[|keys| - 1]];
        FlattenSnoc(keys[..|keys| - 1], keys[|keys| - 1]);
      } else {
        FlatLength(init, keys);
      }
    }
  }

  lemma DescentKeyFlattens(a: Key)
    requires IsDescentKey(a)
    ensures a == Many(Ones(FlattenKey(a)))
  {
    var names := seq(|a.keys|, i requires 0 <= i < |a.keys| => a.keys[i].name);
    assert a.keys == Ones(names);
    FlattenOnes(names);
  }

  /** With at most one `..`, the flattened names give the key tuple back. */
  lemma {:induction false} FlattenInjective(segments: seq<Segment>, a: seq<Key>, b: seq<Key>)
    requires Shaped(segments, a) && Shaped(segments, b) && DescendCount(segments) <= 1 && Flatten(a) == Flatten(b)
    ensures a == b
  {
    if segments != [] {
      var init, last := segments[..|segments| - 1], segments[|segments| - 1];
      if last.Branch? {
        var a', b', x, y := a[..|a| - 1], b[..|b| - 1], a[|a| - 1], b[|b| - 1];
        assert a == a' + [x] && b == b' + [y];
        FlattenSnoc(a', x);
        FlattenSnoc(b', y);
        if last.sel.Descend? {
          FlatLength(init, a');
          FlatLength(init, b');
          SplitEqual(Flatten(a'), FlattenKey(x), Flatten(b'), FlattenKey(y));
          DescentKeyFlattens(x);
          DescentKeyFlattens(y);
        } else {
          SplitEqual(Flatten(a'), FlattenKey(x), Flatten(b'), FlattenKey(y));
        }
        FlattenInjective(init, a', b');
      } else {
        FlattenInjective(init, a, b);
      }
    }
  }

  lemma SplitEqual(a: seq<string>, x: seq<string>, b: seq<string>, y: seq<string>)
    requires a + x == b + y && (|a| == |b| || |x| == |y|)
    ensures a == b && x == y
  {
    assert |a + x| == |a| + |x| && |b + y| == |b| + |y|;
    assert a == (a + x)[..|a|] && b == (b + y)[..|b|];
    assert x == (a + x)[|a|..] && y == (b + y)[|b|..];
  }

  // ---- The map ----

  function Store(isPrint: char -> bool): (map<string, Json>, seq<Key>, Json) -> map<string, Json> {
    (vs, keys, v) => vs[SelectKey(isPrint, keys) := v]
  }

  /** What `{#: path}` evaluates to: one assignment per reported match. */
  function SelectMap(isPrint: char -> bool, p: Path, current: Json, root: Json): map<string, Json> {
    VisitMatches(p, current, root, Store(isPrint), map[])
  }

  predicate Stored(isPrint: char -> bool, ms: seq<Match>, key: string, v: Json) {
    exists i | 0 <= i < |ms| :: SelectKey(isPrint, ms[i].keys) == key && ms[i].value == v
  }

  lemma {:induction false} FeedStore(isPrint: char -> bool, vs: map<string, Json>, ms: seq<Match>)
    ensures var r := FeedMatches(Store(isPrint), vs, ms);
            && (forall key | key in vs :: key in r)
            && (forall i | 0 <= i < |ms| :: SelectKey(isPrint, ms[i].keys) in r)
            && (forall key | key in r :: Stored(isPrint, ms, key, r[key]) || (key in vs && r[key] == vs[key]))
    decreases ms
  {
    if ms != [] {
      var vs', rest := vs[SelectKey(isPrint, ms[0].keys) := ms[0].value], ms[1..];
      FeedStore(isPrint, vs', rest);
      var r := FeedMatches(Store(isPrint), vs', rest);
      assert r == FeedMatches(Store(isPrint), vs, ms);
      forall i | 0 <= i < |ms| ensures SelectKey(isPrint, ms[i].keys) in r {
        if i > 0 { assert ms[i] == rest[i - 1]; }
      }
      forall key | key in r && !(key in vs && r[key] == vs[key]) ensures Stored(isPrint, ms, key, r[key]) {
        if Stored(isPrint, rest, key, r[key]) {
          var i :| 0 <= i < |rest| && SelectKey(isPrint, rest[i].keys) == key && rest[i].value == r[key];
          assert ms[i + 1] == rest[i];
        } else {
          assert SelectKey(isPrint, ms[0].keys) == key && ms[0].value == r[key];
        }
      }
    }
  }

  lemma SelectMapStores(isPrint: char -> bool, segments: seq<Segment>, current: Json, root: Json)
    ensures var ms, vs := Matches(segments, current, root), SelectMap(isPrint, Build(segments), current, root);
            && (forall i | 0 <= i < |ms| :: SelectKey(isPrint, ms[i].keys) in vs)
            && (forall key | key in vs :: Stored(isPrint, ms, key, vs[key]))
  {
    EngineRefinesMatches(segments, current, root, Store(isPrint), map[]);
    FeedStore(isPrint, map[], Matches(segments, current, root));
  }

  predicate PrintedApart(isPrint: char -> bool, a: seq<Key>, b: seq<Key>) {
    SelectKey(isPrint, a) == SelectKey(isPrint, b) ==> a == b
  }

  function Tuples(segments: seq<Segment>, current: Json, root: Json): set<seq<Key>> {
    set m | m in Matches(segments, current, root) :: m.keys
  }

  function Printed(isPrint: char -> bool, tuples: set<seq<Key>>): set<string> {
    set t | t in tuples :: SelectKey(isPrint, t)
  }

  /** The map has the printed tuples for keys, for every path. */
  lemma EntriesArePrinted(isPrint: char -> bool, segments: seq<Segment>, current: Json, root: Json)
    ensures SelectMap(isPrint, Build(segments), current, root).Keys == Printed(isPrint, Tuples(segments, current, root))
  {
    var ms, vs := Matches(segments, current, root), SelectMap(isPrint, Build(segments), current, root);
    SelectMapStores(isPrint, segments, current, root);
    forall key | key in vs.Keys ensures key in Printed(isPrint, Tuples(segments, current, root)) {
      var i :| 0 <= i < |ms| && SelectKey(isPrint, ms[i].keys) == key && ms[i].value == vs[key];
      assert ms[i] in ms && ms[i].keys in Tuples(segments, current, root);
    }
    forall t | t in Tuples(segments, current, root) ensures SelectKey(isPrint, t) in vs.Keys {
      var m :| m in ms && m.keys == t;
      var i :| 0 <= i < |ms| && ms[i] == m;
    }
  }

  lemma {:induction false} PrintedSize(isPrint: char -> bool, tuples: set<seq<Key>>)
    ensures |Printed(isPrint, tuples)| <= |tuples|
    ensures |Printed(isPrint, tuples)| == |tuples| <==>
            forall a, b | a in tuples && b in tuples :: PrintedApart(isPrint, a, b)
  {
    if tuples != {} {
      var t :| t in tuples;
      var rest, key := tuples - {t}, SelectKey(isPrint, t);
      PrintedSize(isPrint, rest);
      assert Printed(isPrint, tuples) == Printed(isPrint, rest) + {key};
      if key in Printed(isPrint, rest) {
        var u :| u in rest && SelectKey(isPrint, u) == key;
        assert !PrintedApart(isPrint, t, u);
        assert Printed(isPrint, tuples) == Printed(isPrint, rest);
      } else {
        assert forall u | u in rest :: SelectKey(isPrint, u) in Printed(isPrint, rest);
      }
    }
  }

  /** No match is lost exactly when no two captured tuples print alike, whatever the path. */
  lemma NothingLostIff(isPrint: char -> bool, segments: seq<Segment>, current: Json, root: Json)
    ensures var tuples := Tuples(segments, current, root);
            |SelectMap(isPrint, Build(segments), current, root)| == |tuples|
            <==> forall a, b | a in tuples && b in tuples :: PrintedApart(isPrint, a, b)
  {
    var vs := SelectMap(isPrint, Build(segments), current, root);
    EntriesArePrinted(isPrint, segments, current, root);
    PrintedSize(isPrint, Tuples(segments, current, root));
    assert |vs| == |vs.Keys|;
  }

  /** No match is lost: with at most one `..`, the map has exactly one entry per captured key
      tuple, and it holds that tuple's match. */
  lemma NoMatchLost(isPrint: char -> bool, segments: seq<Segment>, current: Json, root: Json)
    requires IsGoValue(root) && IsGoValue(current) && DescendCount(segments) <= 1
    ensures var ms, vs := Matches(segments, current, root), SelectMap(isPrint, Build(segments), current, root);
            && (forall m | m in ms :: SelectKey(isPrint, m.keys) in vs && vs[SelectKey(isPrint, m.keys)] == m.value)
            && (forall key | key in vs :: Stored(isPrint, ms, key, vs[key]))
            && |vs| == |Tuples(segments, current, root)|
  {
    var ms, vs := Matches(segments, current, root), SelectMap(isPrint, Build(segments), current, root);
    SelectMapStores(isPrint, segments, current, root);
    forall m | m in ms ensures SelectKey(isPrint, m.keys) in vs && vs[SelectKey(isPrint, m.keys)] == m.value {
      var i :| 0 <= i < |ms| && ms[i] == m;
      var key := SelectKey(isPrint, m.keys);
      var j :| 0 <= j < |ms| && SelectKey(isPrint, ms[j].keys) == key && ms[j].value == vs[key];
      SameSelectKey(isPrint, segments, current, root, m, ms[j]);
    }
    var tuples := Tuples(segments, current, root);
    forall a, b | a in tuples && b in tuples ensures PrintedApart(isPrint, a, b) {
      var m :| m in ms && m.keys == a;
      var n :| n in ms && n.keys == b;
      if SelectKey(isPrint, a) == SelectKey(isPrint, b) { SameSelectKey(isPrint, segments, current, root, m, n); }
    }
    NothingLostIff(isPrint, segments, current, root);
  }

  lemma SameSelectKey(isPrint: char -> bool, segments: seq<Segment>, current: Json, root: Json, m: Match, n: Match)
    requires IsGoValue(root) && IsGoValue(current) && DescendCount(segments) <= 1
    requires m in Matches(segments, current, root) && n in Matches(segments, current, root)
    requires SelectKey(isPrint, m.keys) == SelectKey(isPrint, n.keys)
    ensures m == n
  {
    var ps := Pendings(segments, current, root);
    var p := SettledFrom(ps, m);
    var q := SettledFrom(ps, n);
    PendingShape(segments, current, root, p);
    PendingShape(segments, current, root, q);
    SelectKeyEqualIffFlattenEqual(isPrint, m.keys, n.keys);
    FlattenInjective(segments, m.keys, n.keys);
    EqualKeysEqualValues(segments, current, root, m, n);
  }
}
