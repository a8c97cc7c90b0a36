/** End to end: from a select expression and the path template that mirrors it to JSON Pointers
    that address the selected items. */
module Addressing {
  import opened Sequences
  import opened Values
  import opened Decimals
  import opened Documents
  import opened Selectors
  import opened Paths
  import opened Picks
  import opened Soundness
  import opened Placeholders
  import opened SelectKeys
  import opened PathTemplates
  import opened Formats
  import opened Pointers

  /** A pick whose name can stand in a path template and in a pointer as it is. */
  predicate Verbatim(p: Pick) {
    match p
    case Name(name) => '/' !in name && '~' !in name && '%' !in name && '#' !in name
    case Wild(sel) => !sel.Descend?
  }

  predicate AllVerbatim(picks: seq<Pick>) { forall i | 0 <= i < |picks| :: Verbatim(picks[i]) }

  predicate Good(p: Pick) { Verbatim(p) && (p.Name? ==> !ReadsOdd(p.name)) }

  predicate AllGood(picks: seq<Pick>) { forall i | 0 <= i < |picks| :: Good(picks[i]) }

  /** The template that mirrors a select: "/name" for a name, "/#i" for the i-th wildcard. */
  function Mirror(picks: seq<Pick>): string {
    if picks == [] then ""
    else
      var init := picks[..|picks| - 1];
      Mirror(init) + match picks[|picks| - 1]
                     case Name(name) => "/" + name
                     case Wild(_) => "/#" + Digits(WildCount(init))
  }

  /** The pointer tokens: names as written, wildcards as captured. */
  function Address(picks: seq<Pick>, keys: seq<string>): seq<string>
    requires |keys| == WildCount(picks)
  {
    if picks == [] then []
    else
      var init := picks[..|picks| - 1];
      match picks[|picks| - 1]
      case Name(name) => Address(init, keys) + [name]
      case Wild(_) => Address(init, keys[..|keys| - 1]) + [keys[|keys| - 1]]
  }

  /** A captured key that survives printing, scanning and use as a pointer token. */
  predicate GoodKey(isPrint: char -> bool, key: string) {
    Carried(isPrint, key) && CanonicalIfInteger(key) && '/' !in key && '~' !in key && Tame(key)
  }

  // ---- The rendered template ----

  lemma FirstHole(a: string, b: string, n: nat)
    requires a != [] && a[0] == '#' && 0 < n == DigitRun(a[1..]) == DigitRun((a + b)[1..])
    ensures a[1..1 + n] != [] && AllDigits(a[1..1 + n])
    ensures Pieces(a + b) == [Hole(a[1..1 + n])] + Pieces(a[1 + n..] + b)
  {
    assert a[1..1 + n] == a[1..][..n];
    assert (a + b)[1..1 + n] == a[1..1 + n] && (a + b)[1 + n..] == a[1 + n..] + b;
  }

  lemma FirstText(a: string, b: string)
    requires a != [] && (a[0] == '#' ==> DigitRun((a + b)[1..]) == 0)
    ensures Pieces(a + b) == [Text(a[0])] + Pieces(a[1..] + b)
  {
    assert (a + b)[1..] == a[1..] + b;
  }

  /** The first piece is the same with and without a tail that starts with a slash. */
  lemma FirstPiece(a: string, b: string) returns (p: Piece, rest: string)
    requires a != [] && b != [] && b[0] == '/'
    ensures |rest| < |a| && Pieces(a) == [p] + Pieces(rest) && Pieces(a + b) == [p] + Pieces(rest + b)
  {
    assert (a + b)[1..] == a[1..] + b && a + "" == a;
    DigitRunAppend(a[1..], b);
    var n := DigitRun(a[1..]);
    if a[0] == '#' && n > 0 {
      FirstHole(a, b, n);
      FirstHole(a, "", n);
      p, rest := Hole(a[1..1 + n]), a[1 + n..];
    } else {
      FirstText(a, b);
      FirstText(a, "");
      p, rest := Text(a[0]), a[1..];
    }
    assert rest + "" == rest;
  }

  /** A slash never belongs to a placeholder, so a template splits in front of it. */
  lemma {:induction false} PiecesSplit(a: string, b: string)
    requires b != [] && b[0] == '/'
    ensures Pieces(a + b) == Pieces(a) + Pieces(b)
    decreases |a|
  {
    if a == [] {
      assert a + b == b;
    } else {
      var p, rest := FirstPiece(a, b);
      PiecesSplit(rest, b);
      Associate([p], Pieces(rest), Pieces(b));
    }
  }

  lemma PiecesOfHole(n: nat)
    ensures Pieces("/#" + Digits(n)) == [Text('/'), Hole(Digits(n))]
  {
    var d := Digits(n);
    AllDigitsRun(d);
    assert ("/#" + d)[1..] == "#" + d && ("#" + d)[1..] == d;
    assert ("#" + d)[1..1 + |d|] == d && ("#" + d)[1 + |d|..] == "";
    assert Pieces("#" + d) == [Hole(d)] + Pieces("");
  }

  lemma SubstituteName(name: string, parts: seq<Part>)
    requires '#' !in name
    ensures Substitute("/" + name, parts) == "/" + name
  {
    PiecesOfText("/" + name);
    FillTexts("/" + name, parts, BAD_INDEX);
  }

  lemma SubstituteHole(n: nat, parts: seq<Part>)
    requires n < |parts|
    ensures Substitute("/#" + Digits(n), parts) == "/" + Show(parts[n])
  {
    PiecesOfHole(n);
    ValueOfDigits(n);
    var ps := [Text('/'), Hole(Digits(n))];
    assert ps[1..] == [Hole(Digits(n))] && ps[1..][1..] == [];
    assert FillAll(ps[1..], parts, BAD_INDEX) == Show(parts[n]) + "";
    assert "/" + (Show(parts[n]) + "") == "/" + Show(parts[n]);
  }

  /** Substituting in the mirrored template joins the address tokens. */
  lemma {:induction false} MirrorJoins(picks: seq<Pick>, keys: seq<string>, parts: seq<Part>)
    requires AllVerbatim(picks) && |keys| == WildCount(picks) <= |parts|
    requires forall i | 0 <= i < |keys| :: Show(parts[i]) == keys[i]
    ensures Substitute(Mirror(picks), parts) == Join(Address(picks, keys))
  {
    if picks != [] {
      var init := picks[..|picks| - 1];
      match picks[|picks| - 1] {
        case Name(name) =>
          MirrorJoins(init, keys, parts);
          PiecesSplit(Mirror(init), "/" + name);
          FillAppend(Pieces(Mirror(init)), Pieces("/" + name), parts, BAD_INDEX);
          assert Verbatim(picks[|picks| - 1]);
          SubstituteName(name, parts);
          JoinSnoc(Address(init, keys), name);
        case Wild(_) =>
          var n, last := WildCount(init), keys[|keys| - 1];
          MirrorJoins(init, keys[..n], parts);
          PiecesSplit(Mirror(init), "/#" + Digits(n));
          FillAppend(Pieces(Mirror(init)), Pieces("/#" + Digits(n)), parts, BAD_INDEX);
          SubstituteHole(n, parts);
          JoinSnoc(Address(init, keys[..n]), last);
      }
    }
  }

  lemma {:induction false} MirrorNoPercent(picks: seq<Pick>)
    requires AllVerbatim(picks)
    ensures NoPercent(Mirror(picks))
  {
    if picks != [] {
      MirrorNoPercent(picks[..|picks| - 1]);
      assert Verbatim(picks[|picks| - 1]);
      var d := Digits(WildCount(picks[..|picks| - 1]));
      assert forall i | 0 <= i < |d| :: IsDigit(d[i]);
    }
  }

  // ---- The pointer reaches the match ----

  lemma {:induction false} AddressShape(picks: seq<Pick>, keys: seq<string>)
    requires AllVerbatim(picks) && |keys| == WildCount(picks)
    requires forall i | 0 <= i < |keys| :: '/' !in keys[i]
    ensures forall i | 0 <= i < |Address(picks, keys)| :: '/' !in Address(picks, keys)[i]
  {
    if picks != [] {
      assert Verbatim(picks[|picks| - 1]);
      AddressShape(picks[..|picks| - 1], if picks[|picks| - 1].Name? then keys else keys[..|keys| - 1]);
    }
  }

  lemma {:induction false} PicksAreScriptFree(picks: seq<Pick>, current: Json)
    requires AllVerbatim(picks)
    ensures ScriptFree(ToSegments(picks), current)
  {
    if picks != [] {
      var segments := ToSegments(picks);
      assert segments[..|picks| - 1] == ToSegments(picks[..|picks| - 1]);
      PicksAreScriptFree(picks[..|picks| - 1], current);
      assert Verbatim(picks[|picks| - 1]);
    }
  }

  /** One name per wildcard, since no segment is a `..`. */
  lemma {:induction false} WildKeys(picks: seq<Pick>, keys: seq<Key>)
    requires AllVerbatim(picks) && Shaped(ToSegments(picks), keys)
    ensures |Flatten(keys)| == |keys| == WildCount(picks)
  {
    if picks != [] {
      var init, last := picks[..|picks| - 1], picks[|picks| - 1];
      assert Verbatim(last);
      assert ToSegments(picks)[..|picks| - 1] == ToSegments(init);
      if last.Wild? {
        var front, k := keys[..|keys| - 1], keys[|keys| - 1];
        WildKeys(init, front);
        assert keys == front + [k];
        FlattenSnoc(front, k);
      } else {
        WildKeys(init, keys);
      }
    }
  }

  /** The pointer token of a child leads to it. */
  lemma FollowChild(v: Json, i: nat)
    requires IsDocument(v) && i < |Children(v)| && '~' !in Children(v)[i].key
    ensures Follow(v, [Children(v)[i].key]) == Some(Children(v)[i].value)
  {
    var key := Children(v)[i].key;
    UnescapeNothing(key);
    assert [key][1..] == [];
    if v.Array? { ValueOfDigits(i); } else { FindMember(v.members, i); }
  }

  /** Selecting a name in a document gives a child that the name leads to, or Undefined. */
  predicate NameLeads(name: string, root: Json, v: Json) {
    var r := SelectValue(ConstKey(name), root, v);
    r.Ok? ==> r.value.value.Undefined? || Follow(v, [name]) == Some(r.value.value)
  }

  lemma FollowName(name: string, root: Json, v: Json)
    requires IsDocument(v) && '~' !in name && !ReadsOdd(name)
    ensures NameLeads(name, root, v)
  {
    UnescapeNothing(name);
    assert [name][1..] == [];
  }

  function Nulls(n: nat): (v: Json)
    ensures v.Array? && |v.elems| == n && forall i | 0 <= i < n :: v.elems[i] == Null
  {
    Array(seq(n, _ => Null))
  }

  lemma OddNameStrays(name: string, root: Json)
    requires '~' !in name && ReadsOdd(name)
    ensures var v := Nulls(OTHER_INDEX(name).value as nat + 1);
            IsDocument(v) && Follow(v, [name]) == None && !NameLeads(name, root, v)
  {
    UnescapeNothing(name);
    var v := Nulls(OTHER_INDEX(name).value as nat + 1);
    forall i | 0 <= i < |Children(v)| ensures IsDocument(Children(v)[i].value) {
      assert Children(v)[i].value == Null;
    }
  }

  /** Exactly the names that read as an odd index can select an element that, as a pointer token,
      they do not lead to. */
  lemma NameLeadsIff(name: string)
    requires '~' !in name
    ensures (forall root, v | IsDocument(v) :: NameLeads(name, root, v)) <==> !ReadsOdd(name)
  {
    if ReadsOdd(name) {
      OddNameStrays(name, Null);
    } else {
      forall root, v | IsDocument(v) ensures NameLeads(name, root, v) { FollowName(name, root, v); }
    }
  }

  /** Every ambiguous selector but `..` reports children under their keys. */
  lemma CallIsChild(sel: BranchSelector, root: Json, v: Json, call: Call)
    requires !sel.Descend? && IsDocument(v) && call in Calls(sel, root, v)
    ensures exists i | 0 <= i < |Children(v)| :: call == Call(One(Children(v)[i].key), Children(v)[i].value)
  {
    match sel
    case Filter(filter) => FilterCallIsChild(filter, root, Children(v), call);
    case Range(min, max, step) => RangeCallIsChild(min, max, step, root, v, call);
    case Multi(keys) => if keys != [] { MultiCallIsChild(keys, root, v, call); }
    case Star =>
  }

  lemma {:induction false} MultiCallIsChild(keys: seq<Expr>, root: Json, v: Json, call: Call)
    requires IsDocument(v) && call in MultiCalls(keys, root, v)
    ensures exists i | 0 <= i < |Children(v)| :: call == Call(One(Children(v)[i].key), Children(v)[i].value)
  {
    if call in MultiCall(keys[0], root, v) {
      var s := SelectValue(keys[0], root, v).value;
      if v.Array? {
        var i := keys[0].evalInt(v, root).value;
        assert Children(v)[i] == Member(s.jkey, s.value);
      } else {
        var i :| 0 <= i < |v.members| && v.members[i] == Member(s.jkey, s.value);
        assert Children(v)[i] == v.members[i];
      }
    } else {
      MultiCallIsChild(keys[1..], root, v, call);
    }
  }

  /** A pending value of a select of good picks is where its address leads, or Undefined. */
  predicate Reached(picks: seq<Pick>, root: Json, p: Pending) {
    |Flatten(p.keys)| == WildCount(picks) &&
    (p.value.Ok? && !p.value.value.Undefined? ==>
       Follow(root, Address(picks, Flatten(p.keys))) == Some(p.value.value))
  }

  predicate TokensKept(keys: seq<Key>) {
    forall i | 0 <= i < |Flatten(keys)| :: '~' !in Flatten(keys)[i]
  }

  lemma ReachName(init: seq<Pick>, name: string, current: Json, root: Json, q: Pending)
    requires Good(Name(name)) && Contained(q) && Reached(init, root, q)
    ensures Reached(init + [Name(name)], root, PlainStep(Direct(ConstKey(name)), current, root, q))
  {
    var picks := init + [Name(name)];
    assert picks[..|init|] == init;
    if q.value.Ok? && IsDocument(q.value.value) && SelectValue(ConstKey(name), root, q.value.value).Ok? {
      FollowName(name, root, q.value.value);
      FollowAppend(root, Address(init, Flatten(q.keys)), [name]);
    }
  }

  lemma ReachWild(init: seq<Pick>, sel: BranchSelector, root: Json, q: Pending, call: Call)
    requires !sel.Descend? && Contained(q) && Settled(q) && Reached(init, root, q)
    requires call in Calls(sel, root, q.value.value) && TokensKept(q.keys + [call.key])
    ensures Reached(init + [Wild(sel)], root, Pending(q.keys + [call.key], Ok(call.value), false))
  {
    var picks := init + [Wild(sel)];
    assert picks[..|init|] == init;
    var v := q.value.value;
    CallIsChild(sel, root, v, call);
    var i :| 0 <= i < |Children(v)| && call == Call(One(Children(v)[i].key), Children(v)[i].value);
    var name := Children(v)[i].key;
    var names := Flatten(q.keys);
    FlattenSnoc(q.keys, call.key);
    assert Flatten(q.keys + [call.key]) == names + [name] && (names + [name])[..|names|] == names;
    assert (names + [name])[|names|] == name;
    FollowChild(v, i);
    FollowAppend(root, Address(init, names), [name]);
  }

  lemma InitialSegments(init: seq<Pick>, last: Pick)
    ensures ToSegments(init + [last])[..|init|] == ToSegments(init)
    ensures ToSegments(init + [last])[|init|] == SegmentOf(last)
  {}

  /** The value a pending value of a select comes from, with what holds of it. */
  lemma PickFrom(init: seq<Pick>, last: Pick, current: Json, root: Json, p: Pending)
    returns (q: Pending, call: Call)
    requires AllGood(init) && IsDocument(root) && p in Pendings(ToSegments(init + [last]), current, root)
    ensures q in Pendings(ToSegments(init), current, root) && Contained(q)
    ensures last.Name? ==> p == PlainStep(Direct(ConstKey(last.name)), current, root, q)
    ensures last.Wild? ==> Settled(q) && call in Calls(last.sel, root, q.value.value)
                           && p == Pending(q.keys + [call.key], Ok(call.value), false)
  {
    InitialSegments(init, last);
    PicksAreScriptFree(init, current);
    q, call := StepFrom(SegmentOf(last), current, root, Pendings(ToSegments(init), current, root), p);
    PendingsContained(ToSegments(init), current, root, q);
  }

  lemma PickReaches(init: seq<Pick>, last: Pick, current: Json, root: Json, q: Pending, call: Call, p: Pending)
    requires Good(last) && Contained(q) && Reached(init, root, q) && TokensKept(p.keys)
    requires last.Name? ==> p == PlainStep(Direct(ConstKey(last.name)), current, root, q)
    requires last.Wild? ==> Settled(q) && call in Calls(last.sel, root, q.value.value)
                            && p == Pending(q.keys + [call.key], Ok(call.value), false)
    ensures Reached(init + [last], root, p)
  {
    match last
    case Name(name) => ReachName(init, name, current, root, q);
    case Wild(sel) => ReachWild(init, sel, root, q, call);
  }

  lemma {:induction false} PendingsReached(picks: seq<Pick>, current: Json, root: Json, p: Pending)
    requires AllGood(picks) && IsDocument(root) && p in Pendings(ToSegments(picks), current, root)
    requires TokensKept(p.keys)
    ensures Reached(picks, root, p)
  {
    if picks != [] {
      var init, last := picks[..|picks| - 1], picks[|picks| - 1];
      SplitLast(picks);
      assert Good(last);
      var q, call := PickFrom(init, last, current, root, p);
      assert TokensKept(q.keys) by {
        if last.Wild? { KeptPrefix(q.keys, call.key); }
      }
      assert AllGood(init);
      assert Reached(init, root, q) by { PendingsReached(init, current, root, q); }
      PickReaches(init, last, current, root, q, call, p);
    }
  }

  lemma KeptPrefix(keys: seq<Key>, key: Key)
    requires TokensKept(keys + [key])
    ensures TokensKept(keys)
  {
    FlattenSnoc(keys, key);
    forall i | 0 <= i < |Flatten(keys)| ensures '~' !in Flatten(keys)[i] {
      assert Flatten(keys + [key])[i] == Flatten(keys)[i];
    }
  }

  predicate GoodKeys(isPrint: char -> bool, keys: seq<Key>) {
    forall i | 0 <= i < |Flatten(keys)| :: GoodKey(isPrint, Flatten(keys)[i])
  }

  /** Scanning the printed keys gives parts that show the names. */
  lemma PartsShowNames(isPrint: char -> bool, keys: seq<Key>)
    requires GoodKeys(isPrint, keys)
    ensures var parts, names := KeyParts(SelectKey(isPrint, keys)), Flatten(keys);
            |parts| == |names| && forall k | 0 <= k < |names| :: Show(parts[k]) == names[k]
  {
    var names := Flatten(keys);
    forall k | 0 <= k < |names| ensures GoodKey(isPrint, names[k]) && Show(ToPart(names[k])) == names[k] {
      assert GoodKey(isPrint, names[k]);
      PartShowsName(names[k]);
    }
    SelectKeyRoundTrip(isPrint, keys);
  }

  /** The rendered path of a key tuple is the joined address. */
  lemma PathIsAddress(isPrint: char -> bool, picks: seq<Pick>, keys: seq<Key>)
    requires AllVerbatim(picks) && Shaped(ToSegments(picks), keys) && WildCount(picks) <= MAX_PARTS
    requires GoodKeys(isPrint, keys)
    ensures |Flatten(keys)| == WildCount(picks)
    ensures Render(Mirror(picks), KeyParts(SelectKey(isPrint, keys))) == Some(Join(Address(picks, Flatten(keys))))
  {
    var names, parts := Flatten(keys), KeyParts(SelectKey(isPrint, keys));
    WildKeys(picks, keys);
    PartsShowNames(isPrint, keys);
    forall i | 0 <= i < |parts| ensures Tame(Show(parts[i])) {
      assert GoodKey(isPrint, names[i]);
    }
    MirrorNoPercent(picks);
    RenderIsSubstitution(Mirror(picks), parts);
    MirrorJoins(picks, names, parts);
  }

  /** End-to-end addressing: the path generated from the printed key of a match is a JSON
      Pointer that resolves in the document to exactly that match. */
  lemma GeneratedPathAddressesMatch(isPrint: char -> bool, picks: seq<Pick>, current: Json, root: Json, m: Match)
    requires AllGood(picks) && WildCount(picks) <= MAX_PARTS && IsDocument(root)
    requires m in Matches(ToSegments(picks), current, root) && GoodKeys(isPrint, m.keys)
    ensures var path := Render(Mirror(picks), KeyParts(SelectKey(isPrint, m.keys)));
            path.Some? && Resolve(root, path.value) == Some(m.value)
  {
    var segments, names := ToSegments(picks), Flatten(m.keys);
    var p := SettledFrom(Pendings(segments, current, root), m);
    PendingShape(segments, current, root, p);
    PathIsAddress(isPrint, picks, m.keys);
    forall i | 0 <= i < |names| ensures '/' !in names[i] && '~' !in names[i] {
      assert GoodKey(isPrint, names[i]);
    }
    AddressShape(picks, names);
    TokensOfJoin(Address(picks, names));
    PicksAreScriptFree(picks, current);
    MatchIsDocument(segments, current, root, m);
    PendingsReached(picks, current, root, p);
  }

  /** The same for the map a patch iterates over: every entry's path addresses its item. */
  lemma EveryEntryIsAddressed(isPrint: char -> bool, picks: seq<Pick>, current: Json, root: Json, key: string)
    requires AllGood(picks) && WildCount(picks) <= MAX_PARTS && IsDocument(root)
    requires forall m | m in Matches(ToSegments(picks), current, root) :: GoodKeys(isPrint, m.keys)
    requires key in SelectMap(isPrint, Build(ToSegments(picks)), current, root)
    ensures var path := Render(Mirror(picks), KeyParts(key));
            path.Some? && Resolve(root, path.value)
                          == Some(SelectMap(isPrint, Build(ToSegments(picks)), current, root)[key])
  {
    var ms := Matches(ToSegments(picks), current, root);
    var vs := SelectMap(isPrint, Build(ToSegments(picks)), current, root);
    SelectMapStores(isPrint, ToSegments(picks), current, root);
    var i :| 0 <= i < |ms| && SelectKey(isPrint, ms[i].keys) == key && ms[i].value == vs[key];
    assert ms[i] in ms;
    GeneratedPathAddressesMatch(isPrint, picks, current, root, ms[i]);
  }
}
