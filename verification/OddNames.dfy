/** Names that read as an array index without being written like one: why paths with such a name
    need not address what they select. */
module OddNames {
  import opened Sequences
  import opened Values
  import opened Decimals
  import opened Documents
  import opened Selectors
  import opened Paths
  import opened Picks
  import opened Reaching
  import opened Soundness
  import opened Placeholders
  import opened SelectKeys
  import opened Formats
  import opened PathTemplates
  import opened Pointers
  import opened Addressing

  /** The path generated for the match is a pointer to it. */
  predicate Addressed(isPrint: char -> bool, picks: seq<Pick>, root: Json, m: Match) {
    var path := Render(Mirror(picks), KeyParts(SelectKey(isPrint, m.keys)));
    path.Some? && Resolve(root, path.value) == Some(m.value)
  }

  /** Every match of the select, in every document, is addressed by its generated path. */
  ghost predicate AlwaysAddressed(isPrint: char -> bool, picks: seq<Pick>, current: Json) {
    forall root, m | IsDocument(root) && m in Matches(ToSegments(picks), current, root) && GoodKeys(isPrint, m.keys) ::
      Addressed(isPrint, picks, root, m)
  }

  /** Names and stars. */
  predicate OnlyStars(picks: seq<Pick>) {
    forall i | 0 <= i < |picks| && picks[i].Wild? :: IsStar(picks[i].sel)
  }

  predicate HasOdd(picks: seq<Pick>) {
    exists i | 0 <= i < |picks| :: picks[i].Name? && ReadsOdd(picks[i].name)
  }

  // ---- A document for every select of names and stars ----

  /** A document in which the select matches; a name that reads as an index selects an element. */
  function DocFor(picks: seq<Pick>): Json {
    if picks == [] then Null
    else
      var below := DocFor(picks[1..]);
      match picks[0]
      case Name(name) =>
        if ReadsOdd(name) then Array(seq(OTHER_INDEX(name).value as nat + 1, _ => below))
        else Object([Member(name, below)])
      case Wild(_) => Object([Member("k", below)])
  }

  lemma {:induction false} DocForIsDocument(picks: seq<Pick>)
    ensures IsDocument(DocFor(picks))
  {
    if picks != [] {
      var doc := DocFor(picks);
      DocForIsDocument(picks[1..]);
      forall i | 0 <= i < |Children(doc)| ensures IsDocument(Children(doc)[i].value) {
        assert Children(doc)[i].value == DocFor(picks[1..]);
      }
    }
  }

  function StarKeys(picks: seq<Pick>): (keys: seq<Key>)
    ensures |keys| == WildCount(picks) && forall i | 0 <= i < |keys| :: keys[i] == One("k")
  {
    seq(WildCount(picks), _ => One("k"))
  }

  lemma MoreSegments(init: seq<Pick>, pick: Pick)
    ensures ToSegments(init + [pick]) == ToSegments(init) + [SegmentOf(pick)]
    ensures StarKeys(init + [pick]) == if pick.Wild? then StarKeys(init) + [One("k")] else StarKeys(init)
  {
    assert (init + [pick])[..|init|] == init;
  }

  lemma DocBelow(pick: Pick, rest: seq<Pick>)
    ensures pick.Wild? ==> DocFor([pick] + rest) == Object([Member("k", DocFor(rest))])
    ensures pick.Name? ==> DocFor([pick] + rest) == if ReadsOdd(pick.name)
              then Array(seq(OTHER_INDEX(pick.name).value as nat + 1, _ => DocFor(rest)))
              else Object([Member(pick.name, DocFor(rest))])
  {
    assert ([pick] + rest)[1..] == rest;
  }

  /** One step further down the document. */
  lemma StepDown(init: seq<Pick>, pick: Pick, rest: seq<Pick>, current: Json, root: Json, p: Pending)
    returns (q: Pending)
    requires pick.Wild? ==> IsStar(pick.sel)
    requires p in Pendings(ToSegments(init), current, root)
    requires p.keys == StarKeys(init) && p.value == Ok(DocFor([pick] + rest))
    ensures q in Pendings(ToSegments(init + [pick]), current, root)
    ensures q.keys == StarKeys(init + [pick]) && q.value == Ok(DocFor(rest))
  {
    MoreSegments(init, pick);
    DocBelow(pick, rest);
    match pick
    case Name(name) =>
      PlainInto(ToSegments(init), Direct(ConstKey(name)), current, root, p);
      NameSelects(name, root, DocFor(rest));
      q := PlainStep(Direct(ConstKey(name)), current, root, p);
    case Wild(sel) =>
      StarStep(ToSegments(init), sel, current, root, p, 0);
      q := Pending(p.keys + [One("k")], Ok(DocFor(rest)), false);
  }

  lemma NameSelects(name: string, root: Json, below: Json)
    ensures var doc := if ReadsOdd(name) then Array(seq(OTHER_INDEX(name).value as nat + 1, _ => below))
                       else Object([Member(name, below)]);
            SelectValue(ConstKey(name), root, doc).Ok? && SelectValue(ConstKey(name), root, doc).value.value == below
  {}

  lemma CutBefore(picks: seq<Pick>, n: nat)
    requires 0 < n <= |picks|
    ensures picks[n - 1..] == [picks[n - 1]] + picks[n..]
    ensures picks[..n] == picks[..n - 1] + [picks[n - 1]]
  {}

  lemma {:induction false} ReachesDown(picks: seq<Pick>, n: nat, current: Json) returns (p: Pending)
    requires OnlyStars(picks) && n <= |picks|
    ensures p in Pendings(ToSegments(picks[..n]), current, DocFor(picks))
    ensures p.keys == StarKeys(picks[..n]) && p.value == Ok(DocFor(picks[n..]))
  {
    if n == 0 {
      p := Pending([], Ok(DocFor(picks)), true);
      assert picks[..0] == [] && picks[0..] == picks && ToSegments(picks[..0]) == [];
      assert Pendings([], current, DocFor(picks)) == [p];
    } else {
      var before := ReachesDown(picks, n - 1, current);
      CutBefore(picks, n);
      p := StepDown(picks[..n - 1], picks[n - 1], picks[n..], current, DocFor(picks), before);
    }
  }

  lemma DocForMatches(picks: seq<Pick>, current: Json)
    requires OnlyStars(picks)
    ensures Match(StarKeys(picks), Null) in Matches(ToSegments(picks), current, DocFor(picks))
  {
    var p := ReachesDown(picks, |picks|, current);
    assert picks[..|picks|] == picks && picks[|picks|..] == [];
    SettledInto(Pendings(ToSegments(picks), current, DocFor(picks)), p);
  }

  // ---- The pointer strays ----

  function TokensOf(picks: seq<Pick>): (ts: seq<string>)
    ensures |ts| == |picks|
    ensures forall i | 0 <= i < |ts| :: ts[i] == if picks[i].Name? then picks[i].name else "k"
  {
    seq(|picks|, i requires 0 <= i < |picks| => if picks[i].Name? then picks[i].name else "k")
  }

  function Ks(n: nat): (keys: seq<string>)
    ensures |keys| == n && forall i | 0 <= i < n :: keys[i] == "k"
  {
    seq(n, _ => "k")
  }

  lemma {:induction false} FlattenStars(picks: seq<Pick>, n: nat, keys: seq<Key>)
    requires |keys| == n && forall i | 0 <= i < n :: keys[i] == One("k")
    ensures Flatten(keys) == Ks(n)
  {
    if n > 0 { FlattenStars(picks, n - 1, keys[1..]); }
  }

  lemma {:induction false} AddressOfStars(picks: seq<Pick>)
    ensures Address(picks, Ks(WildCount(picks))) == TokensOf(picks)
  {
    if picks != [] {
      var init, last := picks[..|picks| - 1], picks[|picks| - 1];
      AddressOfStars(init);
      assert TokensOf(picks) == TokensOf(init) + [if last.Name? then last.name else "k"];
      if last.Wild? {
        var keys := Ks(WildCount(picks));
        assert keys[..|keys| - 1] == Ks(WildCount(init));
      }
    }
  }

  /** One token: an odd name leads nowhere, any other token to the document below. */
  lemma TokenLeads(pick: Pick, rest: seq<Pick>)
    requires Verbatim(pick)
    ensures var doc, t := DocFor([pick] + rest), if pick.Name? then pick.name else "k";
            Follow(doc, [t] + TokensOf(rest))
            == if pick.Name? && ReadsOdd(pick.name) then None else Follow(DocFor(rest), TokensOf(rest))
  {
    var t := if pick.Name? then pick.name else "k";
    assert ([pick] + rest)[1..] == rest && ([t] + TokensOf(rest))[1..] == TokensOf(rest);
    UnescapeNothing(t);
  }

  lemma OddFurtherDown(pick: Pick, rest: seq<Pick>)
    requires HasOdd([pick] + rest) && !(pick.Name? && ReadsOdd(pick.name))
    ensures HasOdd(rest)
  {
    var picks := [pick] + rest;
    var i :| 0 <= i < |picks| && picks[i].Name? && ReadsOdd(picks[i].name);
    assert rest[i - 1] == picks[i];
  }

  lemma FirstVerbatim(pick: Pick, rest: seq<Pick>)
    requires AllVerbatim([pick] + rest)
    ensures Verbatim(pick) && AllVerbatim(rest)
  {
    var picks := [pick] + rest;
    assert Verbatim(picks[0]);
    forall i | 0 <= i < |rest| ensures Verbatim(rest[i]) { assert Verbatim(picks[i + 1]); }
  }

  lemma FirstToken(pick: Pick, rest: seq<Pick>)
    ensures TokensOf([pick] + rest) == [if pick.Name? then pick.name else "k"] + TokensOf(rest)
  {}

  lemma {:induction false} PointerStrays(picks: seq<Pick>)
    requires AllVerbatim(picks) && HasOdd(picks)
    ensures Follow(DocFor(picks), TokensOf(picks)) == None
  {
    var pick, rest := picks[0], picks[1..];
    SplitFirst(picks);
    FirstVerbatim(pick, rest);
    FirstToken(pick, rest);
    TokenLeads(pick, rest);
    if !(pick.Name? && ReadsOdd(pick.name)) {
      OddFurtherDown(pick, rest);
      PointerStrays(rest);
    }
  }

  lemma KIsGood(isPrint: char -> bool)
    requires isPrint('k')
    ensures GoodKey(isPrint, "k")
  {
    NoPercentIsTame("k");
    assert Atoi("k") == None;
  }

  lemma StarKeysAreShaped(picks: seq<Pick>, current: Json)
    requires OnlyStars(picks)
    ensures Shaped(ToSegments(picks), StarKeys(picks))
  {
    var p := ReachesDown(picks, |picks|, current);
    assert picks[..|picks|] == picks;
    PendingShape(ToSegments(picks), current, DocFor(picks), p);
  }

  /** Somewhere in a select of names and stars an odd name: in some document a match is not what its
      generated path points to. */
  lemma OddIsNotAddressed(isPrint: char -> bool, picks: seq<Pick>, current: Json)
    requires AllVerbatim(picks) && OnlyStars(picks) && HasOdd(picks) && WildCount(picks) <= MAX_PARTS && isPrint('k')
    ensures !AlwaysAddressed(isPrint, picks, current)
  {
    var root, m := DocFor(picks), Match(StarKeys(picks), Null);
    var tokens := TokensOf(picks);
    DocForIsDocument(picks);
    DocForMatches(picks, current);
    FlattenStars(picks, WildCount(picks), m.keys);
    KIsGood(isPrint);
    assert GoodKeys(isPrint, m.keys);
    StarKeysAreShaped(picks, current);
    PathIsAddress(isPrint, picks, m.keys);
    AddressOfStars(picks);
    forall i | 0 <= i < |tokens| ensures '/' !in tokens[i] { assert Verbatim(picks[i]); }
    TokensOfJoin(tokens);
    PointerStrays(picks);
    assert !Addressed(isPrint, picks, root, m);
  }

  /** The exact condition: for a select of names and stars, generated paths address their matches in
      every document if and only if no name reads as an odd index. */
  lemma AddressingIff(isPrint: char -> bool, picks: seq<Pick>, current: Json)
    requires AllVerbatim(picks) && OnlyStars(picks) && WildCount(picks) <= MAX_PARTS && isPrint('k')
    ensures AlwaysAddressed(isPrint, picks, current) <==> !HasOdd(picks)
  {
    if HasOdd(picks) {
      OddIsNotAddressed(isPrint, picks, current);
    } else {
      forall i | 0 <= i < |picks| ensures Good(picks[i]) { assert Verbatim(picks[i]); }
      forall root, m | IsDocument(root) && m in Matches(ToSegments(picks), current, root) && GoodKeys(isPrint, m.keys)
        ensures Addressed(isPrint, picks, root, m)
      {
        GeneratedPathAddressesMatch(isPrint, picks, current, root, m);
      }
    }
  }

  lemma OddNameMatches(name: string, current: Json)
    requires ReadsOdd(name)
    ensures Matches(ToSegments([Name(name)]), current, Nulls(OTHER_INDEX(name).value as nat + 1)) == [Match([], Null)]
  {
    var root := Nulls(OTHER_INDEX(name).value as nat + 1);
    var start, end := Pending([], Ok(root), true), Pending([], Ok(Null), true);
    var segments := [Single(Direct(ConstKey(name)))];
    assert ToSegments([Name(name)]) == segments && segments[..0] == [];
    assert Pendings([], current, root) == [start];
    assert PlainStep(Direct(ConstKey(name)), current, root, start) == end;
    assert Pendings(segments, current, root) == StepPlain(Direct(ConstKey(name)), current, root, [start]) == [end];
    assert [end][1..] == [] && Settle([end]) == [Match([], Null)] + [];
  }

  lemma PathOfName(isPrint: char -> bool, name: string)
    requires Verbatim(Name(name))
    ensures Render(Mirror([Name(name)]), KeyParts(SelectKey(isPrint, []))) == Some(Join([name]))
    ensures Join([name]) == "/" + name
  {
    var picks := [Name(name)];
    assert picks[..0] == [] && ToSegments(picks)[..0] == [];
    assert Shaped(ToSegments(picks), []);
    PathIsAddress(isPrint, picks, []);
    assert Address(picks, []) == [] + [name] == [name];
    assert "/" + name + "" == "/" + name;
  }

  /** The smallest case: the name alone, on an array just long enough. It matches the last element,
      and the generated pointer resolves to nothing. */
  lemma OddNameMisses(isPrint: char -> bool, name: string, current: Json)
    requires Verbatim(Name(name)) && ReadsOdd(name)
    ensures var root := Nulls(OTHER_INDEX(name).value as nat + 1);
            && Matches(ToSegments([Name(name)]), current, root) == [Match([], Null)]
            && Render(Mirror([Name(name)]), KeyParts(SelectKey(isPrint, []))) == Some("/" + name)
            && Resolve(root, "/" + name) == None
  {
    OddNameMatches(name, current);
    PathOfName(isPrint, name);
    TokensOfJoin([name]);
    OddNameStrays(name, Null);
  }
}
