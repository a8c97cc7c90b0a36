/** The match engine of jsonpath/path.go and the list semantics it refines. */
module Paths {
  import opened Sequences
  import opened Values
  import opened Selectors
  import opened Ranges
  import opened Visitors

  /** The node chain the parser builds: a plain run, or a branch on top of a parent. */
  datatype Path =
    | Plain(sels: seq<PlainSelector>)
    | Ambiguous(parent: Path, branch: BranchSelector, ending: seq<PlainSelector>)
  {
    function WithPlain(sel: PlainSelector): Path {
      match this
      case Plain(sels) => Plain(sels + [sel])
      case Ambiguous(parent, branch, ending) => Ambiguous(parent, branch, ending + [sel])
    }

    function WithBranch(sel: BranchSelector): Path { Ambiguous(this, sel, []) }
  }

  datatype Segment = Single(plain: PlainSelector) | Branch(sel: BranchSelector)

  function With(p: Path, segment: Segment): Path {
    match segment
    case Single(sel) => p.WithPlain(sel)
    case Branch(sel) => p.WithBranch(sel)
  }

  /** Folding the segments, left to right, onto the empty plain path. */
  function Build(segments: seq<Segment>): Path {
    if segments == [] then Plain([])
    else With(Build(segments[..|segments| - 1]), segments[|segments| - 1])
  }

  function EvaluatePath(sels: seq<PlainSelector>, current: Json, root: Json, v: Json): Result<Json> {
    if sels == [] then Ok(v)
    else
      match ApplyPlain(sels[0], current, root, v)
      case Ok(w) => EvaluatePath(sels[1..], current, root, w)
      case Err => Err
  }

  /** evaluatePath's loop over the selectors. */
  method EvaluatePathLoop(sels: seq<PlainSelector>, current: Json, root: Json, v: Json) returns (r: Result<Json>)
    ensures r == EvaluatePath(sels, current, root, v)
  {
    var value := v;
    for i := 0 to |sels|
      invariant EvaluatePath(sels, current, root, v) == EvaluatePath(sels[i..], current, root, value)
    {
      assert sels[i..][1..] == sels[i + 1..];
      var next := ApplyPlain(sels[i], current, root, value);
      if next.Err? { return Err; }
      value := next.value;
    }
    return Ok(value);
  }

  lemma EvaluateFirst(a: seq<PlainSelector>, b: seq<PlainSelector>, current: Json, root: Json, v: Json)
    requires a != []
    ensures var next := ApplyPlain(a[0], current, root, v);
            EvaluatePath(a + b, current, root, v)
            == if next.Ok? then EvaluatePath(a[1..] + b, current, root, next.value) else Err
  {
    assert (a + b)[1..] == a[1..] + b;
  }

  lemma {:induction false} EvaluateAppend(a: seq<PlainSelector>, b: seq<PlainSelector>, current: Json,
                                          root: Json, v: Json)
    ensures EvaluatePath(a + b, current, root, v)
         == match EvaluatePath(a, current, root, v)
            case Ok(w) => EvaluatePath(b, current, root, w)
            case Err => Err
  {
    if a == [] {
      assert a + b == b;
    } else {
      EvaluateFirst(a, b, current, root, v);
      var next := ApplyPlain(a[0], current, root, v);
      if next.Ok? { EvaluateAppend(a[1..], b, current, root, next.value); }
    }
  }

  // ---- The callback engine ----

  /** plainPath.matcher: with selectors left to run, errors and Undefined never reach the visitor. */
  function EndingMatcher<S>(ending: seq<PlainSelector>, current: Json, root: Json, visit: (S, Key, Json) -> S)
    : (S, Key, Json) -> S
  {
    if ending == [] then visit
    else
      (s, key, v) =>
        match EvaluatePath(ending, current, root, v)
        case Ok(res) => if res.Undefined? then s else visit(s, key, res)
        case Err => s
  }

  /** pathMatcher.matcher: the key of this branch goes after the keys of the parent. */
  function KeysMatcher<S>(visit: (S, seq<Key>, Json) -> S, keys: seq<Key>): (S, Key, Json) -> S {
    (s, key, v) => visit(s, keys + [key], v)
  }

  function ParentVisitor<S>(branch: BranchSelector, ending: seq<PlainSelector>, current: Json, root: Json,
                            visit: (S, seq<Key>, Json) -> S): (S, seq<Key>, Json) -> S
  {
    (s, keys, v) => RunBranch(branch, root, v, EndingMatcher(ending, current, root, KeysMatcher(visit, keys)), s)
  }

  /** visitMatchs of both node kinds, for any visitor and any state it carries. */
  function VisitMatches<S>(p: Path, current: Json, root: Json, visit: (S, seq<Key>, Json) -> S, s: S): S {
    match p
    case Plain(sels) =>
      (match EvaluatePath(sels, current, root, root)
       case Ok(res) => if res.Undefined? then s else visit(s, [], res)
       case Err => s)
    case Ambiguous(parent, branch, ending) =>
      VisitMatches(parent, current, root, ParentVisitor(branch, ending, current, root, visit), s)
  }

  // ---- The list semantics ----

  datatype Match = Match(keys: seq<Key>, value: Json)

  /** A value on its way through a plain run: an error stays an error; `ran` says a selector
      of the run has been applied, or that the run starts at the root. */
  datatype Pending = Pending(keys: seq<Key>, value: Result<Json>, ran: bool)

  function Settled(p: Pending): bool {
    p.value.Ok? && (p.ran ==> !p.value.value.Undefined?)
  }

  /** The end of a plain run: errors are dropped, and Undefined if the run did anything. */
  function Settle(ps: seq<Pending>): seq<Match> {
    if ps == [] then []
    else (if Settled(ps[0]) then [Match(ps[0].keys, ps[0].value.value)] else []) + Settle(ps[1..])
  }

  function StepPlain(sel: PlainSelector, current: Json, root: Json, ps: seq<Pending>): (r: seq<Pending>)
    ensures |r| == |ps|
    ensures forall i | 0 <= i < |r| :: r[i] == PlainStep(sel, current, root, ps[i])
  {
    if ps == [] then [] else [PlainStep(sel, current, root, ps[0])] + StepPlain(sel, current, root, ps[1..])
  }

  function PlainStep(sel: PlainSelector, current: Json, root: Json, p: Pending): Pending {
    Pending(p.keys, if p.value.Ok? then ApplyPlain(sel, current, root, p.value.value) else Err, true)
  }

  function StepBranch(sel: BranchSelector, root: Json, ms: seq<Match>): seq<Pending> {
    if ms == [] then []
    else Extend(ms[0].keys, Calls(sel, root, ms[0].value)) + StepBranch(sel, root, ms[1..])
  }

  function Extend(keys: seq<Key>, calls: seq<Call>): (r: seq<Pending>)
    ensures |r| == |calls|
    ensures forall i | 0 <= i < |r| :: r[i] == Pending(keys + [calls[i].key], Ok(calls[i].value), false)
  {
    if calls == [] then []
    else [Pending(keys + [calls[0].key], Ok(calls[0].value), false)] + Extend(keys, calls[1..])
  }

  function Step(segment: Segment, current: Json, root: Json, ps: seq<Pending>): seq<Pending> {
    match segment
    case Single(sel) => StepPlain(sel, current, root, ps)
    case Branch(sel) => StepBranch(sel, root, Settle(ps))
  }

  /** Left to right over the segments, starting from the root. */
  function Pendings(segments: seq<Segment>, current: Json, root: Json): seq<Pending> {
    if segments == [] then [Pending([], Ok(root), true)]
    else Step(segments[|segments| - 1], current, root, Pendings(segments[..|segments| - 1], current, root))
  }

  /** All matches of a segment list with the keys captured on the way, in order. */
  function Matches(segments: seq<Segment>, current: Json, root: Json): seq<Match> {
    Settle(Pendings(segments, current, root))
  }

  function FeedMatches<S>(visit: (S, seq<Key>, Json) -> S, s: S, ms: seq<Match>): S {
    if ms == [] then s else FeedMatches(visit, visit(s, ms[0].keys, ms[0].value), ms[1..])
  }

  lemma {:induction false} FeedMatchesAppend<S>(visit: (S, seq<Key>, Json) -> S, s: S, a: seq<Match>, b: seq<Match>)
    ensures FeedMatches(visit, s, a + b) == FeedMatches(visit, FeedMatches(visit, s, a), b)
  {
    if a == [] {
      assert a + b == b;
    } else {
      assert (a + b)[1..] == a[1..] + b;
      FeedMatchesAppend(visit, visit(s, a[0].keys, a[0].value), a[1..], b);
    }
  }

  lemma {:induction false} SettleAppend(a: seq<Pending>, b: seq<Pending>)
    ensures Settle(a + b) == Settle(a) + Settle(b)
  {
    if a == [] {
      assert a + b == b;
    } else {
      var head := if Settled(a[0]) then [Match(a[0].keys, a[0].value.value)] else [];
      assert (a + b)[0] == a[0] && (a + b)[1..] == a[1..] + b;
      assert Settle(a + b) == head + Settle(a[1..] + b);
      SettleAppend(a[1..], b);
      Associate(head, Settle(a[1..]), Settle(b));
    }
  }

  /** A plain run applied to every pending value, as a node with that ending does. */
  function RunEnding(ending: seq<PlainSelector>, current: Json, root: Json, ps: seq<Pending>): (r: seq<Pending>)
    ensures |r| == |ps|
    ensures forall i | 0 <= i < |r| :: r[i] == EndingStep(ending, current, root, ps[i])
  {
    if ps == [] then [] else [EndingStep(ending, current, root, ps[0])] + RunEnding(ending, current, root, ps[1..])
  }

  function EndingStep(ending: seq<PlainSelector>, current: Json, root: Json, p: Pending): Pending {
    Pending(p.keys,
            if p.value.Ok? then EvaluatePath(ending, current, root, p.value.value) else Err,
            p.ran || ending != [])
  }

  /** The pending values at the open end of a node chain. */
  function PendingsOf(p: Path, current: Json, root: Json): seq<Pending> {
    match p
    case Plain(sels) => [Pending([], EvaluatePath(sels, current, root, root), true)]
    case Ambiguous(parent, branch, ending) =>
      RunEnding(ending, current, root, StepBranch(branch, root, Settle(PendingsOf(parent, current, root))))
  }

  lemma {:induction false} RunEndingAppend(ending: seq<PlainSelector>, current: Json, root: Json, a: seq<Pending>,
                                           b: seq<Pending>)
    ensures RunEnding(ending, current, root, a + b)
         == RunEnding(ending, current, root, a) + RunEnding(ending, current, root, b)
  {
    if a == [] {
      assert a + b == b;
    } else {
      var head, rest := [EndingStep(ending, current, root, a[0])], RunEnding(ending, current, root, a[1..]);
      assert (a + b)[0] == a[0] && (a + b)[1..] == a[1..] + b;
      RunEndingAppend(ending, current, root, a[1..], b);
      Associate(head, rest, RunEnding(ending, current, root, b));
    }
  }

  lemma EndingStepSnoc(ending: seq<PlainSelector>, sel: PlainSelector, current: Json, root: Json, p: Pending)
    ensures EndingStep(ending + [sel], current, root, p)
         == PlainStep(sel, current, root, EndingStep(ending, current, root, p))
  {
    if p.value.Ok? {
      EvaluateAppend(ending, [sel], current, root, p.value.value);
      SinglePlain(sel, current, root, p.value.value);
    }
  }

  lemma SinglePlain(sel: PlainSelector, current: Json, root: Json, v: Json)
    ensures EvaluatePath([sel], current, root, v) == ApplyPlain(sel, current, root, v)
  {
    assert [sel][1..] == [];
  }

  lemma EndingSnoc(ending: seq<PlainSelector>, sel: PlainSelector, current: Json, root: Json, ps: seq<Pending>)
    ensures RunEnding(ending + [sel], current, root, ps)
         == StepPlain(sel, current, root, RunEnding(ending, current, root, ps))
  {
    var a := RunEnding(ending + [sel], current, root, ps);
    var b := StepPlain(sel, current, root, RunEnding(ending, current, root, ps));
    forall i | 0 <= i < |ps| ensures a[i] == b[i] {
      EndingStepSnoc(ending, sel, current, root, ps[i]);
    }
  }

  lemma EmptyEnding(current: Json, root: Json, ps: seq<Pending>)
    ensures RunEnding([], current, root, ps) == ps
  {
    forall i | 0 <= i < |ps| ensures EndingStep([], current, root, ps[i]) == ps[i] {}
  }

  lemma PendingsOfPlain(p: Path, sel: PlainSelector, current: Json, root: Json)
    ensures PendingsOf(p.WithPlain(sel), current, root) == StepPlain(sel, current, root, PendingsOf(p, current, root))
  {
    match p
    case Plain(sels) =>
      var start := Pending([], Ok(root), true);
      EndingStepSnoc(sels, sel, current, root, start);
      assert PendingsOf(p, current, root) == [EndingStep(sels, current, root, start)];
      assert StepPlain(sel, current, root, PendingsOf(p, current, root))[1..] == [];
    case Ambiguous(parent, branch, ending) =>
      EndingSnoc(ending, sel, current, root, StepBranch(branch, root, Settle(PendingsOf(parent, current, root))));
  }

  lemma PendingsOfBranch(p: Path, sel: BranchSelector, current: Json, root: Json)
    ensures PendingsOf(p.WithBranch(sel), current, root) == StepBranch(sel, root, Settle(PendingsOf(p, current, root)))
  {
    EmptyEnding(current, root, StepBranch(sel, root, Settle(PendingsOf(p, current, root))));
  }

  /** Building a chain by the fold computes the left-to-right pending values. */
  lemma {:induction false} BuildPendings(segments: seq<Segment>, current: Json, root: Json)
    ensures PendingsOf(Build(segments), current, root) == Pendings(segments, current, root)
  {
    if segments != [] {
      var init, last := segments[..|segments| - 1], segments[|segments| - 1];
      BuildPendings(init, current, root);
      match last {
        case Single(sel) => PendingsOfPlain(Build(init), sel, current, root);
        case Branch(sel) => PendingsOfBranch(Build(init), sel, current, root);
      }
    }
  }

  lemma {:induction false} FeedCalls<S>(ending: seq<PlainSelector>, current: Json, root: Json,
                                        visit: (S, seq<Key>, Json) -> S, keys: seq<Key>, s: S, calls: seq<Call>)
    ensures Feed(EndingMatcher(ending, current, root, KeysMatcher(visit, keys)), s, calls)
         == FeedMatches(visit, s, Settle(RunEnding(ending, current, root, Extend(keys, calls))))
  {
    if calls != [] {
      var f := EndingMatcher(ending, current, root, KeysMatcher(visit, keys));
      FeedCalls(ending, current, root, visit, keys, f(s, calls[0].key, calls[0].value), calls[1..]);
      var ps := Extend(keys, calls);
      assert ps[1..] == Extend(keys, calls[1..]);
      var rs := RunEnding(ending, current, root, ps);
      assert rs[1..] == RunEnding(ending, current, root, ps[1..]);
      assert rs[0] == EndingStep(ending, current, root, ps[0]);
      var rest := Settle(rs[1..]);
      if Settled(rs[0]) {
        assert Settle(rs)[1..] == rest;
      } else {
        assert Settle(rs) == rest;
      }
    }
  }

  lemma {:induction false} FeedParents<S>(branch: BranchSelector, ending: seq<PlainSelector>, current: Json, root: Json,
                                          visit: (S, seq<Key>, Json) -> S, s: S, ms: seq<Match>)
    ensures FeedMatches(ParentVisitor(branch, ending, current, root, visit), s, ms)
         == FeedMatches(visit, s, Settle(RunEnding(ending, current, root, StepBranch(branch, root, ms))))
  {
    if ms != [] {
      var f := ParentVisitor(branch, ending, current, root, visit);
      var calls := Calls(branch, root, ms[0].value);
      RunBranchFeedsCalls(branch, root, ms[0].value,
                          EndingMatcher(ending, current, root, KeysMatcher(visit, ms[0].keys)), s);
      FeedCalls(ending, current, root, visit, ms[0].keys, s, calls);
      var s' := f(s, ms[0].keys, ms[0].value);
      FeedParents(branch, ending, current, root, visit, s', ms[1..]);
      var a, b := Extend(ms[0].keys, calls), StepBranch(branch, root, ms[1..]);
      RunEndingAppend(ending, current, root, a, b);
      SettleAppend(RunEnding(ending, current, root, a), RunEnding(ending, current, root, b));
      FeedMatchesAppend(visit, s, Settle(RunEnding(ending, current, root, a)),
                        Settle(RunEnding(ending, current, root, b)));
    }
  }

  lemma {:induction false} VisitFeedsPendings<S>(p: Path, current: Json, root: Json, visit: (S, seq<Key>,
                                                 Json) -> S, s: S)
    ensures VisitMatches(p, current, root, visit, s) == FeedMatches(visit, s, Settle(PendingsOf(p, current, root)))
    decreases p
  {
    match p
    case Plain(sels) =>
      var ps := PendingsOf(p, current, root);
      assert ps[1..] == [];
      if Settled(ps[0]) { assert Settle(ps) == [Match([], ps[0].value.value)]; }
    case Ambiguous(parent, branch, ending) =>
      var f := ParentVisitor(branch, ending, current, root, visit);
      VisitFeedsPendings(parent, current, root, f, s);
      FeedParents(branch, ending, current, root, visit, s, Settle(PendingsOf(parent, current, root)));
  }

  /** Refinement: the built chain reports to any visitor exactly the matches of the list
      semantics, in order. */
  lemma EngineRefinesMatches<S>(segments: seq<Segment>, current: Json, root: Json, visit: (S, seq<Key>,
                                Json) -> S, s: S)
    ensures VisitMatches(Build(segments), current, root, visit, s)
         == FeedMatches(visit, s, Matches(segments, current, root))
  {
    VisitFeedsPendings(Build(segments), current, root, visit, s);
    BuildPendings(segments, current, root);
  }

  // ---- evaluate ----

  function ValuesOf(ms: seq<Match>): (vs: seq<Json>)
    ensures |vs| == |ms| && forall i | 0 <= i < |ms| :: vs[i] == ms[i].value
  {
    seq(|ms|, i requires 0 <= i < |ms| => ms[i].value)
  }

  function Collect(): (seq<Json>, seq<Key>, Json) -> seq<Json> {
    (found, keys, v) => found + [v]
  }

  lemma {:induction false} FeedCollect(found: seq<Json>, ms: seq<Match>)
    ensures FeedMatches(Collect(), found, ms) == found + ValuesOf(ms)
    decreases ms
  {
    if ms != [] {
      FeedCollect(found + [ms[0].value], ms[1..]);
      assert ValuesOf(ms) == [ms[0].value] + ValuesOf(ms[1..]);
    }
  }

  /** evaluate: a single value for a plain path, the list of matches once there is a branch. */
  function Evaluate(p: Path, current: Json, root: Json): Result<Json> {
    match p
    case Plain(sels) => EvaluatePath(sels, current, root, root)
    case Ambiguous(_, _, _) => Ok(Array(VisitMatches(p, current, root, Collect(), [])))
  }

  predicate HasBranch(segments: seq<Segment>) {
    exists i | 0 <= i < |segments| :: segments[i].Branch?
  }

  lemma {:induction false} BuildShape(segments: seq<Segment>)
    ensures Build(segments).Ambiguous? <==> HasBranch(segments)
  {
    if segments != [] {
      var init := segments[..|segments| - 1];
      BuildShape(init);
      if HasBranch(init) {
        var i :| 0 <= i < |init| && init[i].Branch?;
        assert segments[i].Branch?;
      }
      assert segments[|segments| - 1].Branch? ==> HasBranch(segments);
    }
  }

  /** With a branch anywhere, evaluate never fails and lists the matched values in order. */
  lemma EvaluateLists(segments: seq<Segment>, current: Json, root: Json)
    requires HasBranch(segments)
    ensures Evaluate(Build(segments), current, root) == Ok(Array(ValuesOf(Matches(segments, current, root))))
  {
    BuildShape(segments);
    EngineRefinesMatches(segments, current, root, Collect(), []);
    FeedCollect([], Matches(segments, current, root));
    assert [] + ValuesOf(Matches(segments, current, root)) == ValuesOf(Matches(segments, current, root));
  }
}
