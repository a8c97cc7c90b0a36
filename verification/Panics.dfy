/** The match engine with the panic of an overflowing range step: it ends the whole evaluation
    (jsonpath/selector.go, jsonpath/path.go). */
module Panics {
  import opened Sequences
  import opened Values
  import opened Documents
  import opened Selectors
  import opened Ranges
  import opened Visitors
  import opened Paths
  import opened Soundness

  predicate BranchPanics(sel: BranchSelector, root: Json, v: Json) {
    sel.Range? && RangePanics(sel.min, sel.max, sel.step, root, v)
  }

  /** One ambiguous selector: a range whose step overflows panics after its last visit. */
  function RunOrPanic<S>(sel: BranchSelector, root: Json, v: Json, visit: (Outcome<S>, Key, Json) -> Outcome<S>,
                         o: Outcome<S>): Outcome<S>
  {
    var r := RunBranch(sel, root, v, visit, o);
    if BranchPanics(sel, root, v) then Panic else r
  }

  /** RangeSelect, the loop on 64-bit integers, run inside the engine has this outcome. */
  method RangeOrPanic<S>(min: Expr, max: Expr, step: Expr, root: Json, v: Json,
                         visit: (Outcome<S>, Key, Json) -> Outcome<S>, start: Outcome<S>) returns (out: Outcome<S>)
    requires IsGoValue(v)
    ensures out == RunOrPanic(Range(min, max, step), root, v, visit, start)
  {
    var r := RangeSelect(min, max, step, root, v, visit, start);
    RunBranchFeedsCalls(Range(min, max, step), root, v, visit, start);
    match r
    case Panic => out := Panic;
    case Done(o) => out := o;
  }

  /** After a panic nothing is called any more. */
  function ParentOrPanic<S>(branch: BranchSelector, ending: seq<PlainSelector>, current: Json, root: Json,
                            visit: (Outcome<S>, seq<Key>, Json) -> Outcome<S>)
    : (Outcome<S>, seq<Key>, Json) -> Outcome<S>
  {
    (o: Outcome<S>, keys: seq<Key>, v: Json) =>
      if o.Panic? then Panic
      else RunOrPanic(branch, root, v, EndingMatcher(ending, current, root, KeysMatcher(visit, keys)), o)
  }

  function VisitOrPanic<S>(p: Path, current: Json, root: Json, visit: (Outcome<S>, seq<Key>, Json) -> Outcome<S>,
                           o: Outcome<S>): Outcome<S>
  {
    match p
    case Plain(sels) =>
      (match EvaluatePath(sels, current, root, root)
       case Ok(res) => if res.Undefined? then o else visit(o, [], res)
       case Err => o)
    case Ambiguous(parent, branch, ending) =>
      VisitOrPanic(parent, current, root, ParentOrPanic(branch, ending, current, root, visit), o)
  }

  /** A visitor that does not panic itself. */
  function Calm<S>(visit: (S, seq<Key>, Json) -> S): (Outcome<S>, seq<Key>, Json) -> Outcome<S> {
    (o: Outcome<S>, keys: seq<Key>, v: Json) =>
      if o.Panic? then Panic else Done(visit(o.state, keys, v))
  }

  ghost predicate Strict<S>(visit: (Outcome<S>, seq<Key>, Json) -> Outcome<S>) {
    forall keys, v :: visit(Panic, keys, v) == Panic
  }

  // ---- Which paths panic ----

  predicate SomePanics(sel: BranchSelector, root: Json, ms: seq<Match>) {
    exists i | 0 <= i < |ms| :: BranchPanics(sel, root, ms[i].value)
  }

  /** Some range of the path meets a value on which its step overflows. */
  predicate PathPanics(segments: seq<Segment>, current: Json, root: Json) {
    exists i | 0 <= i < |segments| :: PanicsAt(segments, current, root, i)
  }

  predicate PanicsAt(segments: seq<Segment>, current: Json, root: Json, i: nat)
    requires i < |segments|
  {
    segments[i].Branch? && SomePanics(segments[i].sel, root, Matches(segments[..i], current, root))
  }

  predicate ChainPanics(p: Path, current: Json, root: Json) {
    match p
    case Plain(_) => false
    case Ambiguous(parent, branch, ending) =>
      ChainPanics(parent, current, root) || SomePanics(branch, root, Settle(PendingsOf(parent, current, root)))
  }

  lemma PanicsAtPrefix(init: seq<Segment>, last: Segment, current: Json, root: Json, i: nat)
    requires i < |init|
    ensures PanicsAt(init + [last], current, root, i) <==> PanicsAt(init, current, root, i)
  {
    assert (init + [last])[..i] == init[..i] && (init + [last])[i] == init[i];
  }

  lemma PanicsAtLast(init: seq<Segment>, last: Segment, current: Json, root: Json)
    ensures PanicsAt(init + [last], current, root, |init|)
            <==> last.Branch? && SomePanics(last.sel, root, Matches(init, current, root))
  {
    assert (init + [last])[..|init|] == init && (init + [last])[|init|] == last;
  }

  lemma PanicsSnoc(init: seq<Segment>, last: Segment, current: Json, root: Json)
    ensures PathPanics(init + [last], current, root) <==>
              PathPanics(init, current, root)
              || (last.Branch? && SomePanics(last.sel, root, Matches(init, current, root)))
  {
    PanicsAtLast(init, last, current, root);
    if PathPanics(init + [last], current, root) {
      var i :| 0 <= i < |init| + 1 && PanicsAt(init + [last], current, root, i);
      if i < |init| { PanicsAtPrefix(init, last, current, root, i); }
    }
    if PathPanics(init, current, root) {
      var i :| 0 <= i < |init| && PanicsAt(init, current, root, i);
      PanicsAtPrefix(init, last, current, root, i);
    }
  }

  lemma {:induction false} BuildPanics(segments: seq<Segment>, current: Json, root: Json)
    ensures ChainPanics(Build(segments), current, root) <==> PathPanics(segments, current, root)
  {
    if segments != [] {
      var init, last := segments[..|segments| - 1], segments[|segments| - 1];
      SplitLast(segments);
      BuildPanics(init, current, root);
      BuildPendings(init, current, root);
      PanicsSnoc(init, last, current, root);
    }
  }

  // ---- What the engine does ----

  lemma {:induction false} FeedStrict<S>(visit: (Outcome<S>, seq<Key>, Json) -> Outcome<S>, ms: seq<Match>)
    requires Strict(visit)
    ensures FeedMatches(visit, Panic, ms) == Panic
  {
    if ms != [] { FeedStrict(visit, ms[1..]); }
  }

  lemma ParentIsStrict<S>(branch: BranchSelector, ending: seq<PlainSelector>, current: Json, root: Json,
                          visit: (Outcome<S>, seq<Key>, Json) -> Outcome<S>)
    ensures Strict(ParentOrPanic(branch, ending, current, root, visit))
  {}

  /** What one branch reports of its matches. */
  function Reported(branch: BranchSelector, ending: seq<PlainSelector>, current: Json, root: Json,
                    ms: seq<Match>): seq<Match>
  {
    Settle(RunEnding(ending, current, root, StepBranch(branch, root, ms)))
  }

  lemma ReportedFirst(branch: BranchSelector, ending: seq<PlainSelector>, current: Json, root: Json, ms: seq<Match>)
    requires ms != []
    ensures Reported(branch, ending, current, root, ms)
         == Settle(RunEnding(ending, current, root, Extend(ms[0].keys, Calls(branch, root, ms[0].value))))
            + Reported(branch, ending, current, root, ms[1..])
  {
    var a, b := Extend(ms[0].keys, Calls(branch, root, ms[0].value)), StepBranch(branch, root, ms[1..]);
    RunEndingAppend(ending, current, root, a, b);
    SettleAppend(RunEnding(ending, current, root, a), RunEnding(ending, current, root, b));
  }

  /** One match handed to a branch. */
  lemma ParentOnce<S>(branch: BranchSelector, ending: seq<PlainSelector>, current: Json, root: Json,
                      visit: (Outcome<S>, seq<Key>, Json) -> Outcome<S>, o: Outcome<S>, m: Match)
    requires o.Done?
    ensures ParentOrPanic(branch, ending, current, root, visit)(o, m.keys, m.value)
         == if BranchPanics(branch, root, m.value) then Panic
            else FeedMatches(visit, o, Settle(RunEnding(ending, current, root,
                                                        Extend(m.keys, Calls(branch, root, m.value)))))
  {
    var f := EndingMatcher(ending, current, root, KeysMatcher(visit, m.keys));
    RunBranchFeedsCalls(branch, root, m.value, f, o);
    FeedCalls(ending, current, root, visit, m.keys, o, Calls(branch, root, m.value));
  }

  lemma SomePanicsFirst(sel: BranchSelector, root: Json, ms: seq<Match>)
    requires ms != []
    ensures SomePanics(sel, root, ms) <==> BranchPanics(sel, root, ms[0].value) || SomePanics(sel, root, ms[1..])
  {
    if i :| 0 <= i < |ms| && BranchPanics(sel, root, ms[i].value) {
      assert i > 0 ==> ms[1..][i - 1] == ms[i];
    }
    if i :| 0 <= i < |ms[1..]| && BranchPanics(sel, root, ms[1..][i].value) {
      assert ms[i + 1] == ms[1..][i];
    }
  }

  lemma {:induction false} FeedParentsOrPanic<S>(branch: BranchSelector, ending: seq<PlainSelector>, current: Json,
                                                 root: Json, visit: (Outcome<S>, seq<Key>, Json) -> Outcome<S>,
                                                 o: Outcome<S>, ms: seq<Match>)
    requires Strict(visit)
    ensures FeedMatches(ParentOrPanic(branch, ending, current, root, visit), o, ms)
         == if o.Panic? || SomePanics(branch, root, ms) then Panic
            else FeedMatches(visit, o, Reported(branch, ending, current, root, ms))
    decreases ms
  {
    var f := ParentOrPanic(branch, ending, current, root, visit);
    if o.Panic? {
      ParentIsStrict(branch, ending, current, root, visit);
      FeedStrict(f, ms);
    } else if ms != [] {
      var next := f(o, ms[0].keys, ms[0].value);
      ParentOnce(branch, ending, current, root, visit, o, ms[0]);
      FeedParentsOrPanic(branch, ending, current, root, visit, next, ms[1..]);
      SomePanicsFirst(branch, root, ms);
      if !BranchPanics(branch, root, ms[0].value) {
        FeedReported(branch, ending, current, root, visit, o, next, ms);
      }
    }
  }

  /** The matches of the first value, then those of the others. */
  lemma FeedReported<S>(branch: BranchSelector, ending: seq<PlainSelector>, current: Json, root: Json,
                        visit: (Outcome<S>, seq<Key>, Json) -> Outcome<S>, o: Outcome<S>, next: Outcome<S>,
                        ms: seq<Match>)
    requires Strict(visit) && ms != []
    requires next == FeedMatches(visit, o, Settle(RunEnding(ending, current, root,
                                                            Extend(ms[0].keys, Calls(branch, root, ms[0].value)))))
    ensures FeedMatches(visit, o, Reported(branch, ending, current, root, ms))
         == if next.Panic? then Panic else FeedMatches(visit, next, Reported(branch, ending, current, root, ms[1..]))
  {
    var here := Settle(RunEnding(ending, current, root, Extend(ms[0].keys, Calls(branch, root, ms[0].value))));
    var rest := Reported(branch, ending, current, root, ms[1..]);
    ReportedFirst(branch, ending, current, root, ms);
    FeedMatchesAppend(visit, o, here, rest);
    if next.Panic? { FeedStrict(visit, rest); }
  }

  lemma {:induction false} VisitOrPanicFeeds<S>(p: Path, current: Json, root: Json,
                                                visit: (Outcome<S>, seq<Key>, Json) -> Outcome<S>, o: Outcome<S>)
    requires Strict(visit) && o.Done?
    ensures VisitOrPanic(p, current, root, visit, o)
         == if ChainPanics(p, current, root) then Panic
            else FeedMatches(visit, o, Settle(PendingsOf(p, current, root)))
    decreases p
  {
    match p
    case Plain(sels) =>
      var q := Pending([], EvaluatePath(sels, current, root, root), true);
      assert PendingsOf(p, current, root) == [q] && [q][1..] == [];
      if Settled(q) { assert Settle([q]) == [Match([], q.value.value)]; }
    case Ambiguous(parent, branch, ending) =>
      var f := ParentOrPanic(branch, ending, current, root, visit);
      ParentIsStrict(branch, ending, current, root, visit);
      VisitOrPanicFeeds(parent, current, root, f, o);
      FeedParentsOrPanic(branch, ending, current, root, visit, o, Settle(PendingsOf(parent, current, root)));
  }

  lemma {:induction false} FeedCalm<S>(visit: (S, seq<Key>, Json) -> S, s: S, ms: seq<Match>)
    ensures FeedMatches(Calm(visit), Done(s), ms) == Done(FeedMatches(visit, s, ms))
    decreases ms
  {
    if ms != [] { FeedCalm(visit, visit(s, ms[0].keys, ms[0].value), ms[1..]); }
  }

  /** The engine with panics: it panics if and only if some range meets a value on which its step
      overflows, and otherwise reports exactly the matches, in order. */
  lemma EngineOutcome<S>(segments: seq<Segment>, current: Json, root: Json, visit: (S, seq<Key>, Json) -> S, s: S)
    ensures VisitOrPanic(Build(segments), current, root, Calm(visit), Done(s))
         == if PathPanics(segments, current, root) then Panic
            else Done(FeedMatches(visit, s, Matches(segments, current, root)))
  {
    VisitOrPanicFeeds(Build(segments), current, root, Calm(visit), Done(s));
    BuildPanics(segments, current, root);
    BuildPendings(segments, current, root);
    FeedCalm(visit, s, Matches(segments, current, root));
  }

  /** evaluate, with the panic. */
  function EvaluateOrPanic(p: Path, current: Json, root: Json): Outcome<Result<Json>> {
    match p
    case Plain(sels) => Done(EvaluatePath(sels, current, root, root))
    case Ambiguous(_, _, _) =>
      match VisitOrPanic(p, current, root, Calm(Collect()), Done([]))
      case Done(found) => Done(Ok(Array(found)))
      case Panic => Panic
  }

  /** Undefined containment with the panic: a script-free path with a branch panics if and only if a
      range step overflows; otherwise it yields a list of documents, without Undefined at any depth,
      and never an error. */
  lemma EvaluationContained(segments: seq<Segment>, current: Json, root: Json)
    requires IsDocument(root) && ScriptFree(segments, current) && HasBranch(segments)
    ensures var o := EvaluateOrPanic(Build(segments), current, root);
            && (o.Panic? <==> PathPanics(segments, current, root))
            && (o.Done? ==> o.state.Ok? && o.state.value.Array?
                            && forall i | 0 <= i < |o.state.value.elems| :: IsDocument(o.state.value.elems[i]))
  {
    BuildShape(segments);
    EngineOutcome(segments, current, root, Collect(), []);
    EngineRefinesMatches(segments, current, root, Collect(), []);
    UndefinedContained(segments, current, root);
  }
}
