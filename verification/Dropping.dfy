/** Errors and Undefined are dropped at the end of each plain run. When is that the same as
    dropping them after every selector? (jsonpath/path.go) */
module Dropping {
  import opened Sequences
  import opened Values
  import opened Selectors
  import opened Paths

  // ---- Dropping early ----

  /** One plain selector with errors and Undefined dropped at once. */
  function DropPlain(sel: PlainSelector, current: Json, root: Json, ms: seq<Match>): seq<Match> {
    if ms == [] then [] else DropPlainOne(sel, current, root, ms[0]) + DropPlain(sel, current, root, ms[1..])
  }

  function DropPlainOne(sel: PlainSelector, current: Json, root: Json, m: Match): seq<Match> {
    match ApplyPlain(sel, current, root, m.value)
    case Ok(v) => if v.Undefined? then [] else [Match(m.keys, v)]
    case Err => []
  }

  /** Left to right, dropping after every plain selector instead of at the end of each run. */
  function EagerMatches(segments: seq<Segment>, current: Json, root: Json): seq<Match> {
    if segments == [] then if root.Undefined? then [] else [Match([], root)]
    else
      var ms := EagerMatches(segments[..|segments| - 1], current, root);
      match segments[|segments| - 1]
      case Single(sel) => DropPlain(sel, current, root, ms)
      case Branch(sel) => Settle(StepBranch(sel, root, ms))
  }

  // ---- One selector ----

  /** Undefined stays Undefined, or becomes an error. */
  predicate Absorbs(sel: PlainSelector, current: Json, root: Json) {
    var r := ApplyPlain(sel, current, root, Undefined);
    r.Err? || r.value.Undefined?
  }

  /** A value that the end of the run would drop as Undefined. */
  predicate IsLost(p: Pending) { p.ran && p.value == Ok(Undefined) }

  predicate HasLost(ps: seq<Pending>) { exists i | 0 <= i < |ps| :: IsLost(ps[i]) }

  lemma {:induction false} DropAppend(sel: PlainSelector, current: Json, root: Json, a: seq<Match>, b: seq<Match>)
    ensures DropPlain(sel, current, root, a + b) == DropPlain(sel, current, root, a) + DropPlain(sel, current, root, b)
  {
    if a == [] {
      assert a + b == b;
    } else {
      assert (a + b)[0] == a[0] && (a + b)[1..] == a[1..] + b;
      DropAppend(sel, current, root, a[1..], b);
      Associate(DropPlainOne(sel, current, root, a[0]), DropPlain(sel, current, root, a[1..]),
                DropPlain(sel, current, root, b));
    }
  }

  lemma LateFirst(sel: PlainSelector, current: Json, root: Json, ps: seq<Pending>)
    requires ps != []
    ensures Settle(StepPlain(sel, current, root, ps))
         == Settle([PlainStep(sel, current, root, ps[0])]) + Settle(StepPlain(sel, current, root, ps[1..]))
  {
    SettleAppend([PlainStep(sel, current, root, ps[0])], StepPlain(sel, current, root, ps[1..]));
  }

  lemma EarlyFirst(sel: PlainSelector, current: Json, root: Json, ps: seq<Pending>)
    requires ps != []
    ensures DropPlain(sel, current, root, Settle(ps))
         == DropPlain(sel, current, root, Settle([ps[0]])) + DropPlain(sel, current, root, Settle(ps[1..]))
  {
    assert ps == [ps[0]] + ps[1..];
    SettleAppend([ps[0]], ps[1..]);
    DropAppend(sel, current, root, Settle([ps[0]]), Settle(ps[1..]));
  }

  lemma SettleOne(p: Pending)
    ensures Settle([p]) == if Settled(p) then [Match(p.keys, p.value.value)] else []
  {
    assert [p][1..] == [];
  }

  lemma DropOne(sel: PlainSelector, current: Json, root: Json, m: Match)
    ensures DropPlain(sel, current, root, [m]) == DropPlainOne(sel, current, root, m)
  {
    assert [m][1..] == [];
    assert DropPlainOne(sel, current, root, m) + [] == DropPlainOne(sel, current, root, m);
  }

  /** For one pending value, late and early dropping differ exactly where Undefined is revived,
      and then the late one reports a match more. */
  lemma DropsOfOne(sel: PlainSelector, current: Json, root: Json, p: Pending)
    ensures var late, early := Settle([PlainStep(sel, current, root, p)]), DropPlain(sel, current, root, Settle([p]));
            if IsLost(p) && !Absorbs(sel, current, root) then |late| == 1 && early == [] else late == early
  {
    SettleOne(p);
    SettleOne(PlainStep(sel, current, root, p));
    if Settled(p) { DropOne(sel, current, root, Match(p.keys, p.value.value)); }
  }

  lemma {:induction false} DropsCommute(sel: PlainSelector, current: Json, root: Json, ps: seq<Pending>)
    requires Absorbs(sel, current, root) || !HasLost(ps)
    ensures Settle(StepPlain(sel, current, root, ps)) == DropPlain(sel, current, root, Settle(ps))
  {
    if ps != [] {
      assert HasLost(ps[1..]) ==> HasLost(ps) by {
        if i :| 0 <= i < |ps[1..]| && IsLost(ps[1..][i]) { assert IsLost(ps[i + 1]); }
      }
      assert IsLost(ps[0]) ==> HasLost(ps);
      LateFirst(sel, current, root, ps);
      EarlyFirst(sel, current, root, ps);
      DropsOfOne(sel, current, root, ps[0]);
      DropsCommute(sel, current, root, ps[1..]);
    }
  }

  /** Late dropping reports every match that early dropping does, and one more for each lost
      Undefined that is revived. */
  lemma {:induction false} RevivedAreMore(sel: PlainSelector, current: Json, root: Json, ps: seq<Pending>)
    requires !Absorbs(sel, current, root)
    ensures |Settle(StepPlain(sel, current, root, ps))| >= |DropPlain(sel, current, root, Settle(ps))|
    ensures HasLost(ps) ==> |Settle(StepPlain(sel, current, root, ps))| > |DropPlain(sel, current, root, Settle(ps))|
  {
    if ps != [] {
      LateFirst(sel, current, root, ps);
      EarlyFirst(sel, current, root, ps);
      DropsOfOne(sel, current, root, ps[0]);
      RevivedAreMore(sel, current, root, ps[1..]);
      if HasLost(ps) && !IsLost(ps[0]) {
        var i :| 0 <= i < |ps| && IsLost(ps[i]);
        assert IsLost(ps[1..][i - 1]);
      }
    }
  }

  // ---- A whole path ----

  /** Nothing is lost before this plain selector, or the selector absorbs. */
  predicate SafeAt(segments: seq<Segment>, current: Json, root: Json, i: nat)
    requires i < |segments|
  {
    segments[i].Single? ==>
      Absorbs(segments[i].plain, current, root) || !HasLost(Pendings(segments[..i], current, root))
  }

  predicate AgreeAt(segments: seq<Segment>, current: Json, root: Json, n: nat)
    requires n <= |segments|
  {
    Matches(segments[..n], current, root) == EagerMatches(segments[..n], current, root)
  }

  lemma AgreeAtStart(segments: seq<Segment>, current: Json, root: Json)
    ensures AgreeAt(segments, current, root, 0)
  {
    var start := Pending([], Ok(root), true);
    assert segments[..0] == [];
    assert Pendings([], current, root) == [start];
    SettleOne(start);
  }

  /** Agreement goes on over one more segment exactly if that segment is safe. */
  lemma AgreeStep(segments: seq<Segment>, current: Json, root: Json, n: nat)
    requires n < |segments| && AgreeAt(segments, current, root, n)
    ensures AgreeAt(segments, current, root, n + 1) <==> SafeAt(segments, current, root, n)
  {
    var init, all := segments[..n], segments[..n + 1];
    assert all[..|all| - 1] == init && all[|all| - 1] == segments[n];
    if segments[n].Single? {
      var sel, ps := segments[n].plain, Pendings(init, current, root);
      if Absorbs(sel, current, root) || !HasLost(ps) {
        DropsCommute(sel, current, root, ps);
      } else {
        RevivedAreMore(sel, current, root, ps);
      }
    }
  }

  lemma {:induction false} SafeAgrees(segments: seq<Segment>, current: Json, root: Json, n: nat)
    requires n <= |segments| && forall i | 0 <= i < n :: SafeAt(segments, current, root, i)
    ensures AgreeAt(segments, current, root, n)
  {
    if n == 0 {
      AgreeAtStart(segments, current, root);
    } else {
      SafeAgrees(segments, current, root, n - 1);
      AgreeStep(segments, current, root, n - 1);
    }
  }

  /** The exact condition: late and early dropping report the same matches for a path and all its
      prefixes if and only if no selector revives an Undefined that was lost before it. */
  lemma DropsAgreeIff(segments: seq<Segment>, current: Json, root: Json)
    ensures (forall n | 0 <= n <= |segments| :: AgreeAt(segments, current, root, n))
            <==> (forall i | 0 <= i < |segments| :: SafeAt(segments, current, root, i))
  {
    if forall i | 0 <= i < |segments| :: SafeAt(segments, current, root, i) {
      forall n | 0 <= n <= |segments| ensures AgreeAt(segments, current, root, n) {
        SafeAgrees(segments, current, root, n);
      }
    }
    if forall n | 0 <= n <= |segments| :: AgreeAt(segments, current, root, n) {
      forall i | 0 <= i < |segments| ensures SafeAt(segments, current, root, i) {
        assert AgreeAt(segments, current, root, i) && AgreeAt(segments, current, root, i + 1);
        AgreeStep(segments, current, root, i);
      }
    }
  }

  /** Plain selectors absorb, save the first of all if the root is defined: so do direct
      selectors, scripts that keep Undefined or fail on it, and a leading `@`. */
  lemma LateDropIsEagerDrop(segments: seq<Segment>, current: Json, root: Json)
    requires forall i | 0 <= i < |segments| && segments[i].Single? ::
               segments[i].plain.Direct? || Absorbs(segments[i].plain, current, root) || (i == 0 && !root.Undefined?)
    ensures Matches(segments, current, root) == EagerMatches(segments, current, root)
  {
    forall i | 0 <= i < |segments| ensures SafeAt(segments, current, root, i) {
      if i == 0 { assert Pendings(segments[..0], current, root) == [Pending([], Ok(root), true)]; }
    }
    SafeAgrees(segments, current, root, |segments|);
    assert segments[..|segments|] == segments;
  }

  /** Absorbing is what a selector needs to be safe behind any path: it is, exactly if dropping
      agrees behind every path of absorbing selectors. */
  lemma AbsorbingIsExact(sel: PlainSelector, current: Json, root: Json)
    ensures Absorbs(sel, current, root) <==> forall init | AllAbsorb(init, current, root) ::
              Matches(init + [Single(sel)], current, root) == EagerMatches(init + [Single(sel)], current, root)
  {
    if Absorbs(sel, current, root) {
      forall init | AllAbsorb(init, current, root)
        ensures Matches(init + [Single(sel)], current, root) == EagerMatches(init + [Single(sel)], current, root)
      {
        LateDropIsEagerDrop(init + [Single(sel)], current, root);
      }
    } else {
      var init := [Single(Script(ConstUndefined()))];
      UndefinedIsLost(current, root);
      LateDropIsEagerDrop(init, current, root);
      Revived(init, sel, current, root);
    }
  }

  predicate AllAbsorb(segments: seq<Segment>, current: Json, root: Json) {
    forall i | 0 <= i < |segments| && segments[i].Single? :: Absorbs(segments[i].plain, current, root)
  }

  /** A script that always gives Undefined. */
  function ConstUndefined(): Expr {
    Expr((c, r) => Ok(""), (c, r) => Err, (c, r) => Err, (c, r) => Ok(Undefined))
  }

  lemma UndefinedIsLost(current: Json, root: Json)
    ensures AllAbsorb([Single(Script(ConstUndefined()))], current, root)
    ensures HasLost(Pendings([Single(Script(ConstUndefined()))], current, root))
  {
    var sel := Script(ConstUndefined());
    var start := [Pending([], Ok(root), true)];
    var init := [Single(sel)];
    assert init[..0] == [] && init[|init| - 1] == Single(sel);
    assert Pendings([], current, root) == start;
    var ps := Pendings(init, current, root);
    assert ps == Step(Single(sel), current, root, start) == StepPlain(sel, current, root, start);
    assert ps[0] == PlainStep(sel, current, root, start[0]);
    assert IsLost(ps[0]);
  }

  /** Behind any path that loses an Undefined, a selector that does not absorb makes late
      dropping report more matches than early dropping. */
  lemma Revived(init: seq<Segment>, sel: PlainSelector, current: Json, root: Json)
    requires !Absorbs(sel, current, root) && HasLost(Pendings(init, current, root))
    requires Matches(init, current, root) == EagerMatches(init, current, root)
    ensures |Matches(init + [Single(sel)], current, root)| > |EagerMatches(init + [Single(sel)], current, root)|
  {
    assert (init + [Single(sel)])[..|init|] == init;
    RevivedAreMore(sel, current, root, Pendings(init, current, root));
  }

  /** The shortest case: behind a key that the root lacks, any selector that does not absorb, such
      as the script isUndefined(@), makes a match out of nothing. */
  lemma ScriptRevivesUndefined(key: Expr, sel: PlainSelector, current: Json, root: Json)
    requires !root.Undefined? && ApplyPlain(Direct(key), current, root, root) == Ok(Undefined)
    requires !Absorbs(sel, current, root)
    ensures var segments := [Single(Direct(key)), Single(sel)];
            Matches(segments, current, root) == [Match([], ApplyPlain(sel, current, root, Undefined).value)]
            && EagerMatches(segments, current, root) == []
  {
    var first := [Single(Direct(key))];
    var segments := first + [Single(sel)];
    var start, lost := Pending([], Ok(root), true), Pending([], Ok(Undefined), true);
    assert segments == [Single(Direct(key)), Single(sel)];
    assert first[..0] == [] && segments[..1] == first;
    assert Pendings([], current, root) == [start];
    assert Pendings(first, current, root) == StepPlain(Direct(key), current, root, [start]) == [lost];
    assert Pendings(segments, current, root) == StepPlain(sel, current, root, [lost]);
    assert StepPlain(sel, current, root, [lost]) == [PlainStep(sel, current, root, lost)];
    SettleOne(PlainStep(sel, current, root, lost));
    DropOne(Direct(key), current, root, Match([], root));
    assert EagerMatches(first, current, root) == [];
    assert EagerMatches(segments, current, root) == DropPlain(sel, current, root, []);
  }
}
