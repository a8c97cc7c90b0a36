/** The guard of calculatePatch: a path that contains "(BADINDEX)" is refused
    (core/modrulestoreitem.go). When does it refuse exactly the paths whose template has a
    placeholder without a key? */
module Guards {
  import opened Sequences
  import opened Decimals
  import opened SelectKeys
  import opened Formats
  import opened PathTemplates

  const GUARD := "(BADINDEX)"

  predicate OccursAt(s: string, t: string, i: nat) {
    i + |t| <= |s| && s[i..i + |t|] == t
  }

  predicate Contains(s: string, t: string) {
    exists i | 0 <= i <= |s| :: OccursAt(s, t, i)
  }

  /** The rendered path is refused. */
  predicate Trips(template: string, parts: seq<Part>) {
    var path := Render(template, parts);
    path.Some? && Contains(path.value, GUARD)
  }

  lemma OccursInside(a: string, t: string, b: string)
    ensures Contains(a + (t + b), t)
  {
    var s := a + (t + b);
    assert s[|a|..|a| + |t|] == t;
    assert OccursAt(s, t, |a|);
  }

  lemma OccursAppend(a: string, s: string, b: string, t: string)
    requires Contains(s, t)
    ensures Contains(a + s + b, t)
  {
    var i :| 0 <= i <= |s| && OccursAt(s, t, i);
    assert (a + s + b)[|a| + i..|a| + i + |t|] == s[i..i + |t|];
    assert OccursAt(a + s + b, t, |a| + i);
  }

  // ---- A placeholder without a key ----

  lemma {:induction false} BadIndexInText(ps: seq<Piece>, parts: seq<Part>)
    requires OutOfRange(ps, |parts|)
    ensures Contains(FillAll(ps, parts, BAD_INDEX), GUARD)
  {
    var i :| 0 <= i < |ps| && ps[i].Hole? && Value(ps[i].digits) >= |parts|;
    var first, rest := Fill(ps[0], parts, BAD_INDEX), FillAll(ps[1..], parts, BAD_INDEX);
    if i == 0 {
      assert BAD_INDEX == "#" + (GUARD + "");
      OccursInside("#", GUARD, "");
      OccursAppend("", BAD_INDEX, rest, GUARD);
      assert "" + BAD_INDEX + rest == first + rest;
    } else {
      assert ps[1..][i - 1] == ps[i];
      BadIndexInText(ps[1..], parts);
      OccursAppend(first, rest, "", GUARD);
      assert first + rest + "" == first + rest;
    }
  }

  /** An index out of range always trips the guard. */
  lemma BadIndexTripsGuard(template: string, parts: seq<Part>)
    requires NoPercent(template) && TameParts(parts) && |parts| <= MAX_PARTS
    requires OutOfRange(Pieces(template), |parts|)
    ensures Trips(template, parts)
  {
    RenderIsSubstitution(template, parts);
    BadIndexInText(Pieces(template), parts);
  }

  // ---- Templates that can spell the guard together with a key ----

  /** The text stands in the template at this piece. */
  predicate TextAt(ps: seq<Piece>, i: nat, s: string) {
    i + |s| <= |ps| && forall j | 0 <= j < |s| :: ps[i + j] == Text(s[j])
  }

  lemma TextInTail(ps: seq<Piece>, m: nat, i: nat, s: string)
    requires m <= |ps|
    ensures TextAt(ps[m..], i, s) <==> TextAt(ps, m + i, s)
  {
    if TextAt(ps[m..], i, s) {
      forall j | 0 <= j < |s| ensures ps[m + i + j] == Text(s[j]) { assert ps[m..][i + j] == Text(s[j]); }
    }
    if TextAt(ps, m + i, s) {
      forall j | 0 <= j < |s| ensures ps[m..][i + j] == Text(s[j]) { assert ps[m + i + j] == Text(s[j]); }
    }
  }

  predicate HoleAt(ps: seq<Piece>, i: nat) { i < |ps| && ps[i].Hole? }

  /** A placeholder follows the first k characters of the guard. */
  predicate OpensHole(ps: seq<Piece>, i: nat, k: nat) {
    1 <= k < |GUARD| && TextAt(ps, i, GUARD[..k]) && HoleAt(ps, i + k)
  }

  /** A placeholder precedes the rest of the guard after k characters. */
  predicate ClosesHole(ps: seq<Piece>, i: nat, k: nat) {
    1 <= k < |GUARD| && HoleAt(ps, i) && TextAt(ps, i + 1, GUARD[k..])
  }

  /** Two placeholders stand around exactly this part of the guard, which may be empty. */
  predicate JoinsHoles(ps: seq<Piece>, i: nat, a: nat, b: nat) {
    1 <= a <= b < |GUARD| && HoleAt(ps, i) && TextAt(ps, i + 1, GUARD[a..b]) && HoleAt(ps, i + 1 + b - a)
  }

  /** The text next to some placeholder is text of the guard, at least one character short of it
      on the placeholder's side. */
  predicate Exposed(ps: seq<Piece>) {
    (exists i, k | 0 <= i < |ps| && 0 <= k < |GUARD| :: OpensHole(ps, i, k)) ||
    (exists i, k | 0 <= i < |ps| && 0 <= k < |GUARD| :: ClosesHole(ps, i, k)) ||
    (exists i, a, b | 0 <= i < |ps| && 0 <= a < |GUARD| && 0 <= b < |GUARD| :: JoinsHoles(ps, i, a, b))
  }

  predicate FreeOfGuard(parts: seq<Part>) {
    forall i | 0 <= i < |parts| :: !Contains(Show(parts[i]), GUARD)
  }

  /** Any keys that neither hold the guard's text nor confuse Sprintf. */
  predicate Ordinary(parts: seq<Part>, n: nat) {
    |parts| == n && TameParts(parts) && FreeOfGuard(parts)
  }

  lemma ExposedTail(ps: seq<Piece>)
    requires ps != [] && Exposed(ps[1..])
    ensures Exposed(ps)
  {
    var tail := ps[1..];
    if i, k :| 0 <= i < |tail| && 0 <= k < |GUARD| && OpensHole(tail, i, k) {
      assert OpensHole(ps, i + 1, k);
    } else if i, k :| 0 <= i < |tail| && 0 <= k < |GUARD| && ClosesHole(tail, i, k) {
      assert ClosesHole(ps, i + 1, k);
    } else {
      var i, a, b :| 0 <= i < |tail| && 0 <= a < |GUARD| && 0 <= b < |GUARD| && JoinsHoles(tail, i, a, b);
      assert JoinsHoles(ps, i + 1, a, b);
    }
  }

  /** Text that the rendered pieces start with is text of the template up to the first
      placeholder it reaches. */
  lemma {:induction false} WalkText(ps: seq<Piece>, parts: seq<Part>, s: string) returns (n: nat)
    requires s <= FillAll(ps, parts, BAD_INDEX)
    ensures n <= |s| && TextAt(ps, 0, s[..n]) && (n < |s| ==> HoleAt(ps, n))
  {
    if s == [] || ps[0].Hole? {
      n := 0;
    } else {
      var tail := FillAll(ps[1..], parts, BAD_INDEX);
      DropFirst(ps[0].c, tail, s);
      var m := WalkText(ps[1..], parts, s[1..]);
      TextBehind(ps, s, m);
      n := m + 1;
    }
  }

  lemma DropFirst(c: char, tail: string, s: string)
    requires s != [] && s <= [c] + tail
    ensures s[0] == c && s[1..] <= tail
  {
    assert s[0] == ([c] + tail)[0];
    assert s[1..] == ([c] + tail)[..|s|][1..] == tail[..|s| - 1];
  }

  lemma TextBehind(ps: seq<Piece>, s: string, m: nat)
    requires ps != [] && s != [] && ps[0] == Text(s[0]) && m < |s| && TextAt(ps[1..], 0, s[1..][..m])
    ensures TextAt(ps, 0, s[..m + 1])
  {
    var front, back := s[..m + 1], s[1..][..m];
    forall j | 0 <= j < m + 1 ensures ps[0 + j] == Text(front[j]) {
      if j > 0 { assert ps[1..][0 + (j - 1)] == Text(back[j - 1]); }
    }
  }

  /** An occurrence that starts in the first piece: in text it runs into a placeholder, in a key
      it runs into the text behind. */
  lemma StartsInText(ps: seq<Piece>, parts: seq<Part>)
    requires ps != [] && ps[0].Text? && GUARD <= FillAll(ps, parts, BAD_INDEX)
    ensures Exposed(ps) || TextAt(ps, 0, GUARD)
  {
    var n := WalkText(ps, parts, GUARD);
    if n < |GUARD| {
      assert OpensHole(ps, 0, n);
    } else {
      assert GUARD[..n] == GUARD;
    }
  }

  /** An occurrence that starts in a key ends there, or goes on in the text behind. */
  lemma RunsOver(key: string, rest: string, i: nat)
    requires i < |key| && OccursAt(key + rest, GUARD, i)
    ensures Contains(key, GUARD) || (|key| - i < |GUARD| && GUARD[|key| - i..] <= rest)
  {
    var all, a := key + rest, |key| - i;
    if a < |GUARD| {
      assert GUARD[a..] == all[i..i + |GUARD|][a..] == rest[..|GUARD| - a];
    } else {
      assert key[i..i + |GUARD|] == all[i..i + |GUARD|];
      assert OccursAt(key, GUARD, i);
    }
  }

  lemma StartsInKey(ps: seq<Piece>, parts: seq<Part>, i: nat)
    requires ps != [] && ps[0].Hole? && !OutOfRange(ps, |parts|) && FreeOfGuard(parts)
    requires i < |Fill(ps[0], parts, BAD_INDEX)| && OccursAt(FillAll(ps, parts, BAD_INDEX), GUARD, i)
    ensures Exposed(ps)
  {
    var key, rest := Fill(ps[0], parts, BAD_INDEX), FillAll(ps[1..], parts, BAD_INDEX);
    var a := |key| - i;
    RunsOver(key, rest, i);
    var n := WalkText(ps[1..], parts, GUARD[a..]);
    TextInTail(ps, 1, 0, GUARD[a..][..n]);
    if n == |GUARD| - a {
      assert GUARD[a..][..n] == GUARD[a..];
      assert ClosesHole(ps, 0, a);
    } else {
      assert GUARD[a..][..n] == GUARD[a..a + n];
      assert ps[1..][n] == ps[n + 1];
      assert JoinsHoles(ps, 0, a, a + n);
    }
  }

  /** Where a guard text in a rendered path can come from. */
  lemma {:induction false} GuardComesFrom(ps: seq<Piece>, parts: seq<Part>, i: nat) returns (at: nat)
    requires !OutOfRange(ps, |parts|) && FreeOfGuard(parts) && OccursAt(FillAll(ps, parts, BAD_INDEX), GUARD, i)
    ensures Exposed(ps) || TextAt(ps, at, GUARD)
  {
    var all := FillAll(ps, parts, BAD_INDEX);
    var first, rest := Fill(ps[0], parts, BAD_INDEX), FillAll(ps[1..], parts, BAD_INDEX);
    at := 0;
    if i >= |first| {
      assert rest[i - |first|..i - |first| + |GUARD|] == all[i..i + |GUARD|];
      assert forall j | 0 <= j < |ps[1..]| :: ps[1..][j] == ps[j + 1];
      at := GuardComesFrom(ps[1..], parts, i - |first|);
      if Exposed(ps[1..]) {
        ExposedTail(ps);
      } else {
        TextInTail(ps, 1, at, GUARD);
        at := at + 1;
      }
    } else if ps[0].Hole? {
      StartsInKey(ps, parts, i);
    } else {
      StartsInText(ps, parts);
    }
  }

  // ---- Text of the template ----

  /** The guard has no character of a placeholder. */
  predicate PlainText(s: string) {
    forall i | 0 <= i < |s| :: s[i] != '#' && !IsDigit(s[i])
  }

  lemma {:induction false} TextPrefixIff(t: string, s: string)
    requires PlainText(s)
    ensures TextAt(Pieces(t), 0, s) <==> s <= t
  {
    var ps := Pieces(t);
    assert TextAt(ps, 0, s) && s != [] ==> ps != [] && ps[0 + 0] == Text(s[0]);
    if s != [] && t != [] && t[0] == s[0] {
      TextPrefixIff(t[1..], s[1..]);
      assert ps == [Text(t[0])] + Pieces(t[1..]);
      assert s <= t <==> s[1..] <= t[1..];
      if TextAt(ps, 0, s) {
        forall j | 0 <= j < |s[1..]| ensures Pieces(t[1..])[j] == Text(s[1..][j]) {
          assert ps[0 + (j + 1)] == Text(s[j + 1]);
        }
      }
      if TextAt(Pieces(t[1..]), 0, s[1..]) {
        forall j | 0 <= j < |s| ensures ps[0 + j] == Text(s[j]) {
          if j > 0 { assert Pieces(t[1..])[0 + (j - 1)] == Text(s[1..][j - 1]); }
        }
      }
    }
  }

  /** Text found among the pieces is found in the template. */
  lemma {:induction false} TextInTemplate(t: string, at: nat, s: string)
    requires PlainText(s) && TextAt(Pieces(t), at, s) && s != []
    ensures Contains(t, s)
    decreases |t|
  {
    if at == 0 {
      TextPrefixIff(t, s);
      assert OccursAt(t, s, 0);
    } else {
      var n := if t[0] == '#' then DigitRun(t[1..]) else 0;
      assert Pieces(t)[1..] == Pieces(t[n + 1..]);
      TextInTail(Pieces(t), 1, at - 1, s);
      TextInTemplate(t[n + 1..], at - 1, s);
      OccursAppend(t[..n + 1], t[n + 1..], "", s);
      assert t[..n + 1] + t[n + 1..] + "" == t;
    }
  }

  lemma PrefixIsKept(t: string, s: string, parts: seq<Part>)
    requires PlainText(s) && s <= t
    ensures Contains(FillAll(Pieces(t), parts, BAD_INDEX), s)
  {
    var ps := Pieces(t);
    TextPrefixIff(t, s);
    FillTextRun(ps, 0, s, parts);
    Completes(ps, 0, parts, "", s, FillFrom(ps, |s|, parts));
  }

  lemma HoleChars(t: string, n: nat)
    requires n < |t| && AllDigits(t[1..][..n])
    ensures forall i | 1 <= i <= n :: IsDigit(t[i])
  {
    assert forall i | 1 <= i <= n :: t[i] == t[1..][..n][i - 1];
  }

  lemma OccursInTail(t: string, m: nat, i: nat, s: string)
    requires m <= i && OccursAt(t, s, i)
    ensures OccursAt(t[m..], s, i - m)
  {
    assert t[m..][i - m..i - m + |s|] == t[i..i + |s|];
  }

  lemma {:induction false} TemplateTextIsKept(t: string, i: nat, s: string, parts: seq<Part>)
    requires PlainText(s) && s != [] && OccursAt(t, s, i)
    ensures Contains(FillAll(Pieces(t), parts, BAD_INDEX), s)
    decreases |t|
  {
    var n := if t[0] == '#' then DigitRun(t[1..]) else 0;
    var ps := Pieces(t);
    if i > n {
      OccursInTail(t, n + 1, i, s);
      TemplateTextIsKept(t[n + 1..], i - n - 1, s, parts);
      var rest := FillAll(Pieces(t[n + 1..]), parts, BAD_INDEX);
      OccursAppend(Fill(ps[0], parts, BAD_INDEX), rest, "", s);
      assert FillAll(ps, parts, BAD_INDEX) == Fill(ps[0], parts, BAD_INDEX) + rest + "";
    } else {
      assert t[i] == t[i..i + |s|][0] == s[0];
      HoleChars(t, n);
      assert s <= t;
      PrefixIsKept(t, s, parts);
    }
  }

  // ---- Keys that complete the guard ----

  /** The rendered pieces from piece i on. */
  function FillFrom(ps: seq<Piece>, i: nat, parts: seq<Part>): string
    decreases |ps| - i
  {
    if i >= |ps| then "" else Fill(ps[i], parts, BAD_INDEX) + FillFrom(ps, i + 1, parts)
  }

  lemma {:induction false} FillFromAll(ps: seq<Piece>, i: nat, parts: seq<Part>)
    requires i <= |ps|
    ensures FillFrom(ps, i, parts) == FillAll(ps[i..], parts, BAD_INDEX)
    decreases |ps| - i
  {
    if i < |ps| {
      assert ps[i..][0] == ps[i] && ps[i..][1..] == ps[i + 1..];
      FillFromAll(ps, i + 1, parts);
    }
  }

  lemma TextStep(c: char, s: string, k: nat, rest: string)
    requires k < |s| && s[k] == c
    ensures [c] + (s[k + 1..] + rest) == s[k..] + rest
  {
    assert s[k..] == [c] + s[k + 1..];
  }

  lemma {:induction false} FillTextFrom(ps: seq<Piece>, i: nat, s: string, parts: seq<Part>, k: nat)
    requires TextAt(ps, i, s) && k <= |s|
    ensures FillFrom(ps, i + k, parts) == s[k..] + FillFrom(ps, i + |s|, parts)
    decreases |s| - k
  {
    var rest := FillFrom(ps, i + |s|, parts);
    if k == |s| {
      assert s[k..] + rest == rest;
    } else {
      var c := s[k];
      assert ps[i + k] == Text(c);
      FillTextFrom(ps, i, s, parts, k + 1);
      TextStep(c, s, k, rest);
      assert FillFrom(ps, i + k, parts) == [c] + FillFrom(ps, i + k + 1, parts);
    }
  }

  lemma FillTextRun(ps: seq<Piece>, i: nat, s: string, parts: seq<Part>)
    requires TextAt(ps, i, s)
    ensures FillFrom(ps, i, parts) == s + FillFrom(ps, i + |s|, parts)
  {
    FillTextFrom(ps, i, s, parts, 0);
    assert s[0..] == s;
  }

  function AllParts(key: string, n: nat): (parts: seq<Part>)
    ensures |parts| == n && forall i | 0 <= i < n :: parts[i] == StrPart(key)
  {
    seq(n, _ => StrPart(key))
  }

  lemma FillHole(ps: seq<Piece>, i: nat, key: string, n: nat)
    requires HoleAt(ps, i) && !OutOfRange(ps, n)
    ensures FillFrom(ps, i, AllParts(key, n)) == key + FillFrom(ps, i + 1, AllParts(key, n))
  {
    assert Value(ps[i].digits) < n;
  }

  /** What stands in the rendered pieces from some piece on, stands in the rendered path. */
  lemma Completes(ps: seq<Piece>, i: nat, parts: seq<Part>, a: string, s: string, b: string)
    requires i <= |ps| && FillFrom(ps, i, parts) == a + (s + b)
    ensures Contains(FillAll(ps, parts, BAD_INDEX), s)
  {
    var before := FillAll(ps[..i], parts, BAD_INDEX);
    assert ps == ps[..i] + ps[i..];
    FillAppend(ps[..i], ps[i..], parts, BAD_INDEX);
    FillFromAll(ps, i, parts);
    Associate(before, a, s + b);
    OccursInside(before + a, s, b);
  }

  lemma TwoHalves(front: string, back: string, rest: string)
    requires front + back == GUARD
    ensures front + (back + rest) == "" + (GUARD + rest)
  {
    Associate(front, back, rest);
  }

  lemma OpensSpelled(ps: seq<Piece>, n: nat, i: nat, k: nat)
    requires !OutOfRange(ps, n) && OpensHole(ps, i, k)
    ensures Contains(FillAll(ps, AllParts(GUARD[k..], n), BAD_INDEX), GUARD)
  {
    BehindText(ps, n, i, GUARD[..k], GUARD[k..]);
  }

  lemma BehindText(ps: seq<Piece>, n: nat, i: nat, front: string, back: string)
    requires !OutOfRange(ps, n) && TextAt(ps, i, front) && HoleAt(ps, i + |front|) && front + back == GUARD
    ensures Contains(FillAll(ps, AllParts(back, n), BAD_INDEX), GUARD)
  {
    var j := i + |front|;
    var rest := FillFrom(ps, j + 1, AllParts(back, n));
    FillTextRun(ps, i, front, AllParts(back, n));
    FillHole(ps, j, back, n);
    TwoHalves(front, back, rest);
    Completes(ps, i, AllParts(back, n), "", GUARD, rest);
  }

  lemma ClosesSpelled(ps: seq<Piece>, n: nat, i: nat, k: nat)
    requires !OutOfRange(ps, n) && ClosesHole(ps, i, k)
    ensures Contains(FillAll(ps, AllParts(GUARD[..k], n), BAD_INDEX), GUARD)
  {
    BeforeText(ps, n, i, GUARD[..k], GUARD[k..]);
  }

  lemma BeforeText(ps: seq<Piece>, n: nat, i: nat, front: string, back: string)
    requires !OutOfRange(ps, n) && HoleAt(ps, i) && TextAt(ps, i + 1, back) && front + back == GUARD
    ensures Contains(FillAll(ps, AllParts(front, n), BAD_INDEX), GUARD)
  {
    var rest := FillFrom(ps, i + 1 + |back|, AllParts(front, n));
    FillHole(ps, i, front, n);
    FillTextRun(ps, i + 1, back, AllParts(front, n));
    TwoHalves(front, back, rest);
    Completes(ps, i, AllParts(front, n), "", GUARD, rest);
  }

  /** One key for both placeholders: it ends as the guard begins, and begins as the guard ends. */
  lemma JoinsSpelled(ps: seq<Piece>, n: nat, i: nat, a: nat, b: nat)
    requires !OutOfRange(ps, n) && JoinsHoles(ps, i, a, b)
    ensures Contains(FillAll(ps, AllParts(GUARD[b..] + GUARD[..a], n), BAD_INDEX), GUARD)
  {
    assert GUARD[..a] + (GUARD[a..b] + GUARD[b..]) == GUARD;
    AroundText(ps, n, i, GUARD[..a], GUARD[a..b], GUARD[b..]);
  }

  lemma AroundText(ps: seq<Piece>, n: nat, i: nat, front: string, middle: string, back: string)
    requires !OutOfRange(ps, n) && HoleAt(ps, i) && TextAt(ps, i + 1, middle) && HoleAt(ps, i + 1 + |middle|)
    requires front + (middle + back) == GUARD
    ensures Contains(FillAll(ps, AllParts(back + front, n), BAD_INDEX), GUARD)
  {
    var key, j := back + front, i + 1 + |middle|;
    var rest := FillFrom(ps, j + 1, AllParts(key, n));
    FillHole(ps, i, key, n);
    FillTextRun(ps, i + 1, middle, AllParts(key, n));
    FillHole(ps, j, key, n);
    Regroup(back, front, middle, rest);
    Completes(ps, i, AllParts(key, n), back, GUARD, front + rest);
  }

  lemma Regroup(back: string, front: string, middle: string, rest: string)
    ensures (back + front) + (middle + ((back + front) + rest))
         == back + ((front + (middle + back)) + (front + rest))
  {
    Associate(back, front, rest);
    Associate(middle, back, front + rest);
    Associate(front, middle + back, front + rest);
    Associate(back, front, middle + (back + (front + rest)));
  }

  lemma ShorterIsFree(key: string)
    requires |key| <= |GUARD| && key != GUARD
    ensures !Contains(key, GUARD)
  {
    forall i | 0 <= i <= |key| ensures !OccursAt(key, GUARD, i) {
      if i == 0 && |key| == |GUARD| { assert key[0..|GUARD|] == key; }
    }
  }

  lemma OrdinaryParts(key: string, n: nat)
    requires '%' !in key && |key| <= |GUARD| && key != GUARD
    ensures Ordinary(AllParts(key, n), n)
  {
    NoPercentIsTame(key);
    ShorterIsFree(key);
  }

  lemma GuardSlice(a: nat, b: nat)
    requires a <= b <= |GUARD|
    ensures '%' !in GUARD[a..b]
  {
    assert '%' !in GUARD;
  }

  lemma OrdinarySlice(a: nat, b: nat, n: nat)
    requires a <= b <= |GUARD| && b - a < |GUARD|
    ensures Ordinary(AllParts(GUARD[a..b], n), n)
  {
    GuardSlice(a, b);
    OrdinaryParts(GUARD[a..b], n);
  }

  lemma OrdinaryRotation(a: nat, b: nat, n: nat)
    requires 1 <= a <= b < |GUARD|
    ensures Ordinary(AllParts(GUARD[b..] + GUARD[..a], n), n)
  {
    var key := GUARD[b..] + GUARD[..a];
    GuardSlice(b, |GUARD|);
    GuardSlice(0, a);
    assert key[0] == GUARD[b] != '(';
    assert GUARD[0] == '(';
    OrdinaryParts(key, n);
  }

  /** Around an exposed placeholder some keys complete the guard, none of which holds it. */
  lemma ExposedIsSpelled(ps: seq<Piece>, n: nat) returns (parts: seq<Part>)
    requires !OutOfRange(ps, n) && Exposed(ps)
    ensures Ordinary(parts, n) && Contains(FillAll(ps, parts, BAD_INDEX), GUARD)
  {
    if i, k :| 0 <= i < |ps| && 0 <= k < |GUARD| && OpensHole(ps, i, k) {
      OpensSpelled(ps, n, i, k);
      OrdinarySlice(k, |GUARD|, n);
      assert GUARD[k..|GUARD|] == GUARD[k..];
      parts := AllParts(GUARD[k..], n);
    } else if i, k :| 0 <= i < |ps| && 0 <= k < |GUARD| && ClosesHole(ps, i, k) {
      ClosesSpelled(ps, n, i, k);
      OrdinarySlice(0, k, n);
      assert GUARD[0..k] == GUARD[..k];
      parts := AllParts(GUARD[..k], n);
    } else {
      var i, a, b :| 0 <= i < |ps| && 0 <= a < |GUARD| && 0 <= b < |GUARD| && JoinsHoles(ps, i, a, b);
      JoinsSpelled(ps, n, i, a, b);
      OrdinaryRotation(a, b, n);
      parts := AllParts(GUARD[b..] + GUARD[..a], n);
    }
  }

  // ---- The guard ----

  /** The template's own text and the text next to its placeholders keep clear of the guard. */
  predicate KeepsClear(template: string) {
    !Contains(template, GUARD) && !Exposed(Pieces(template))
  }

  lemma GuardIsPlainText()
    ensures PlainText(GUARD)
  {}

  lemma ClearNeverTrips(template: string, parts: seq<Part>)
    requires NoPercent(template) && KeepsClear(template) && |parts| <= MAX_PARTS && Ordinary(parts, |parts|)
    requires !OutOfRange(Pieces(template), |parts|)
    ensures !Trips(template, parts)
  {
    RenderIsSubstitution(template, parts);
    var path := Substitute(template, parts);
    if Contains(path, GUARD) {
      var i :| 0 <= i <= |path| && OccursAt(path, GUARD, i);
      var at := GuardComesFrom(Pieces(template), parts, i);
      GuardIsPlainText();
      TextInTemplate(template, at, GUARD);
    }
  }

  lemma UnclearTrips(template: string, n: nat) returns (parts: seq<Part>)
    requires NoPercent(template) && !KeepsClear(template) && n <= MAX_PARTS && !OutOfRange(Pieces(template), n)
    ensures Ordinary(parts, n) && Trips(template, parts)
  {
    if Exposed(Pieces(template)) {
      parts := ExposedIsSpelled(Pieces(template), n);
    } else {
      var i :| 0 <= i <= |template| && OccursAt(template, GUARD, i);
      OrdinaryParts("", n);
      parts := AllParts("", n);
      GuardIsPlainText();
      TemplateTextIsKept(template, i, GUARD, parts);
    }
    RenderIsSubstitution(template, parts);
  }

  /** Exactly when the guard is exact for a template and a number of keys: whatever the keys, it
      trips if and only if a placeholder has no key. That is so if and only if some placeholder
      has none, or the template keeps clear of the guard's text. */
  lemma GuardIsExact(template: string, n: nat)
    requires NoPercent(template) && n <= MAX_PARTS
    ensures (forall parts | Ordinary(parts, n) :: Trips(template, parts) <==> OutOfRange(Pieces(template), n))
            <==> OutOfRange(Pieces(template), n) || KeepsClear(template)
  {
    if OutOfRange(Pieces(template), n) {
      forall parts | Ordinary(parts, n) ensures Trips(template, parts) {
        BadIndexTripsGuard(template, parts);
      }
    } else if KeepsClear(template) {
      forall parts | Ordinary(parts, n) ensures !Trips(template, parts) {
        ClearNeverTrips(template, parts);
      }
    } else {
      var parts := UnclearTrips(template, n);
    }
  }

  // ---- For given keys ----

  predicate PartsLack(parts: seq<Part>, c: char) {
    forall i | 0 <= i < |parts| :: c !in Show(parts[i])
  }

  lemma {:induction false} FillLacks(ps: seq<Piece>, parts: seq<Part>, c: char)
    requires TextLacks(ps, c) && PartsLack(parts, c) && !OutOfRange(ps, |parts|)
    ensures c !in FillAll(ps, parts, BAD_INDEX)
  {
    if ps != [] {
      assert forall i | 0 <= i < |ps[1..]| :: ps[1..][i] == ps[i + 1];
      FillLacks(ps[1..], parts, c);
    }
  }

  lemma GuardBrings(s: string, c: char)
    requires c in GUARD && Contains(s, GUARD)
    ensures c in s
  {
    var i :| 0 <= i <= |s| && OccursAt(s, GUARD, i);
    var j :| 0 <= j < |GUARD| && GUARD[j] == c;
    assert s[i + j] == s[i..i + |GUARD|][j];
  }

  /** Whatever the template: keys and template that both lack some character of the guard, say
      the opening parenthesis, cannot raise a false alarm. */
  lemma GuardExactWithout(template: string, parts: seq<Part>, c: char)
    requires NoPercent(template) && TameParts(parts) && |parts| <= MAX_PARTS
    requires c in GUARD && c !in template && PartsLack(parts, c)
    ensures Trips(template, parts) <==> OutOfRange(Pieces(template), |parts|)
  {
    var ps := Pieces(template);
    RenderIsSubstitution(template, parts);
    if OutOfRange(ps, |parts|) {
      BadIndexTripsGuard(template, parts);
    } else {
      PiecesLack(template, c);
      FillLacks(ps, parts, c);
      if Trips(template, parts) { GuardBrings(Substitute(template, parts), c); }
    }
  }

  /** A false alarm: template and key free of the guard text together spell it, and a path whose
      every placeholder has a key is refused. */
  lemma GuardFalseAlarm()
    ensures var parts := [StrPart("BADINDEX)")];
            !OutOfRange(Pieces("(#0"), |parts|) && !Contains("(#0", GUARD) && Ordinary(parts, 1) && Trips("(#0", parts)
  {
    var key := "BADINDEX)";
    FalseAlarmIsSpelled(key);
    OrdinaryParts(key, 1);
    assert AllParts(key, 1) == [StrPart(key)];
    RenderIsSubstitution("(#0", [StrPart(key)]);
    ShorterIsFree("(#0");
  }

  lemma FalseAlarmIsSpelled(key: string)
    requires "(" + key == GUARD
    ensures !OutOfRange(Pieces("(#0"), 1) && Contains(FillAll(Pieces("(#0"), AllParts(key, 1), BAD_INDEX), GUARD)
  {
    PiecesOfFalseAlarm();
    var ps := Pieces("(#0");
    assert Value("0") == 0 by { assert "0"[..0] == ""; }
    assert ps[0 + 0] == Text("("[0]);
    BehindText(ps, 1, 0, "(", key);
  }

  lemma PiecesOfFalseAlarm()
    ensures Pieces("(#0") == [Text('('), Hole("0")]
  {
    assert "0"[1..] == "" && DigitRun("") == 0;
    assert DigitRun("0") == 1;
    assert "(#0"[1..] == "#0" && "#0"[1..] == "0" && "#0"[1..2] == "0" && "#0"[2..] == "";
    assert Pieces("#0") == [Hole("0")] + Pieces("");
  }
}
