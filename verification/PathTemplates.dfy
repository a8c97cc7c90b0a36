/** Path templates with #i placeholders, compiled to a Sprintf format and rendered with key
    parts (core/modrulestoreitem.go). */
module PathTemplates {
  import opened Sequences
  import opened Values
  import opened Decimals
  import opened SelectKeys
  import opened Formats

  type DigitString = s: string | s != [] && AllDigits(s) witness "0"

  /** A template as #(\d+) splits it: single characters and maximal runs of digits after '#'. */
  datatype Piece = Text(c: char) | Hole(digits: DigitString)

  function DigitRun(s: string): (n: nat)
    ensures n <= |s| && AllDigits(s[..n])
    ensures n < |s| ==> !IsDigit(s[n])
  {
    if s == [] || !IsDigit(s[0]) then 0
    else
      var n := DigitRun(s[1..]);
      assert s[..n + 1] == [s[0]] + s[1..][..n];
      n + 1
  }

  function Pieces(t: string): seq<Piece>
    decreases |t|
  {
    if t == [] then []
    else
      var n := if t[0] == '#' then DigitRun(t[1..]) else 0;
      if n > 0 then
        assert t[1..1 + n] == t[1..][..n];
        [Hole(t[1..1 + n])] + Pieces(t[1 + n..])
      else [Text(t[0])] + Pieces(t[1..])
  }

  // ---- The pieces of a template ----

  function PieceText(p: Piece): string {
    match p
    case Text(c) => [c]
    case Hole(digits) => "#" + digits
  }

  function Unpieces(ps: seq<Piece>): string {
    if ps == [] then "" else PieceText(ps[0]) + Unpieces(ps[1..])
  }

  /** No placeholder could be longer, and every '#' before a digit is one. */
  predicate Maximal(ps: seq<Piece>) {
    forall i | 0 <= i < |ps| - 1 && (ps[i].Hole? || ps[i].c == '#') :: !(ps[i + 1].Text? && IsDigit(ps[i + 1].c))
  }

  lemma MaximalTail(ps: seq<Piece>)
    requires ps != []
    ensures Maximal(ps) <==>
              Maximal(ps[1..]) && (|ps| > 1 && (ps[0].Hole? || ps[0].c == '#') ==> !(ps[1].Text? && IsDigit(ps[1].c)))
  {
    assert forall i | 0 <= i < |ps[1..]| :: ps[1..][i] == ps[i + 1];
    if Maximal(ps[1..]) && (|ps| > 1 && (ps[0].Hole? || ps[0].c == '#') ==> !(ps[1].Text? && IsDigit(ps[1].c))) {
      forall i | 0 <= i < |ps| - 1 && (ps[i].Hole? || ps[i].c == '#')
        ensures !(ps[i + 1].Text? && IsDigit(ps[i + 1].c))
      {
        if i > 0 { assert ps[1..][i - 1] == ps[i] && ps[1..][i - 1 + 1] == ps[i + 1]; }
      }
    }
  }

  lemma UnpiecesHead(ps: seq<Piece>)
    requires ps != []
    ensures Unpieces(ps) != []
    ensures IsDigit(Unpieces(ps)[0]) <==> ps[0].Text? && IsDigit(ps[0].c)
  {}

  lemma {:induction false} DigitRunAppend(a: string, b: string)
    requires b != [] ==> !IsDigit(b[0])
    ensures DigitRun(a + b) == DigitRun(a)
  {
    if a == [] {
      assert a + b == b;
    } else {
      assert (a + b)[1..] == a[1..] + b;
      DigitRunAppend(a[1..], b);
    }
  }

  lemma {:induction false} AllDigitsRun(d: string)
    requires AllDigits(d)
    ensures DigitRun(d) == |d|
  {
    if d != [] { AllDigitsRun(d[1..]); }
  }

  lemma PiecesOfHoleAnd(d: DigitString, rest: string)
    requires rest != [] ==> !IsDigit(rest[0])
    ensures Pieces("#" + d + rest) == [Hole(d)] + Pieces(rest)
  {
    var t := "#" + d + rest;
    assert t[1..] == d + rest;
    DigitRunAppend(d, rest);
    AllDigitsRun(d);
    assert t[1..1 + |d|] == d && t[1 + |d|..] == rest;
  }

  lemma PiecesOfTextAnd(c: char, rest: string)
    requires c == '#' && rest != [] ==> !IsDigit(rest[0])
    ensures Pieces([c] + rest) == [Text(c)] + Pieces(rest)
  {
    assert ([c] + rest)[1..] == rest;
  }

  /** The only maximal way to write a text is found. */
  lemma {:induction false} PiecesUnique(ps: seq<Piece>)
    requires Maximal(ps)
    ensures Pieces(Unpieces(ps)) == ps
  {
    if ps != [] {
      var rest := ps[1..];
      MaximalTail(ps);
      PiecesUnique(rest);
      if rest != [] { UnpiecesHead(rest); }
      SplitFirst(ps);
      match ps[0]
      case Text(c) => PiecesOfTextAnd(c, Unpieces(rest));
      case Hole(digits) => PiecesOfHoleAnd(digits, Unpieces(rest));
    }
  }

  /** The first piece of a template is of full length. */
  lemma CutPiece(t: string) returns (p: Piece, rest: string)
    requires t != []
    ensures Pieces(t) == [p] + Pieces(rest) && t == PieceText(p) + rest && |rest| < |t|
    ensures (p.Hole? || p.c == '#') && rest != [] ==> !IsDigit(rest[0])
  {
    var n := if t[0] == '#' then DigitRun(t[1..]) else 0;
    if n > 0 {
      var tail := t[1..];
      assert t[1..1 + n] == tail[..n];
      p, rest := Hole(tail[..n]), t[1 + n..];
      assert rest == tail[n..];
      SplitFirst(t);
      assert t == ("#" + tail[..n]) + tail[n..];
    } else {
      SplitFirst(t);
      p, rest := Text(t[0]), t[1..];
    }
  }

  lemma {:induction false} UnpiecesOfPieces(t: string)
    ensures Unpieces(Pieces(t)) == t && Maximal(Pieces(t))
    decreases |t|
  {
    if t != [] {
      var p, rest := CutPiece(t);
      UnpiecesOfPieces(rest);
      PrependPiece(p, Pieces(rest));
    }
  }

  lemma PrependPiece(p: Piece, more: seq<Piece>)
    requires Maximal(more)
    requires (p.Hole? || p.c == '#') && Unpieces(more) != [] ==> !IsDigit(Unpieces(more)[0])
    ensures Unpieces([p] + more) == PieceText(p) + Unpieces(more) && Maximal([p] + more)
  {
    assert ([p] + more)[1..] == more;
    if more != [] { UnpiecesHead(more); }
    MaximalTail([p] + more);
  }

  /** The pieces of a template are the only ones that spell it with placeholders of full length. */
  lemma PiecesIff(t: string, ps: seq<Piece>)
    ensures Pieces(t) == ps <==> Unpieces(ps) == t && Maximal(ps)
  {
    UnpiecesOfPieces(t);
    if Maximal(ps) { PiecesUnique(ps); }
  }

  /** extractMatches without type detection: the digits of every placeholder. */
  function Holes(ps: seq<Piece>): seq<DigitString> {
    if ps == [] then [] else (if ps[0].Hole? then [ps[0].digits] else []) + Holes(ps[1..])
  }

  /** ReplaceAllString: every placeholder becomes "%%[%v]v". */
  function ReplaceHoles(ps: seq<Piece>): string {
    if ps == [] then "" else (if ps[0].Hole? then "%%[%v]v" else [ps[0].c]) + ReplaceHoles(ps[1..])
  }

  /** The one-based argument index. Atoi gives MaxInt64 when the digits do not fit, and adding
      one then wraps around; for anything but digits it gives 0. */
  function OneBased(s: string): string {
    var v: nat := if s != [] && AllDigits(s) then Value(s) else 0;
    Itoa(Wrap((if v > MAX_INT64 then MAX_INT64 else v) + 1))
  }

  function OneBasedAll(ds: seq<DigitString>): (r: seq<string>)
    ensures |r| == |ds| && forall i | 0 <= i < |r| :: r[i] == OneBased(ds[i])
  {
    seq(|ds|, i requires 0 <= i < |ds| => OneBased(ds[i]))
  }

  function StrParts(ss: seq<string>): (r: seq<Part>)
    ensures |r| == |ss| && forall i | 0 <= i < |r| :: r[i] == StrPart(ss[i])
  {
    seq(|ss|, i requires 0 <= i < |ss| => StrPart(ss[i]))
  }

  /** pathTemplateToSprintfTemplate. */
  function Compile(template: string): Option<string> {
    var ps := Pieces(template);
    Sprintf(ReplaceHoles(ps), StrParts(OneBasedAll(Holes(ps))), 0, false)
  }

  /** The loop that rewrites matches[i] in place. */
  method OneBasedInPlace(matches: array<string>)
    modifies matches
    ensures forall j | 0 <= j < matches.Length :: matches[j] == OneBased(old(matches[j]))
  {
    for i := 0 to matches.Length
      invariant forall j | 0 <= j < i :: matches[j] == OneBased(old(matches[j]))
      invariant forall j | i <= j < matches.Length :: matches[j] == old(matches[j])
    {
      matches[i] := OneBased(matches[i]);
    }
  }

  method CompileTemplate(template: string) returns (format: Option<string>)
    ensures format == Compile(template)
  {
    var ps := Pieces(template);
    var ds := Holes(ps);
    var matches := new string[|ds|](i requires 0 <= i < |ds| => ds[i]);
    OneBasedInPlace(matches);
    assert matches[..] == OneBasedAll(ds);
    format := Sprintf(ReplaceHoles(ps), StrParts(matches[..]), 0, false);
  }

  const BAD_INDEX := "#(BADINDEX)"
  const EXTRA := "%!(EXTRA"

  /** strings.ReplaceAll(ret, BAD_VERB, BAD_INDEX). */
  function ReplaceBad(s: string): string
    decreases |s|
  {
    if s == [] then []
    else if BAD_VERB <= s then BAD_INDEX + ReplaceBad(s[|BAD_VERB|..])
    else [s[0]] + ReplaceBad(s[1..])
  }

  /** Everything before the first EXTRA, or everything. */
  function CutExtra(s: string): string {
    if s == [] || EXTRA <= s then [] else [s[0]] + CutExtra(s[1..])
  }

  /** pathFromKeyParts. */
  function PathFromKeyParts(parts: seq<Part>, format: string): Option<string> {
    match Sprintf(format, parts, 0, false)
    case Some(s) => Some(CutExtra(ReplaceBad(s)))
    case None => None
  }

  /** A compiled template rendered with key parts. */
  function Render(template: string, parts: seq<Part>): Option<string> {
    match Compile(template)
    case Some(format) => PathFromKeyParts(parts, format)
    case None => None
  }

  /** One piece rendered: its character, the part at its index, or a mark if there is none. */
  function Fill(p: Piece, parts: seq<Part>, mark: string): string {
    match p
    case Text(c) => [c]
    case Hole(digits) => if Value(digits) < |parts| then Show(parts[Value(digits)]) else mark
  }

  function FillAll(ps: seq<Piece>, parts: seq<Part>, mark: string): string {
    if ps == [] then "" else Fill(ps[0], parts, mark) + FillAll(ps[1..], parts, mark)
  }

  /** The reference: one pass over the template, each placeholder replaced by the part at its
      index, or by "#(BADINDEX)". */
  function Substitute(template: string, parts: seq<Part>): string {
    FillAll(Pieces(template), parts, BAD_INDEX)
  }

  // ---- Compilation ----

  predicate NoPercent(s: string) { '%' !in s }

  predicate TextLacks(ps: seq<Piece>, c: char) {
    forall i | 0 <= i < |ps| && ps[i].Text? :: ps[i].c != c
  }

  lemma {:induction false} PiecesLack(t: string, c: char)
    requires c !in t
    ensures TextLacks(Pieces(t), c)
    decreases |t|
  {
    if t != [] {
      var n := if t[0] == '#' then DigitRun(t[1..]) else 0;
      if n > 0 {
        PiecesLack(t[1 + n..], c);
      } else {
        PiecesLack(t[1..], c);
      }
    }
  }

  /** The compiled format of a template. */
  function Indexed(ps: seq<Piece>): string {
    if ps == [] then "" else IndexedPiece(ps[0]) + Indexed(ps[1..])
  }

  function IndexedPiece(p: Piece): string {
    match p
    case Text(c) => [c]
    case Hole(digits) => "%[" + OneBased(digits) + "]v"
  }

  lemma {:induction false} CompilePieces(ps: seq<Piece>, args: seq<Part>, argNum: nat)
    requires TextLacks(ps, '%') && argNum <= |args| && args[argNum..] == StrParts(OneBasedAll(Holes(ps)))
    ensures Sprintf(ReplaceHoles(ps), args, argNum, false) == Some(Indexed(ps))
    decreases |ps|
  {
    if ps != [] {
      var rest := ReplaceHoles(ps[1..]);
      if ps[0].Hole? {
        var ds, more := Holes(ps), Holes(ps[1..]);
        assert ds == [ps[0].digits] + more;
        assert args[argNum + 1..] == args[argNum..][1..] == StrParts(OneBasedAll(more));
        assert args[argNum] == args[argNum..][0] == StrPart(OneBased(ps[0].digits));
        CompilePieces(ps[1..], args, argNum + 1);
        SprintfHole(rest, args, argNum);
      } else {
        assert Holes(ps) == Holes(ps[1..]);
        CompilePieces(ps[1..], args, argNum);
        SprintfText(ps[0].c, rest, args, argNum, false);
      }
    }
  }

  /** A template without '%' compiles to one indexed verb per placeholder. */
  lemma CompileIndexed(template: string)
    requires NoPercent(template)
    ensures Compile(template) == Some(Indexed(Pieces(template)))
  {
    var ps := Pieces(template);
    var args := StrParts(OneBasedAll(Holes(ps)));
    PiecesLack(template, '%');
    assert args[0..] == args;
    CompilePieces(ps, args, 0);
  }

  // ---- Rendering ----

  lemma ArgIndexOfNegative(n: int, count: nat)
    requires n < 0
    ensures ArgIndex(Itoa(n), count) == None && ']' !in Itoa(n)
  {
    var s := Itoa(n);
    assert s[0] == '-' && !IsDigit(s[0]);
    NoBracketInDigits(-n);
  }

  lemma NoBracketInDigits(n: nat)
    ensures ']' !in Digits(n)
  {
    assert forall i | 0 <= i < |Digits(n)| :: IsDigit(Digits(n)[i]);
  }

  lemma ArgIndexOneBased(digits: DigitString, count: nat)
    requires count <= MAX_PARTS
    ensures ArgIndex(OneBased(digits), count) == if Value(digits) < count then Some(Value(digits)) else None
    ensures ']' !in OneBased(digits)
  {
    var v: nat := Value(digits);
    if v < MAX_INT64 {
      assert OneBased(digits) == Digits(v + 1);
      ArgIndexOfDecimal(v, count);
      NoBracketInDigits(v + 1);
    } else {
      var wrapped: int := Wrap(MAX_INT64 + 1);
      assert OneBased(digits) == Itoa(wrapped);
      ArgIndexOfNegative(wrapped, count);
    }
  }

  /** The arguments reported as unused: all of them, when the template has no placeholder. */
  function Leftover(ps: seq<Piece>, parts: seq<Part>, argNum: nat, reordered: bool): string {
    if !reordered && Holes(ps) == [] && argNum < |parts| then Extra(parts[argNum..]) else ""
  }

  lemma RenderPiece(p: Piece, rest: string, parts: seq<Part>, argNum: nat, reordered: bool) returns (next: nat)
    requires |parts| <= MAX_PARTS && (p.Text? ==> p.c != '%')
    ensures Sprintf(IndexedPiece(p) + rest, parts, argNum, reordered)
         == Put(Fill(p, parts, BAD_VERB), Sprintf(rest, parts, next, reordered || p.Hole?))
    ensures p.Text? ==> next == argNum
  {
    match p
    case Text(c) =>
      SprintfText(c, rest, parts, argNum, reordered);
      next := argNum;
    case Hole(digits) =>
      ArgIndexOneBased(digits, |parts|);
      SprintfIndex(OneBased(digits), rest, parts, argNum, reordered);
      next := if Value(digits) < |parts| then Value(digits) + 1 else argNum;
  }

  lemma {:induction false} RenderRaw(ps: seq<Piece>, parts: seq<Part>, argNum: nat, reordered: bool)
    requires TextLacks(ps, '%') && |parts| <= MAX_PARTS
    ensures Sprintf(Indexed(ps), parts, argNum, reordered)
         == Some(FillAll(ps, parts, BAD_VERB) + Leftover(ps, parts, argNum, reordered))
    decreases |ps|
  {
    if ps != [] {
      var next := RenderPiece(ps[0], Indexed(ps[1..]), parts, argNum, reordered);
      RenderRaw(ps[1..], parts, next, reordered || ps[0].Hole?);
      LeftoverOfRest(ps, parts, argNum, next, reordered);
      var first, more := Fill(ps[0], parts, BAD_VERB), FillAll(ps[1..], parts, BAD_VERB);
      Associate(first, more, Leftover(ps, parts, argNum, reordered));
    } else {
      var tail := Leftover(ps, parts, argNum, reordered);
      assert "" + tail == tail;
    }
  }

  lemma LeftoverOfRest(ps: seq<Piece>, parts: seq<Part>, argNum: nat, next: nat, reordered: bool)
    requires ps != [] && (ps[0].Text? ==> next == argNum)
    ensures Leftover(ps[1..], parts, next, reordered || ps[0].Hole?) == Leftover(ps, parts, argNum, reordered)
  {
    if ps[0].Hole? {
      assert Holes(ps) != [];
    } else {
      assert Holes(ps) == Holes(ps[1..]);
    }
  }

  lemma TameHead(s: string, rest: string)
    requires Tame(s) && s != []
    ensures !(BAD_VERB <= s + rest) && !(EXTRA <= s + rest) && Tame(s[1..])
  {
    assert s[0..] == s;
    LongerAgrees(s, rest, BAD_VERB);
    LongerAgrees(s, rest, EXTRA);
    forall i | 0 <= i < |s[1..]| ensures !Agree(s[1..][i..], BAD_VERB) && !Agree(s[1..][i..], EXTRA) {
      assert s[1..][i..] == s[i + 1..];
    }
  }

  lemma {:induction false} ReplaceText(s: string, rest: string)
    requires Tame(s)
    ensures ReplaceBad(s + rest) == s + ReplaceBad(rest)
  {
    if s == [] {
      assert s + rest == rest;
    } else {
      var t := s + rest;
      TameHead(s, rest);
      assert t[0] == s[0] && t[1..] == s[1..] + rest;
      ReplaceText(s[1..], rest);
      Associate([s[0]], s[1..], ReplaceBad(rest));
      assert [s[0]] + s[1..] == s;
    }
  }

  lemma ReplaceMark(rest: string)
    ensures ReplaceBad(BAD_VERB + rest) == BAD_INDEX + ReplaceBad(rest)
  {
    assert (BAD_VERB + rest)[|BAD_VERB|..] == rest;
  }

  /** The two strings agree as far as both go. */
  predicate Agree(s: string, mark: string) { mark <= s || s <= mark }

  /** No mark of Sprintf starts in the string, whatever follows it: no mark occurs in it, and it does
      not end with the beginning of one. */
  predicate Tame(s: string) {
    forall i | 0 <= i < |s| :: !Agree(s[i..], BAD_VERB) && !Agree(s[i..], EXTRA)
  }

  lemma NoPercentIsTame(s: string)
    requires NoPercent(s)
    ensures Tame(s)
  {
    forall i | 0 <= i < |s| ensures !Agree(s[i..], BAD_VERB) && !Agree(s[i..], EXTRA) {
      assert s[i..][0] == s[i] != '%';
      assert BAD_VERB[0] == EXTRA[0] == '%';
    }
  }

  predicate TameParts(parts: seq<Part>) {
    forall i | 0 <= i < |parts| :: Tame(Show(parts[i]))
  }

  predicate OutOfRange(ps: seq<Piece>, count: nat) {
    exists i | 0 <= i < |ps| :: ps[i].Hole? && Value(ps[i].digits) >= count
  }

  lemma TameAppend(a: string, b: string)
    requires Tame(a) && Tame(b)
    ensures Tame(a + b)
  {
    var s := a + b;
    forall i | 0 <= i < |s| ensures !Agree(s[i..], BAD_VERB) && !Agree(s[i..], EXTRA) {
      if i < |a| {
        assert s[i..] == a[i..] + b;
        LongerAgrees(a[i..], b, BAD_VERB);
        LongerAgrees(a[i..], b, EXTRA);
      } else {
        assert s[i..] == b[i - |a|..];
      }
    }
  }

  lemma LongerAgrees(a: string, b: string, mark: string)
    ensures Agree(a + b, mark) ==> Agree(a, mark)
  {
    if Agree(a + b, mark) {
      if |a| < |mark| {
        assert a == (a + b)[..|a|] == mark[..|a|];
      } else {
        assert a[..|mark|] == (a + b)[..|mark|];
      }
    }
  }

  lemma ReplacePiece(p: Piece, parts: seq<Part>, more: string)
    requires (p.Text? ==> p.c != '%') && TameParts(parts)
    ensures ReplaceBad(Fill(p, parts, BAD_VERB) + more) == Fill(p, parts, BAD_INDEX) + ReplaceBad(more)
  {
    if p.Hole? && Value(p.digits) >= |parts| {
      ReplaceMark(more);
    } else {
      if p.Text? { NoPercentIsTame([p.c]); }
      ReplaceText(Fill(p, parts, BAD_VERB), more);
    }
  }

  lemma {:induction false} ReplaceMarks(ps: seq<Piece>, parts: seq<Part>, tail: string)
    requires TextLacks(ps, '%') && TameParts(parts)
    ensures ReplaceBad(FillAll(ps, parts, BAD_VERB) + tail) == FillAll(ps, parts, BAD_INDEX) + ReplaceBad(tail)
    decreases |ps|
  {
    if ps == [] {
      assert "" + tail == tail;
    } else {
      var raw, done := FillAll(ps[1..], parts, BAD_VERB), FillAll(ps[1..], parts, BAD_INDEX);
      var first, first' := Fill(ps[0], parts, BAD_VERB), Fill(ps[0], parts, BAD_INDEX);
      ReplaceMarks(ps[1..], parts, tail);
      ReplacePiece(ps[0], parts, raw + tail);
      Associate(first, raw, tail);
      Associate(first', done, ReplaceBad(tail));
    }
  }

  lemma {:induction false} FillTame(ps: seq<Piece>, parts: seq<Part>)
    requires TextLacks(ps, '%') && TameParts(parts)
    ensures Tame(FillAll(ps, parts, BAD_INDEX))
  {
    if ps != [] {
      if ps[0].Text? { NoPercentIsTame([ps[0].c]); } else { NoPercentIsTame(BAD_INDEX); }
      FillTame(ps[1..], parts);
      TameAppend(Fill(ps[0], parts, BAD_INDEX), FillAll(ps[1..], parts, BAD_INDEX));
    }
  }

  lemma {:induction false} ExtraArgsTame(args: seq<Part>)
    requires TameParts(args)
    ensures Tame(ExtraArgs(args))
  {
    if args != [] {
      var tag, comma := if args[0].IntPart? then "int=" else "string=", if |args| > 1 then ", " else "";
      NoPercentIsTame(tag);
      NoPercentIsTame(comma);
      ExtraArgsTame(args[1..]);
      TameAppend(tag, Show(args[0]));
      TameAppend(tag + Show(args[0]), comma);
      TameAppend(tag + Show(args[0]) + comma, ExtraArgs(args[1..]));
    }
  }

  lemma NoMark(s: string)
    requires |s| > 2 && s[2] != 'v'
    ensures !(BAD_VERB <= s)
  {
    assert BAD_VERB[2] == 'v';
  }

  lemma ReplaceLonePercent(tail: string)
    requires Tame(tail) && |tail| > 1 && tail[1] != 'v'
    ensures ReplaceBad(['%'] + tail) == ['%'] + tail
  {
    var s := ['%'] + tail;
    assert s[2] == tail[1] && s[1..] == tail;
    NoMark(s);
    ReplaceText(tail, "");
    assert tail + "" == tail && tail + ReplaceBad("") == tail;
  }

  lemma ReplaceExtra(args: seq<Part>)
    requires TameParts(args)
    ensures ReplaceBad(Extra(args)) == Extra(args)
  {
    ExtraArgsTame(args);
    NoPercentIsTame(")");
    NoPercentIsTame("!(EXTRA ");
    TameAppend(ExtraArgs(args), ")");
    TameAppend("!(EXTRA ", ExtraArgs(args) + ")");
    assert ExtraTail(args)[1] == "!(EXTRA "[1];
    ReplaceLonePercent(ExtraTail(args));
  }

  lemma CutExtraTail(args: seq<Part>)
    ensures CutExtra(Extra(args)) == ""
  {
    var s := Extra(args);
    assert forall i | 0 <= i < |EXTRA| :: EXTRA[i] == s[i];
    assert EXTRA == s[..|EXTRA|];
  }

  lemma {:induction false} CutText(s: string, rest: string)
    requires Tame(s)
    ensures CutExtra(s + rest) == s + CutExtra(rest)
  {
    if s == [] {
      assert s + rest == rest;
    } else {
      var t := s + rest;
      TameHead(s, rest);
      assert t[0] == s[0] && t[1..] == s[1..] + rest;
      CutText(s[1..], rest);
      Associate([s[0]], s[1..], CutExtra(rest));
      assert [s[0]] + s[1..] == s;
    }
  }

  /** The clean-up of the rendered text: marks replaced, unused arguments cut off. */
  lemma CleanUp(ps: seq<Piece>, parts: seq<Part>, tail: string)
    requires TextLacks(ps, '%') && TameParts(parts) && (tail == "" || tail == Extra(parts))
    ensures CutExtra(ReplaceBad(FillAll(ps, parts, BAD_VERB) + tail)) == FillAll(ps, parts, BAD_INDEX)
  {
    var done := FillAll(ps, parts, BAD_INDEX);
    ReplaceMarks(ps, parts, tail);
    FillTame(ps, parts);
    if tail != "" {
      ReplaceExtra(parts);
      CutExtraTail(parts);
    }
    CutText(done, tail);
    assert CutExtra(tail) == "" && done + "" == done;
  }

  /** Template compilation is correct: compiling to a Sprintf format and rendering equals
      one-pass substitution, whatever number of surplus parts there is. */
  lemma RenderIsSubstitution(template: string, parts: seq<Part>)
    requires NoPercent(template) && TameParts(parts) && |parts| <= MAX_PARTS
    ensures Render(template, parts) == Some(Substitute(template, parts))
  {
    var ps := Pieces(template);
    PiecesLack(template, '%');
    CompileIndexed(template);
    RenderRaw(ps, parts, 0, false);
    assert parts[0..] == parts;
    CleanUp(ps, parts, Leftover(ps, parts, 0, false));
  }

  lemma {:induction false} FillAppend(a: seq<Piece>, b: seq<Piece>, parts: seq<Part>, mark: string)
    ensures FillAll(a + b, parts, mark) == FillAll(a, parts, mark) + FillAll(b, parts, mark)
  {
    if a == [] {
      assert a + b == b;
    } else {
      assert (a + b)[1..] == a[1..] + b;
      FillAppend(a[1..], b, parts, mark);
      Associate(Fill(a[0], parts, mark), FillAll(a[1..], parts, mark), FillAll(b, parts, mark));
    }
  }

  function Texts(s: string): (ps: seq<Piece>)
    ensures |ps| == |s| && forall i | 0 <= i < |s| :: ps[i] == Text(s[i])
  {
    seq(|s|, i requires 0 <= i < |s| => Text(s[i]))
  }

  lemma {:induction false} PiecesOfText(s: string)
    requires '#' !in s
    ensures Pieces(s) == Texts(s)
    decreases |s|
  {
    if s != [] { PiecesOfText(s[1..]); }
  }

  lemma {:induction false} FillTexts(s: string, parts: seq<Part>, mark: string)
    ensures FillAll(Texts(s), parts, mark) == s
  {
    if s != [] {
      assert Texts(s)[1..] == Texts(s[1..]);
      FillTexts(s[1..], parts, mark);
      assert [s[0]] + s[1..] == s;
    }
  }

  lemma {:induction false} FillPrefix(ps: seq<Piece>, parts: seq<Part>, more: seq<Part>, mark: string)
    requires !OutOfRange(ps, |parts|)
    ensures FillAll(ps, parts + more, mark) == FillAll(ps, parts, mark)
  {
    if ps != [] {
      assert forall i | 0 <= i < |ps[1..]| :: ps[1..][i] == ps[i + 1];
      FillPrefix(ps[1..], parts, more, mark);
    }
  }

  /** Surplus parts have no effect on a template whose placeholders all have a part. */
  lemma SurplusPartsIgnored(template: string, parts: seq<Part>, more: seq<Part>)
    requires NoPercent(template) && TameParts(parts) && TameParts(more) && |parts + more| <= MAX_PARTS
    requires !OutOfRange(Pieces(template), |parts|)
    ensures Render(template, parts + more) == Render(template, parts)
  {
    RenderIsSubstitution(template, parts);
    RenderIsSubstitution(template, parts + more);
    FillPrefix(Pieces(template), parts, more, BAD_INDEX);
  }
}
