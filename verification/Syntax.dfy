/** The JSONPath grammar: printed segments, and the parser as a function of the token list. */
module Syntax {
  import opened Values
  import opened Decimals
  import opened Selectors
  import opened Paths

  /** Scanner tokens. An expression inside brackets or a script is one opaque token. */
  datatype Token = Ident(text: string) | Sym(c: char) | Expression(e: Expr) | End

  const MAX_INT32: Int64 := 0x7FFF_FFFF

  function Head(ts: seq<Token>): Token {
    if ts == [] then End else ts[0]
  }

  datatype Parsed = Parsed(segments: seq<Segment>, rest: seq<Token>)

  datatype Bracket = Bracket(keys: seq<Expr>, separator: char, rest: seq<Token>)

  /** No separator seen yet. */
  const NONE: char := '\0'

  function Prepend(segment: Segment, r: Result<Parsed>): Result<Parsed> {
    match r
    case Ok(Parsed(segments, rest)) => Ok(Parsed([segment] + segments, rest))
    case Err => Err
  }

  /** parsePath: segments until a token that starts none; that token stays unread. */
  function ParsePath(ts: seq<Token>): (r: Result<Parsed>)
    decreases |ts|
  {
    match Head(ts)
    case Sym(c) =>
      if c == '.' then ParseSelect(ts[1..])
      else if c == '[' then
        match ParseBracket(ts[1..], [], NONE)
        case Err => Err
        case Ok(Bracket(keys, separator, rest)) =>
          match BracketSegment(keys, separator)
          case Err => Err
          case Ok(segment) => Prepend(segment, ParsePath(rest))
      else if c == '(' then ParseScript(ts[1..])
      else Ok(Parsed([], ts))
    case _ => Ok(Parsed([], ts))
  }

  /** The segment a bracket outside `..` stands for; omitted range parts get their defaults. */
  function BracketSegment(keys: seq<Expr>, separator: char): Result<Segment> {
    if separator == ':' then
      if |keys| > 3 then Err
      else
        var all := keys + [ConstInt(0), ConstInt(MAX_INT32), ConstInt(1)][|keys|..];
        Ok(Branch(Range(all[0], all[1], all[2])))
    else if separator == '?' then
      if |keys| != 1 then Err else Ok(Branch(Filter(keys[0])))
    else if |keys| == 1 then Ok(Single(Direct(keys[0])))
    else Ok(Branch(Multi(keys)))
  }

  /** The segment a bracket after `..` stands for. */
  function MapperSegment(keys: seq<Expr>, separator: char): Result<Segment> {
    if separator == ':' then Err
    else if separator == '?' then
      if |keys| != 1 then Err else Ok(Branch(Filter(keys[0])))
    else Ok(Branch(Multi(keys)))
  }

  function ParseSelect(ts: seq<Token>): Result<Parsed>
    decreases |ts|
  {
    match Head(ts)
    case Ident(text) => Prepend(Single(Direct(ConstKey(text))), ParsePath(ts[1..]))
    case Sym(c) =>
      if c == '.' then Prepend(Branch(Descend), ParseMapper(ts[1..]))
      else if c == '*' then Prepend(Branch(Star), ParsePath(ts[1..]))
      else Err
    case _ => Err
  }

  function ParseMapper(ts: seq<Token>): Result<Parsed>
    decreases |ts|
  {
    match Head(ts)
    case Ident(text) => Prepend(Single(Direct(ConstKey(text))), ParsePath(ts[1..]))
    case Sym(c) =>
      if c == '[' then
        match ParseBracket(ts[1..], [], NONE)
        case Err => Err
        case Ok(Bracket(keys, separator, rest)) =>
          match MapperSegment(keys, separator)
          case Err => Err
          case Ok(segment) => Prepend(segment, ParsePath(rest))
      else if c == '*' then Prepend(Branch(Star), ParsePath(ts[1..]))
      else if c == '(' then ParseScript(ts[1..])
      else Err
    case _ => Err
  }

  function ParseScript(ts: seq<Token>): Result<Parsed>
    decreases |ts|
  {
    match Head(ts)
    case Expression(e) =>
      (match Head(ts[1..])
       case Sym(c) => if c == ')' then Prepend(Single(Script(e)), ParsePath(ts[2..])) else Err
       case _ => Err)
    case _ => Err
  }

  /** parseBracket's loop: the keys and the separator read so far, and what is left to read. */
  function ParseBracket(ts: seq<Token>, keys: seq<Expr>, separator: char): (r: Result<Bracket>)
    ensures r.Ok? ==> |r.value.rest| < |ts|
    decreases |ts|, 0
  {
    match Head(ts)
    case Expression(e) =>
      (match Head(ts[1..])
       case Sym(c) => AfterKey(ts[2..], keys + [e], separator, c)
       case _ => Err)
    case Sym(c) =>
      if c == '?' then AfterKey(ts[1..], keys, separator, '?')
      else if c == ':' then
        AfterKey(ts[1..], keys + [ConstInt(if |keys| == 1 then MAX_INT32 else 0)], separator, ':')
      else if c == '*' then
        match Head(ts[1..])
        case Sym(d) => if d == ']' then Ok(Bracket([], NONE, ts[2..])) else Err
        case _ => Err
      else if c == ']' && separator == ':' then AfterKey(ts[1..], keys, separator, ']')
      else Err
    case _ => Err
  }

  /** The end of one loop round: `scan` closes the bracket or must agree with the separator. */
  function AfterKey(ts: seq<Token>, keys: seq<Expr>, separator: char, scan: char): (r: Result<Bracket>)
    ensures r.Ok? ==> |r.value.rest| <= |ts|
    decreases |ts|, 1
  {
    var sep := if separator == NONE then scan else separator;
    if scan == ']' then Ok(Bracket(keys, sep, ts))
    else if scan != ':' && scan != ',' && scan != '?' then Err
    else if scan == '?' && keys != [] then Err
    else if sep != scan then Err
    else ParseBracket(ts, keys, sep)
  }

  // ---- Printing ----

  /** A range as written: parts may be left out, and so may the second colon. */
  datatype Slice = Slice(min: Option<Expr>, max: Option<Expr>, step: StepSyntax)
  datatype StepSyntax = NoColon | EmptyStep | GivenStep(step: Expr)

  /** What stands between brackets. */
  datatype Body =
    | StarBody
    | KeysBody(first: Expr, more: seq<Expr>)
    | FilterBody(filter: Expr)
    | RangeBody(slice: Slice)

  /** One written segment; a `..` takes the segment after it along. */
  datatype Form =
    | DotName(name: string)
    | DotStar
    | Bracketed(body: Body)
    | ScriptForm(script: Expr)
    | DescendName(name: string)
    | DescendStar
    | DescendBracketed(body: Body)
    | DescendScript(script: Expr)

  /** A `..` cannot be combined with a range. */
  predicate WellFormed(f: Form) {
    f.DescendBracketed? ==> !f.body.RangeBody?
  }

  /** The segments a written form means. */
  function Denote(f: Form): seq<Segment> {
    match f
    case DotName(name) => [Single(Direct(ConstKey(name)))]
    case DotStar => [Branch(Star)]
    case Bracketed(body) =>
      if body.KeysBody? && body.more == [] then [Single(Direct(body.first))] else [Branch(DenoteBody(body))]
    case ScriptForm(script) => [Single(Script(script))]
    case DescendName(name) => [Branch(Descend), Single(Direct(ConstKey(name)))]
    case DescendStar => [Branch(Descend), Branch(Star)]
    case DescendBracketed(body) => [Branch(Descend), Branch(DenoteBody(body))]
    case DescendScript(script) => [Branch(Descend), Single(Script(script))]
  }

  function DenoteBody(body: Body): BranchSelector {
    match body
    case StarBody => Multi([])
    case KeysBody(first, more) => Multi([first] + more)
    case FilterBody(filter) => Filter(filter)
    case RangeBody(slice) => DenoteSlice(slice)
  }

  /** Omitted parts mean 0, MaxInt32 and 1. */
  function DenoteSlice(s: Slice): BranchSelector {
    Range(if s.min.Some? then s.min.value else ConstInt(0),
          if s.max.Some? then s.max.value else ConstInt(MAX_INT32),
          if s.step.GivenStep? then s.step.step else ConstInt(1))
  }

  function DenoteAll(fs: seq<Form>): seq<Segment> {
    if fs == [] then [] else Denote(fs[0]) + DenoteAll(fs[1..])
  }

  function Print(f: Form): seq<Token> {
    match f
    case DotName(name) => [Sym('.'), Ident(name)]
    case DotStar => [Sym('.'), Sym('*')]
    case Bracketed(body) => [Sym('[')] + PrintBody(body)
    case ScriptForm(script) => [Sym('('), Expression(script), Sym(')')]
    case DescendName(name) => [Sym('.'), Sym('.'), Ident(name)]
    case DescendStar => [Sym('.'), Sym('.'), Sym('*')]
    case DescendBracketed(body) => [Sym('.'), Sym('.'), Sym('[')] + PrintBody(body)
    case DescendScript(script) => [Sym('.'), Sym('.'), Sym('('), Expression(script), Sym(')')]
  }

  function PrintBody(body: Body): seq<Token> {
    match body
    case StarBody => [Sym('*'), Sym(']')]
    case KeysBody(first, more) => PrintKeys(first, more)
    case FilterBody(filter) => [Sym('?'), Expression(filter), Sym(']')]
    case RangeBody(slice) => PrintSlice(slice)
  }

  function PrintKeys(first: Expr, rest: seq<Expr>): seq<Token>
    decreases rest
  {
    if rest == [] then [Expression(first), Sym(']')]
    else [Expression(first), Sym(',')] + PrintKeys(rest[0], rest[1..])
  }

  function PrintPart(e: Option<Expr>): seq<Token> {
    if e.Some? then [Expression(e.value)] else []
  }

  function PrintSlice(s: Slice): seq<Token> {
    PrintPart(s.min) + ([Sym(':')] + (PrintPart(s.max) + PrintEnd(s.step)))
  }

  function PrintEnd(step: StepSyntax): seq<Token> {
    if step.NoColon? then [Sym(']')] else [Sym(':')] + PrintStep(step)
  }

  function PrintStep(step: StepSyntax): seq<Token> {
    if step.GivenStep? then [Expression(step.step), Sym(']')] else [Sym(']')]
  }

  function PrintAll(fs: seq<Form>): seq<Token> {
    if fs == [] then [] else Print(fs[0]) + PrintAll(fs[1..])
  }

  // ---- Round trip ----

  /** After these tokens a path goes on. */
  predicate StartsSegment(t: Token) {
    t.Sym? && (t.c == '.' || t.c == '[' || t.c == '(')
  }

  lemma {:induction false} ParsePrintedKeys(first: Expr, more: seq<Expr>, rest: seq<Token>, keys: seq<Expr>,
                                            separator: char)
    requires separator == NONE || separator == ','
    ensures ParseBracket(PrintKeys(first, more) + rest, keys, separator)
         == Ok(Bracket(keys + [first] + more, if separator == NONE && more == [] then ']' else ',', rest))
    decreases more
  {
    var ts := PrintKeys(first, more) + rest;
    if more == [] {
      assert ts[2..] == rest;
      assert keys + [first] + more == keys + [first];
    } else {
      assert ts[2..] == PrintKeys(more[0], more[1..]) + rest;
      ParsePrintedKeys(more[0], more[1..], rest, keys + [first], ',');
      assert keys + [first] + [more[0]] + more[1..] == keys + [first] + more;
    }
  }

  lemma ReadKey(e: Expr, c: char, tail: seq<Token>, keys: seq<Expr>, separator: char)
    ensures ParseBracket([Expression(e), Sym(c)] + tail, keys, separator) == AfterKey(tail, keys + [e], separator, c)
  {
    var ts := [Expression(e), Sym(c)] + tail;
    assert ts[2..] == tail && ts[1..][0] == Sym(c);
  }

  lemma ReadSymbol(c: char, tail: seq<Token>, keys: seq<Expr>, separator: char)
    ensures c == ':' ==> ParseBracket([Sym(c)] + tail, keys, separator)
                         == AfterKey(tail, keys + [ConstInt(if |keys| == 1 then MAX_INT32 else 0)], separator, ':')
    ensures c == '?' ==> ParseBracket([Sym(c)] + tail, keys, separator) == AfterKey(tail, keys, separator, '?')
    ensures c == ']' && separator == ':' ==>
              ParseBracket([Sym(c)] + tail, keys, separator) == Ok(Bracket(keys, ':', tail))
  {
    assert ([Sym(c)] + tail)[1..] == tail;
  }

  /** The keys parseBracket collects for a slice; a skipped max before a colon is filled in. */
  function SliceKeys(s: Slice): seq<Expr> {
    var min := if s.min.Some? then s.min.value else ConstInt(0);
    if s.step.NoColon? then
      if s.max.Some? then [min, s.max.value] else [min]
    else
      var max := if s.max.Some? then s.max.value else ConstInt(MAX_INT32);
      if s.step.GivenStep? then [min, max, s.step.step] else [min, max]
  }

  lemma SliceDefaults(s: Slice)
    ensures BracketSegment(SliceKeys(s), ':') == Ok(Branch(DenoteSlice(s)))
  {
    var defaults := [ConstInt(0), ConstInt(MAX_INT32), ConstInt(1)];
    assert defaults[1..] == [ConstInt(MAX_INT32), ConstInt(1)] && defaults[2..] == [ConstInt(1)];
  }

  /** One part of a slice and the symbol after it; an omitted part before a colon is filled in. */
  lemma ReadPart(e: Option<Expr>, c: char, tail: seq<Token>, keys: seq<Expr>, separator: char)
    requires c == ':' || (c == ']' && separator == ':')
    ensures var filled := if e.Some? then e.value else ConstInt(if |keys| == 1 then MAX_INT32 else 0);
            ParseBracket(PrintPart(e) + ([Sym(c)] + tail), keys, separator)
            == AfterKey(tail, if c == ':' || e.Some? then keys + [filled] else keys, separator, c)
  {
    if e.Some? {
      assert PrintPart(e) + ([Sym(c)] + tail) == [Expression(e.value), Sym(c)] + tail;
      ReadKey(e.value, c, tail, keys, separator);
    } else {
      assert PrintPart(e) + ([Sym(c)] + tail) == [Sym(c)] + tail;
      ReadSymbol(c, tail, keys, separator);
    }
  }

  lemma ParsePrintedSlice(s: Slice, rest: seq<Token>)
    ensures ParseBracket(PrintSlice(s) + rest, [], NONE) == Ok(Bracket(SliceKeys(s), ':', rest))
  {
    var end := PrintPart(s.max) + (PrintEnd(s.step) + rest);
    var min := if s.min.Some? then s.min.value else ConstInt(0);
    assert PrintSlice(s) + rest == PrintPart(s.min) + ([Sym(':')] + end);
    ReadPart(s.min, ':', end, [], NONE);
    assert [] + [min] == [min];
    ParseSliceEnd(s, min, rest);
  }

  lemma ParseSliceEnd(s: Slice, min: Expr, rest: seq<Token>)
    requires min == if s.min.Some? then s.min.value else ConstInt(0)
    ensures ParseBracket(PrintPart(s.max) + (PrintEnd(s.step) + rest), [min], ':')
         == Ok(Bracket(SliceKeys(s), ':', rest))
  {
    if s.step.NoColon? {
      ReadPart(s.max, ']', rest, [min], ':');
      assert s.max.Some? ==> [min] + [s.max.value] == [min, s.max.value];
    } else {
      var max := if s.max.Some? then s.max.value else ConstInt(MAX_INT32);
      var tail := PrintStep(s.step) + rest;
      assert PrintEnd(s.step) + rest == [Sym(':')] + tail;
      ReadPart(s.max, ':', tail, [min], ':');
      assert [min] + [max] == [min, max];
      ParseSliceStep(s.step, min, max, rest);
    }
  }

  lemma ParseSliceStep(step: StepSyntax, min: Expr, max: Expr, rest: seq<Token>)
    ensures ParseBracket(PrintStep(step) + rest, [min, max], ':')
         == Ok(Bracket(if step.GivenStep? then [min, max, step.step] else [min, max], ':', rest))
  {
    if step.GivenStep? {
      ReadKey(step.step, ']', rest, [min, max], ':');
      assert [min, max] + [step.step] == [min, max, step.step];
    } else {
      ReadSymbol(']', rest, [min, max], ':');
    }
  }

  function PrependAll(segments: seq<Segment>, r: Result<Parsed>): Result<Parsed> {
    match r
    case Ok(p) => Ok(Parsed(segments + p.segments, p.rest))
    case Err => Err
  }

  lemma PrependOne(segment: Segment, r: Result<Parsed>)
    ensures PrependAll([segment], r) == Prepend(segment, r)
  {}

  lemma PrependTwo(a: Segment, b: Segment, r: Result<Parsed>)
    ensures PrependAll([a, b], r) == Prepend(a, Prepend(b, r))
  {
    if r.Ok? { assert [a] + ([b] + r.value.segments) == [a, b] + r.value.segments; }
  }

  lemma ReadFilter(filter: Expr, rest: seq<Token>)
    ensures ParseBracket([Sym('?'), Expression(filter), Sym(']')] + rest, [], NONE) == Ok(Bracket([filter], '?', rest))
  {
    var tail := [Expression(filter), Sym(']')] + rest;
    assert [Sym('?'), Expression(filter), Sym(']')] + rest == [Sym('?')] + tail;
    ReadSymbol('?', tail, [], NONE);
    ReadKey(filter, ']', rest, [], '?');
    assert [] + [filter] == [filter];
  }

  lemma ReadStar(rest: seq<Token>)
    ensures ParseBracket([Sym('*'), Sym(']')] + rest, [], NONE) == Ok(Bracket([], NONE, rest))
  {
    var ts := [Sym('*'), Sym(']')] + rest;
    assert ts[1..][0] == Sym(']') && ts[2..] == rest;
  }

  lemma ReadKeys(first: Expr, more: seq<Expr>, rest: seq<Token>)
    ensures ParseBracket(PrintKeys(first, more) + rest, [], NONE)
         == Ok(Bracket([first] + more, if more == [] then ']' else ',', rest))
  {
    ParsePrintedKeys(first, more, rest, [], NONE);
    assert [] + [first] + more == [first] + more;
  }

  /** A printed bracket body reads back as its keys, separator and rest. */
  lemma ReadBody(body: Body, rest: seq<Token>)
    ensures var r := ParseBracket(PrintBody(body) + rest, [], NONE);
            r.Ok? && r.value.rest == rest
            && BracketSegment(r.value.keys, r.value.separator) == Ok(Denote(Bracketed(body))[0])
            && (!body.RangeBody? ==> MapperSegment(r.value.keys, r.value.separator) == Ok(Branch(DenoteBody(body))))
  {
    match body
    case StarBody => ReadStar(rest);
    case KeysBody(first, more) => ReadKeys(first, more, rest);
    case FilterBody(filter) => ReadFilter(filter, rest);
    case RangeBody(slice) =>
      ParsePrintedSlice(slice, rest);
      SliceDefaults(slice);
  }

  lemma PrintBracketed(body: Body, rest: seq<Token>)
    ensures Print(Bracketed(body)) + rest == [Sym('[')] + (PrintBody(body) + rest)
  {}

  lemma ReadBracketed(body: Body, rest: seq<Token>)
    ensures ParsePath(Print(Bracketed(body)) + rest) == Prepend(Denote(Bracketed(body))[0], ParsePath(rest))
    ensures !body.RangeBody? ==>
              ParseMapper([Sym('[')] + (PrintBody(body) + rest)) == Prepend(Branch(DenoteBody(body)), ParsePath(rest))
  {
    var inner := PrintBody(body) + rest;
    var ts := [Sym('[')] + inner;
    PrintBracketed(body, rest);
    assert ts[1..] == inner;
    ReadBody(body, rest);
  }

  lemma ReadDots(tail: seq<Token>)
    ensures ParsePath([Sym('.'), Sym('.')] + tail) == Prepend(Branch(Descend), ParseMapper(tail))
  {
    var ts := [Sym('.'), Sym('.')] + tail;
    assert ts[1..][0] == Sym('.') && ts[1..][1..] == tail;
  }

  lemma ReadDescendToken(f: Form, rest: seq<Token>)
    requires f.DescendName? || f.DescendStar?
    ensures ParsePath(Print(f) + rest) == Prepend(Denote(f)[0], Prepend(Denote(f)[1], ParsePath(rest)))
  {
    var tail := [Print(f)[2]] + rest;
    assert Print(f) + rest == [Sym('.'), Sym('.')] + tail;
    ReadDots(tail);
    assert tail[1..] == rest;
  }

  lemma ReadScript(script: Expr, rest: seq<Token>)
    ensures ParseScript([Expression(script), Sym(')')] + rest) == Prepend(Single(Script(script)), ParsePath(rest))
  {
    var ts := [Expression(script), Sym(')')] + rest;
    assert ts[2..] == rest && ts[1..][0] == Sym(')');
  }

  lemma PrintDescendScript(script: Expr, rest: seq<Token>)
    ensures Print(DescendScript(script)) + rest
         == [Sym('.'), Sym('.')] + ([Sym('(')] + ([Expression(script), Sym(')')] + rest))
  {}

  lemma ReadDescendScript(script: Expr, rest: seq<Token>)
    ensures ParsePath(Print(DescendScript(script)) + rest)
         == Prepend(Branch(Descend), Prepend(Single(Script(script)), ParsePath(rest)))
  {
    var inner := [Expression(script), Sym(')')] + rest;
    var tail := [Sym('(')] + inner;
    PrintDescendScript(script, rest);
    ReadDots(tail);
    assert tail[1..] == inner;
    ReadScript(script, rest);
  }

  lemma PrintDescendBracketed(body: Body, rest: seq<Token>)
    ensures Print(DescendBracketed(body)) + rest == [Sym('.'), Sym('.')] + ([Sym('[')] + (PrintBody(body) + rest))
  {}

  lemma ReadDescendBracketed(body: Body, rest: seq<Token>)
    requires !body.RangeBody?
    ensures ParsePath(Print(DescendBracketed(body)) + rest)
         == Prepend(Branch(Descend), Prepend(Branch(DenoteBody(body)), ParsePath(rest)))
  {
    PrintDescendBracketed(body, rest);
    ReadDots([Sym('[')] + (PrintBody(body) + rest));
    ReadBracketed(body, rest);
  }

  lemma ReadDescend(f: Form, rest: seq<Token>)
    requires |Denote(f)| == 2 && WellFormed(f)
    ensures ParsePath(Print(f) + rest) == Prepend(Denote(f)[0], Prepend(Denote(f)[1], ParsePath(rest)))
  {
    if f.DescendBracketed? {
      ReadDescendBracketed(f.body, rest);
    } else if f.DescendScript? {
      ReadDescendScript(f.script, rest);
    } else {
      ReadDescendToken(f, rest);
    }
  }

  lemma ReadDotName(name: string, rest: seq<Token>)
    ensures ParsePath(Print(DotName(name)) + rest) == Prepend(Single(Direct(ConstKey(name))), ParsePath(rest))
  {
    var tail := [Ident(name)] + rest;
    var ts := [Sym('.')] + tail;
    assert Print(DotName(name)) + rest == ts;
    assert ts[1..] == tail && tail[1..] == rest;
    assert ParsePath(ts) == ParseSelect(tail);
  }

  lemma ReadDotStar(rest: seq<Token>)
    ensures ParsePath(Print(DotStar) + rest) == Prepend(Branch(Star), ParsePath(rest))
  {
    var tail := [Sym('*')] + rest;
    var ts := [Sym('.')] + tail;
    assert Print(DotStar) + rest == ts;
    assert ts[1..] == tail && tail[1..] == rest;
    assert ParsePath(ts) == ParseSelect(tail);
  }

  lemma ReadScriptForm(script: Expr, rest: seq<Token>)
    ensures ParsePath(Print(ScriptForm(script)) + rest) == Prepend(Single(Script(script)), ParsePath(rest))
  {
    var tail := [Expression(script), Sym(')')] + rest;
    var ts := [Sym('(')] + tail;
    assert Print(ScriptForm(script)) + rest == ts;
    assert ts[1..] == tail;
    ReadScript(script, rest);
  }

  /** One printed form is read back as its segments, followed by whatever comes next. */
  lemma ParsePrintedForm(f: Form, rest: seq<Token>)
    requires WellFormed(f)
    ensures ParsePath(Print(f) + rest) == PrependAll(Denote(f), ParsePath(rest))
  {
    if |Denote(f)| == 2 {
      ReadDescend(f, rest);
      PrependTwo(Denote(f)[0], Denote(f)[1], ParsePath(rest));
    } else {
      PrependOne(Denote(f)[0], ParsePath(rest));
      match f {
        case DotName(name) => ReadDotName(name, rest);
        case DotStar => ReadDotStar(rest);
        case Bracketed(body) => ReadBracketed(body, rest);
        case ScriptForm(script) => ReadScriptForm(script, rest);
      }
    }
  }

  lemma PrintAllFirst(fs: seq<Form>, rest: seq<Token>)
    requires fs != []
    ensures PrintAll(fs) + rest == Print(fs[0]) + (PrintAll(fs[1..]) + rest)
  {}

  /** Round trip: printing well-formed segments and parsing gives them back, trailing tokens
      unread. */
  lemma {:induction false} ParseRoundTrip(fs: seq<Form>, rest: seq<Token>)
    requires forall i | 0 <= i < |fs| :: WellFormed(fs[i])
    requires !StartsSegment(Head(rest))
    ensures ParsePath(PrintAll(fs) + rest) == Ok(Parsed(DenoteAll(fs), rest))
  {
    if fs == [] {
      assert PrintAll(fs) + rest == rest;
    } else {
      var tail := PrintAll(fs[1..]) + rest;
      ParseRoundTrip(fs[1..], rest);
      ParsePrintedForm(fs[0], tail);
      PrintAllFirst(fs, rest);
      calc {
        ParsePath(PrintAll(fs) + rest);
        PrependAll(Denote(fs[0]), ParsePath(tail));
        PrependAll(Denote(fs[0]), Ok(Parsed(DenoteAll(fs[1..]), rest)));
        Ok(Parsed(DenoteAll(fs), rest));
      }
    }
  }

  // ---- Every accepted input has a printed form ----

  predicate AllWellFormed(fs: seq<Form>) { forall i | 0 <= i < |fs| :: WellFormed(fs[i]) }

  /** The segments are those of these forms, and what is left unread starts no further one. */
  ghost predicate WrittenAs(p: Parsed, fs: seq<Form>) {
    AllWellFormed(fs) && DenoteAll(fs) == p.segments && !StartsSegment(Head(p.rest))
  }

  lemma FirstForm(f: Form, fs: seq<Form>)
    ensures DenoteAll([f] + fs) == Denote(f) + DenoteAll(fs)
  {
    assert ([f] + fs)[1..] == fs;
  }

  lemma BodyOfSegment(keys: seq<Expr>, separator: char) returns (body: Body)
    requires BracketSegment(keys, separator).Ok?
    ensures Denote(Bracketed(body)) == [BracketSegment(keys, separator).value]
  {
    if separator == ':' {
      var all := keys + [ConstInt(0), ConstInt(MAX_INT32), ConstInt(1)][|keys|..];
      body := RangeBody(Slice(Some(all[0]), Some(all[1]), GivenStep(all[2])));
    } else if separator == '?' {
      body := FilterBody(keys[0]);
    } else if keys == [] {
      body := StarBody;
    } else {
      body := KeysBody(keys[0], keys[1..]);
      assert [keys[0]] + keys[1..] == keys;
    }
  }

  lemma BodyOfMapper(keys: seq<Expr>, separator: char) returns (body: Body)
    requires MapperSegment(keys, separator).Ok?
    ensures !body.RangeBody? && Branch(DenoteBody(body)) == MapperSegment(keys, separator).value
  {
    if separator == '?' {
      body := FilterBody(keys[0]);
    } else if keys == [] {
      body := StarBody;
    } else {
      body := KeysBody(keys[0], keys[1..]);
      assert [keys[0]] + keys[1..] == keys;
    }
  }

  lemma PathIsWritten(ts: seq<Token>) returns (fs: seq<Form>)
    requires ParsePath(ts).Ok?
    ensures WrittenAs(ParsePath(ts).value, fs)
    decreases |ts|, 1
  {
    fs := [];
    if Head(ts).Sym? && Head(ts).c == '.' {
      fs := SelectIsWritten(ts[1..]);
    } else if Head(ts).Sym? && Head(ts).c == '[' {
      var bracket := ParseBracket(ts[1..], [], NONE).value;
      var body := BodyOfSegment(bracket.keys, bracket.separator);
      var rest := PathIsWritten(bracket.rest);
      FirstForm(Bracketed(body), rest);
      fs := [Bracketed(body)] + rest;
    } else if Head(ts).Sym? && Head(ts).c == '(' {
      fs := ScriptIsWritten(ts[1..]);
    }
  }

  lemma SelectIsWritten(ts: seq<Token>) returns (fs: seq<Form>)
    requires ParseSelect(ts).Ok?
    ensures WrittenAs(ParseSelect(ts).value, fs)
    decreases |ts|, 0
  {
    if Head(ts).Sym? && Head(ts).c == '.' {
      fs := MapperIsWritten(ts[1..]);
    } else {
      var f := if Head(ts).Ident? then DotName(Head(ts).text) else DotStar;
      var rest := PathIsWritten(ts[1..]);
      FirstForm(f, rest);
      fs := [f] + rest;
    }
  }

  /** After `..`: the segments with that of the `..` in front. */
  lemma MapperIsWritten(ts: seq<Token>) returns (fs: seq<Form>)
    requires ParseMapper(ts).Ok?
    ensures WrittenAs(Prepend(Branch(Descend), ParseMapper(ts)).value, fs)
    decreases |ts|, 0
  {
    if Head(ts).Sym? && Head(ts).c == '(' {
      var script, after := ts[1..][0].e, ts[1..][2..];
      var rest := PathIsWritten(after);
      FirstForm(DescendScript(script), rest);
      fs := [DescendScript(script)] + rest;
      PrependTwo(Branch(Descend), Single(Script(script)), ParsePath(after));
    } else if Head(ts).Sym? && Head(ts).c == '[' {
      var bracket := ParseBracket(ts[1..], [], NONE).value;
      var body := BodyOfMapper(bracket.keys, bracket.separator);
      var rest := PathIsWritten(bracket.rest);
      FirstForm(DescendBracketed(body), rest);
      fs := [DescendBracketed(body)] + rest;
      PrependTwo(Branch(Descend), Branch(DenoteBody(body)), ParsePath(bracket.rest));
    } else {
      var f := if Head(ts).Ident? then DescendName(Head(ts).text) else DescendStar;
      var rest := PathIsWritten(ts[1..]);
      FirstForm(f, rest);
      fs := [f] + rest;
      PrependTwo(Branch(Descend), Denote(f)[1], ParsePath(ts[1..]));
    }
  }

  lemma ScriptIsWritten(ts: seq<Token>) returns (fs: seq<Form>)
    requires ParseScript(ts).Ok?
    ensures WrittenAs(ParseScript(ts).value, fs)
    decreases |ts|, 0
  {
    var f := ScriptForm(ts[0].e);
    var rest := PathIsWritten(ts[2..]);
    FirstForm(f, rest);
    fs := [f] + rest;
  }

  /** What the parser accepts, in whatever spelling, means the segments of some well-formed forms,
      and printing those and parsing again gives the same result. */
  lemma AcceptedIsPrintable(ts: seq<Token>) returns (fs: seq<Form>)
    requires ParsePath(ts).Ok?
    ensures WrittenAs(ParsePath(ts).value, fs)
    ensures ParsePath(PrintAll(fs) + ParsePath(ts).value.rest) == ParsePath(ts)
  {
    fs := PathIsWritten(ts);
    ParseRoundTrip(fs, ParsePath(ts).value.rest);
  }

  // ---- Every spelling ----

  /** Dots, names, stars and scripts, as they are spelled, whatever follows them. */
  lemma DotSpellings(name: string, e: Expr, rest: seq<Token>)
    ensures var next := ParsePath(rest);
            && ParsePath([Sym('.'), Ident(name)] + rest) == PrependAll([Single(Direct(ConstKey(name)))], next)
            && ParsePath([Sym('.'), Sym('*')] + rest) == PrependAll([Branch(Star)], next)
            && ParsePath([Sym('('), Expression(e), Sym(')')] + rest) == PrependAll([Single(Script(e))], next)
  {
    ParsePrintedForm(DotName(name), rest);
    ParsePrintedForm(DotStar, rest);
    ParsePrintedForm(ScriptForm(e), rest);
  }

  /** The same after `..`. */
  lemma DescendSpellings(name: string, e: Expr, rest: seq<Token>)
    ensures var next := ParsePath(rest);
            && ParsePath([Sym('.'), Sym('.'), Ident(name)] + rest)
               == PrependAll([Branch(Descend), Single(Direct(ConstKey(name)))], next)
            && ParsePath([Sym('.'), Sym('.'), Sym('*')] + rest) == PrependAll([Branch(Descend), Branch(Star)], next)
            && ParsePath([Sym('.'), Sym('.'), Sym('('), Expression(e), Sym(')')] + rest)
               == PrependAll([Branch(Descend), Single(Script(e))], next)
  {
    ParsePrintedForm(DescendName(name), rest);
    ParsePrintedForm(DescendStar, rest);
    ParsePrintedForm(DescendScript(e), rest);
  }

  /** Brackets, as they are spelled: one key, several, a star, a filter. */
  lemma BracketSpellings(a: Expr, b: Expr, rest: seq<Token>)
    ensures var next := ParsePath(rest);
            && ParsePath([Sym('['), Expression(a), Sym(']')] + rest) == PrependAll([Single(Direct(a))], next)
            && ParsePath([Sym('['), Expression(a), Sym(','), Expression(b), Sym(']')] + rest)
               == PrependAll([Branch(Multi([a, b]))], next)
            && ParsePath([Sym('['), Sym('*'), Sym(']')] + rest) == PrependAll([Branch(Multi([]))], next)
            && ParsePath([Sym('['), Sym('?'), Expression(a), Sym(']')] + rest) == PrependAll([Branch(Filter(a))], next)
  {
    SpelledBodies(a, b);
    ParsePrintedForm(Bracketed(KeysBody(a, [])), rest);
    ParsePrintedForm(Bracketed(KeysBody(a, [b])), rest);
    ParsePrintedForm(Bracketed(StarBody), rest);
    ParsePrintedForm(Bracketed(FilterBody(a)), rest);
  }

  lemma SpelledBodies(a: Expr, b: Expr)
    ensures Print(Bracketed(KeysBody(a, []))) == [Sym('['), Expression(a), Sym(']')]
    ensures Print(Bracketed(KeysBody(a, [b]))) == [Sym('['), Expression(a), Sym(','), Expression(b), Sym(']')]
    ensures Print(Bracketed(StarBody)) == [Sym('['), Sym('*'), Sym(']')]
    ensures Print(Bracketed(FilterBody(a))) == [Sym('['), Sym('?'), Expression(a), Sym(']')]
    ensures Denote(Bracketed(KeysBody(a, [b]))) == [Branch(Multi([a, b]))]
  {
    assert [b][0] == b && [b][1..] == [] && PrintKeys(b, []) == [Expression(b), Sym(']')];
    assert [a] + [b] == [a, b];
  }

  /** The same after `..`, where a single key stays a union. */
  lemma DescendBracketSpellings(a: Expr, rest: seq<Token>)
    ensures var next := ParsePath(rest);
            && ParsePath([Sym('.'), Sym('.'), Sym('['), Expression(a), Sym(']')] + rest)
               == PrependAll([Branch(Descend), Branch(Multi([a]))], next)
            && ParsePath([Sym('.'), Sym('.'), Sym('['), Sym('*'), Sym(']')] + rest)
               == PrependAll([Branch(Descend), Branch(Multi([]))], next)
            && ParsePath([Sym('.'), Sym('.'), Sym('['), Sym('?'), Expression(a), Sym(']')] + rest)
               == PrependAll([Branch(Descend), Branch(Filter(a))], next)
  {
    SpelledDescents(a);
    ParsePrintedForm(DescendBracketed(KeysBody(a, [])), rest);
    ParsePrintedForm(DescendBracketed(StarBody), rest);
    ParsePrintedForm(DescendBracketed(FilterBody(a)), rest);
  }

  lemma SpelledDescents(a: Expr)
    ensures Print(DescendBracketed(KeysBody(a, []))) == [Sym('.'), Sym('.'), Sym('['), Expression(a), Sym(']')]
    ensures Print(DescendBracketed(StarBody)) == [Sym('.'), Sym('.'), Sym('['), Sym('*'), Sym(']')]
    ensures Print(DescendBracketed(FilterBody(a))) == [Sym('.'), Sym('.'), Sym('['), Sym('?'), Expression(a), Sym(']')]
    ensures Denote(DescendBracketed(KeysBody(a, []))) == [Branch(Descend), Branch(Multi([a]))]
  {
    assert [a] + [] == [a];
  }

  /** Ranges, with all parts and with none. */
  lemma RangeSpellings(a: Expr, b: Expr, c: Expr, rest: seq<Token>)
    ensures var next := ParsePath(rest);
            && ParsePath([Sym('['), Expression(a), Sym(':'), Expression(b), Sym(']')] + rest)
               == PrependAll([Branch(Range(a, b, ConstInt(1)))], next)
            && ParsePath([Sym('['), Expression(a), Sym(':'), Expression(b), Sym(':'), Expression(c), Sym(']')] + rest)
               == PrependAll([Branch(Range(a, b, c))], next)
            && ParsePath([Sym('['), Sym(':'), Sym(']')] + rest)
               == PrependAll([Branch(Range(ConstInt(0), ConstInt(2147483647), ConstInt(1)))], next)
  {
    var ab, abc := Slice(Some(a), Some(b), NoColon), Slice(Some(a), Some(b), GivenStep(c));
    var none := Slice(None, None, NoColon);
    SpelledSlices(a, b, c);
    ParsePrintedForm(Bracketed(RangeBody(ab)), rest);
    ParsePrintedForm(Bracketed(RangeBody(abc)), rest);
    ParsePrintedForm(Bracketed(RangeBody(none)), rest);
  }

  lemma SpelledSlices(a: Expr, b: Expr, c: Expr)
    ensures Print(Bracketed(RangeBody(Slice(Some(a), Some(b), NoColon))))
         == [Sym('['), Expression(a), Sym(':'), Expression(b), Sym(']')]
    ensures Print(Bracketed(RangeBody(Slice(Some(a), Some(b), GivenStep(c)))))
         == [Sym('['), Expression(a), Sym(':'), Expression(b), Sym(':'), Expression(c), Sym(']')]
    ensures Print(Bracketed(RangeBody(Slice(None, None, NoColon)))) == [Sym('['), Sym(':'), Sym(']')]
  {}

  /** A second separator that differs from the first is refused, and so is a range after `..`. */
  lemma Refusals(a: Expr, b: Expr, tail: seq<Token>)
    ensures ParsePath([Sym('['), Expression(a), Sym(','), Expression(b), Sym(':')] + tail) == Err
    ensures ParsePath([Sym('['), Expression(a), Sym(':'), Expression(b), Sym(',')] + tail) == Err
    ensures ParsePath([Sym('.'), Sym('.'), Sym('['), Expression(a), Sym(':'), Expression(b), Sym(']')] + tail) == Err
  {
    MixedBracket(a, b, ',', ':', tail);
    MixedBracket(a, b, ':', ',', tail);
    ReadTwoKeys(a, b, ':', ']', tail);
    var keys := [Expression(a), Sym(':')] + ([Expression(b), Sym(']')] + tail);
    var inner := [Sym('[')] + keys;
    assert inner[1..] == keys;
    assert [Sym('.'), Sym('.'), Sym('['), Expression(a), Sym(':'), Expression(b), Sym(']')] + tail
        == [Sym('.'), Sym('.')] + inner;
    ReadDots(inner);
  }

  lemma ReadTwoKeys(a: Expr, b: Expr, first: char, second: char, tail: seq<Token>)
    requires first == ':' || first == ','
    ensures ParseBracket([Expression(a), Sym(first)] + ([Expression(b), Sym(second)] + tail), [], NONE)
         == AfterKey(tail, [a, b], first, second)
  {
    ReadKey(a, first, [Expression(b), Sym(second)] + tail, [], NONE);
    assert [] + [a] == [a] && [a] + [b] == [a, b];
    ReadKey(b, second, tail, [a], first);
  }

  lemma MixedBracket(a: Expr, b: Expr, first: char, second: char, tail: seq<Token>)
    requires (first == ':' && second == ',') || (first == ',' && second == ':')
    ensures ParsePath([Sym('['), Expression(a), Sym(first), Expression(b), Sym(second)] + tail) == Err
  {
    var keys := [Expression(a), Sym(first)] + ([Expression(b), Sym(second)] + tail);
    var ts := [Sym('['), Expression(a), Sym(first), Expression(b), Sym(second)] + tail;
    ReadTwoKeys(a, b, first, second, tail);
    assert ts[1..] == keys;
  }
}
