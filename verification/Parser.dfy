/** The parser object of jsonpath/parse.go: a shared scanner and the path built so far. */
module Parser {
  import opened Values
  import opened Selectors
  import opened Paths
  import opened PathObjects
  import opened Syntax

  /** Extending a path with further segments. */
  ghost function Extended(p: Path, segments: seq<Segment>): Path
    decreases segments
  {
    if segments == [] then p else Extended(With(p, segments[0]), segments[1..])
  }

  /** Parsing into an empty path builds the chain that the fold over the segments builds. */
  lemma {:induction false} ExtendedBuilds(done: seq<Segment>, segments: seq<Segment>)
    ensures Extended(Build(done), segments) == Build(done + segments)
    decreases segments
  {
    if segments == [] {
      assert done + segments == done;
    } else {
      var next := done + [segments[0]];
      assert next[..|next| - 1] == done;
      ExtendedBuilds(next, segments[1..]);
      assert next + segments[1..] == done + segments;
    }
  }

  class PathParser {
    const tokens: seq<Token>
    var pos: nat
    var path: PathRef

    constructor (tokens: seq<Token>)
      ensures Valid() && Rest() == tokens && path == PlainRef([])
    {
      this.tokens := tokens;
      pos := 0;
      path := PlainRef([]);
    }

    ghost predicate Valid()
      reads this, path.Chain()
    {
      path.Valid()
    }

    /** The tokens not yet scanned. */
    function Rest(): seq<Token>
      reads this
    {
      if pos <= |tokens| then tokens[pos..] else []
    }

    /** The path stays in place or is extended with nodes that did not exist before. */
    twostate predicate Grows()
      reads this, path.Chain()
    {
      Valid() && path.Chain() >= old(path.Chain()) && fresh(path.Chain() - old(path.Chain()))
    }

    /** The next token; at the end of the input, End again and again. */
    method Scan() returns (t: Token)
      modifies `pos
      ensures t == Head(old(Rest())) && pos == old(pos) + 1
      ensures Rest() == if old(Rest()) == [] then [] else old(Rest())[1..]
    {
      t := if pos < |tokens| then tokens[pos] else End;
      pos := pos + 1;
    }

    /** Puts the last scanned token back. */
    method Camouflage()
      requires pos > 0
      modifies `pos
      ensures pos == old(pos) - 1
    {
      pos := pos - 1;
    }

    /** An opaque expression, or an error that leaves the scanner anywhere. */
    method ParseExpression() returns (e: Result<Expr>)
      modifies `pos
      ensures e == match Head(old(Rest())) case Expression(x) => Ok(x) case _ => Err
      ensures Rest() == if old(Rest()) == [] then [] else old(Rest())[1..]
    {
      var t := Scan();
      e := match t case Expression(x) => Ok(x) case _ => Err;
    }

    method AppendPlainSelector(sel: PlainSelector)
      requires Valid()
      modifies `path, path.Chain()
      ensures Grows() && path.Value() == old(path.Value()).WithPlain(sel)
    {
      path := path.WithPlainSelector(sel);
    }

    method AppendAmbiguousSelector(sel: BranchSelector)
      requires Valid()
      modifies `path
      ensures Grows() && path.Value() == old(path.Value()).WithBranch(sel)
    {
      path := path.WithAmbiguousSelector(sel);
    }

    method AppendSegment(segment: Segment)
      requires Valid()
      modifies `path, path.Chain()
      ensures Grows() && path.Value() == With(old(path.Value()), segment)
    {
      match segment {
        case Single(sel) => AppendPlainSelector(sel);
        case Branch(sel) => AppendAmbiguousSelector(sel);
      }
    }

    /** What a parsing method promises: it fails as the grammar does, or extends the path by
        the segments of the grammar and stops where the grammar stops. */
    twostate predicate Follows(ok: bool, new r: Result<Parsed>)
      requires old(Valid())
      reads this, path.Chain()
    {
      ok == r.Ok? && Grows() &&
      (r.Ok? ==> Rest() == r.value.rest && path.Value() == Extended(old(path.Value()), r.value.segments))
    }

    method ParsePathTokens() returns (ok: bool)
      requires Valid()
      modifies this, path.Chain()
      ensures Follows(ok, ParsePath(old(Rest())))
      decreases |Rest()|, 0
    {
      var t := Scan();
      match t {
        case Sym(c) =>
          if c == '.' {
            ok := ParseSelectTokens();
            return;
          } else if c == '[' {
            var bracket := ParseBracketTokens();
            if bracket.Err? { return false; }
            var segment := BracketSegment(bracket.value.keys, bracket.value.separator);
            if segment.Err? { return false; }
            ok := AppendAndGoOn(segment.value);
            return;
          } else if c == '(' {
            ok := ParseScriptTokens();
            return;
          }
        case _ =>
      }
      Camouflage();
      return true;
    }

    /** Appends one segment and parses the path after it. */
    method AppendAndGoOn(segment: Segment) returns (ok: bool)
      requires Valid()
      modifies this, path.Chain()
      ensures Follows(ok, Prepend(segment, ParsePath(old(Rest()))))
      decreases |Rest()|, 1
    {
      AppendSegment(segment);
      ok := ParsePathTokens();
    }

    method ParseSelectTokens() returns (ok: bool)
      requires Valid()
      modifies this, path.Chain()
      ensures Follows(ok, ParseSelect(old(Rest())))
      decreases |Rest()|, 0
    {
      var t := Scan();
      match t
      case Ident(text) => ok := AppendAndGoOn(Single(Direct(ConstKey(text))));
      case Sym(c) =>
        if c == '.' {
          AppendAmbiguousSelector(Descend);
          ok := ParseMapperTokens();
        } else if c == '*' {
          ok := AppendAndGoOn(Branch(Star));
        } else {
          ok := false;
        }
      case _ => ok := false;
    }

    method ParseMapperTokens() returns (ok: bool)
      requires Valid()
      modifies this, path.Chain()
      ensures Follows(ok, ParseMapper(old(Rest())))
      decreases |Rest()|, 0
    {
      var t := Scan();
      match t
      case Ident(text) => ok := AppendAndGoOn(Single(Direct(ConstKey(text))));
      case Sym(c) =>
        if c == '[' {
          var bracket := ParseBracketTokens();
          if bracket.Err? { return false; }
          var segment := MapperSegment(bracket.value.keys, bracket.value.separator);
          if segment.Err? { return false; }
          ok := AppendAndGoOn(segment.value);
        } else if c == '*' {
          ok := AppendAndGoOn(Branch(Star));
        } else if c == '(' {
          ok := ParseScriptTokens();
        } else {
          ok := false;
        }
      case _ => ok := false;
    }

    method ParseScriptTokens() returns (ok: bool)
      requires Valid()
      modifies this, path.Chain()
      ensures Follows(ok, ParseScript(old(Rest())))
      decreases |Rest()|, 0
    {
      var script := ParseExpression();
      if script.Err? { return false; }
      var t := Scan();
      if !(t.Sym? && t.c == ')') { return false; }
      ok := AppendAndGoOn(Single(Script(script.value)));
    }

    /** The first half of a parseBracket round: a key or an omitted part, and the symbol after it. */
    method ScanKey(keys: seq<Expr>, separator: char) returns (r: KeyScan)
      modifies `pos
      ensures ParseBracket(old(Rest()), keys, separator)
           == match r
              case StarScan => Ok(Bracket([], NONE, Rest()))
              case Scanned(ks, scan) => AfterKey(Rest(), ks, separator, scan)
              case Failed => Err
      ensures r.Failed? || |Rest()| < |old(Rest())|
    {
      var t := Scan();
      if t.Sym? && t.c == '?' { return Scanned(keys, '?'); }
      if t.Sym? && t.c == ':' {
        return Scanned(keys + [ConstInt(if |keys| == 1 then MAX_INT32 else 0)], ':');
      }
      if t.Sym? && t.c == '*' {
        t := Scan();
        return if t.Sym? && t.c == ']' then StarScan else Failed;
      }
      if t.Sym? && t.c == ']' && separator == ':' { return Scanned(keys, ']'); }
      Camouflage();
      var key := ParseExpression();
      if key.Err? { return Failed; }
      t := Scan();
      return if t.Sym? then Scanned(keys + [key.value], t.c) else Failed;
    }

    /** parseBracket's loop over the keys and separators up to the closing bracket. */
    method ParseBracketTokens() returns (r: Result<Bracket>)
      modifies `pos
      ensures r == ParseBracket(old(Rest()), [], NONE) && (r.Ok? ==> Rest() == r.value.rest)
    {
      var keys: seq<Expr>, separator := [], NONE;
      while true
        invariant ParseBracket(old(Rest()), [], NONE) == ParseBracket(Rest(), keys, separator)
        decreases |Rest()|
      {
        var round := ScanKey(keys, separator);
        match round {
          case Failed => return Err;
          case StarScan => return Ok(Bracket([], NONE, Rest()));
          case Scanned(ks, scan) =>
            keys := ks;
            var first := separator == NONE;
            if scan == ']' { return Ok(Bracket(keys, if first then scan else separator, Rest())); }
            if scan != ':' && scan != ',' && scan != '?' { return Err; }
            if scan == '?' && keys != [] { return Err; }
            if first { separator := scan; }
            if separator != scan { return Err; }
        }
      }
    }
  }

  datatype KeyScan = StarScan | Scanned(keys: seq<Expr>, scan: char) | Failed

  /** Printing well-formed segments and running the parser on the tokens builds exactly the
      chain of those segments, and the trailing tokens are left for the caller. */
  method ParsePrinted(fs: seq<Form>, rest: seq<Token>) returns (p: PathParser)
    requires forall i | 0 <= i < |fs| :: WellFormed(fs[i])
    requires !StartsSegment(Head(rest))
    ensures p.Valid() && p.path.Value() == Build(DenoteAll(fs)) && p.Rest() == rest
  {
    p := new PathParser(PrintAll(fs) + rest);
    var ok := p.ParsePathTokens();
    ParseRoundTrip(fs, rest);
    ExtendedBuilds([], DenoteAll(fs));
    assert [] + DenoteAll(fs) == DenoteAll(fs);
  }
}
