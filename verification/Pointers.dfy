/** JSON Pointer: sections 3 and 4 of RFC 6901. */
module Pointers {
  import opened Values
  import opened Decimals
  import opened Documents

  function UntilSlash(s: string): (n: nat)
    ensures n <= |s| && '/' !in s[..n] && (n < |s| ==> s[n] == '/')
  {
    if s == [] || s[0] == '/' then 0
    else
      var n := UntilSlash(s[1..]);
      assert s[..n + 1] == [s[0]] + s[1..][..n];
      n + 1
  }

  function Split(s: string): seq<string>
    decreases |s|
  {
    var n := UntilSlash(s);
    if n == |s| then [s] else [s[..n]] + Split(s[n + 1..])
  }

  /** The reference tokens: none for the empty pointer, else one after each '/'. */
  function Tokens(pointer: string): Option<seq<string>> {
    if pointer == "" then Some([])
    else if pointer[0] != '/' then None
    else Some(Split(pointer[1..]))
  }

  /** "~1" stands for '/' and "~0" for '~'. */
  function Unescape(t: string): string {
    if t == [] then []
    else if t[0] == '~' && |t| > 1 && t[1] == '1' then ['/'] + Unescape(t[2..])
    else if t[0] == '~' && |t| > 1 && t[1] == '0' then ['~'] + Unescape(t[2..])
    else [t[0]] + Unescape(t[1..])
  }

  /** Object members by name, array elements by an index without leading zeros. */
  function Follow(doc: Json, tokens: seq<string>): Option<Json> {
    if tokens == [] then Some(doc)
    else
      var t := Unescape(tokens[0]);
      match doc
      case Array(elems) =>
        if IsCanonical(t) && Value(t) < |elems| then Follow(elems[Value(t)], tokens[1..]) else None
      case Object(members) =>
        (match Find(members, t)
         case Some(e) => Follow(e, tokens[1..])
         case None => None)
      case _ => None
  }

  /** Following a list of tokens goes through the value its front leads to. */
  lemma {:induction false} FollowAppend(doc: Json, a: seq<string>, b: seq<string>)
    ensures Follow(doc, a + b) == match Follow(doc, a)
                                  case Some(v) => Follow(v, b)
                                  case None => None
  {
    if a == [] {
      assert a + b == b;
    } else {
      assert (a + b)[1..] == a[1..] + b;
      var t := Unescape(a[0]);
      if doc.Array? && IsCanonical(t) && Value(t) < |doc.elems| {
        FollowAppend(doc.elems[Value(t)], a[1..], b);
      } else if doc.Object? && Find(doc.members, t).Some? {
        FollowAppend(Find(doc.members, t).value, a[1..], b);
      }
    }
  }

  function Resolve(doc: Json, pointer: string): Option<Json> {
    match Tokens(pointer)
    case Some(tokens) => Follow(doc, tokens)
    case None => None
  }

  function Join(tokens: seq<string>): string {
    if tokens == [] then "" else "/" + tokens[0] + Join(tokens[1..])
  }

  lemma {:induction false} JoinSnoc(tokens: seq<string>, t: string)
    ensures Join(tokens + [t]) == Join(tokens) + ("/" + t)
  {
    if tokens == [] {
      assert [t][1..] == [];
      assert "/" + t + "" == "" + ("/" + t);
    } else {
      assert (tokens + [t])[1..] == tokens[1..] + [t];
      JoinSnoc(tokens[1..], t);
    }
  }

  lemma {:induction false} UntilSlashOf(t: string, rest: string)
    requires '/' !in t && (rest == [] || rest[0] == '/')
    ensures UntilSlash(t + rest) == |t|
  {
    if t == [] {
      assert t + rest == rest;
    } else {
      assert (t + rest)[1..] == t[1..] + rest;
      UntilSlashOf(t[1..], rest);
    }
  }

  lemma {:induction false} SplitJoin(tokens: seq<string>)
    requires tokens != [] && forall i | 0 <= i < |tokens| :: '/' !in tokens[i]
    ensures Join(tokens) != "" && Join(tokens)[0] == '/' && Split(Join(tokens)[1..]) == tokens
  {
    var t, rest := tokens[0], Join(tokens[1..]);
    assert Join(tokens)[1..] == t + rest;
    if tokens[1..] == [] {
      assert rest == "" && t + rest == t;
      UntilSlashOf(t, "");
      assert t + "" == t;
    } else {
      SplitJoin(tokens[1..]);
      UntilSlashOf(t, rest);
      assert (t + rest)[..|t|] == t && (t + rest)[|t| + 1..] == rest[1..];
    }
  }

  /** Joining tokens free of '/' and reading the pointer gives the tokens back. */
  lemma TokensOfJoin(tokens: seq<string>)
    requires forall i | 0 <= i < |tokens| :: '/' !in tokens[i]
    ensures Tokens(Join(tokens)) == Some(tokens)
  {
    if tokens != [] { SplitJoin(tokens); }
  }

  lemma {:induction false} UnescapeNothing(t: string)
    requires '~' !in t
    ensures Unescape(t) == t
  {
    if t != [] {
      UnescapeNothing(t[1..]);
      assert [t[0]] + t[1..] == t;
    }
  }
}
