/** JSON Pointer against the tree of a document: a path of keys, escaped and joined, resolves to
    what the path leads to. */
module PointerLaws {
  import opened Sequences
  import opened Values
  import opened Decimals
  import opened Documents
  import opened Descent
  import opened Exactness
  import opened Pointers

  /** Section 3 of RFC 6901: '~' is written "~0" and '/' is written "~1". */
  function Escape(t: string): string {
    if t == [] then [] else EscapeChar(t[0]) + Escape(t[1..])
  }

  function EscapeChar(c: char): string {
    if c == '~' then ['~', '0'] else if c == '/' then ['~', '1'] else [c]
  }

  function EscapeAll(path: seq<string>): (r: seq<string>)
    ensures |r| == |path| && forall i | 0 <= i < |r| :: r[i] == Escape(path[i])
  {
    seq(|path|, i requires 0 <= i < |path| => Escape(path[i]))
  }

  lemma UnescapeChar(c: char, rest: string)
    ensures Unescape(EscapeChar(c) + rest) == [c] + Unescape(rest)
  {
    var s := EscapeChar(c) + rest;
    assert s[|EscapeChar(c)|..] == rest;
  }

  lemma {:induction false} UnescapeEscape(t: string)
    ensures Unescape(Escape(t)) == t
  {
    if t != [] {
      UnescapeChar(t[0], Escape(t[1..]));
      UnescapeEscape(t[1..]);
      SplitFirst(t);
    }
  }

  lemma {:induction false} EscapeHasNoSlash(t: string)
    ensures '/' !in Escape(t)
  {
    if t != [] { EscapeHasNoSlash(t[1..]); }
  }

  /** One token leads to the child of its key. */
  lemma FollowKey(v: Json, key: string, rest: seq<string>)
    requires IsGoValue(v)
    ensures Follow(v, [Escape(key)] + rest) == match Find(Children(v), key)
                                               case Some(kid) => Follow(kid, rest)
                                               case None => None
  {
    UnescapeEscape(key);
    assert ([Escape(key)] + rest)[1..] == rest;
    if v.Array? { FindElement(v, key); }
  }

  lemma {:induction false} FollowIsAt(v: Json, path: seq<string>)
    requires IsGoValue(v)
    ensures Follow(v, EscapeAll(path)) == At(v, path)
    decreases |path|
  {
    if path != [] {
      assert EscapeAll(path) == [Escape(path[0])] + EscapeAll(path[1..]);
      FollowKey(v, path[0], EscapeAll(path[1..]));
      match Find(Children(v), path[0])
      case Some(kid) =>
        var i :| 0 <= i < |Children(v)| && Children(v)[i] == Member(path[0], kid);
        FollowIsAt(kid, path[1..]);
      case None =>
    }
  }

  /** Whatever the keys, escaping and joining them gives a pointer to what they lead to. */
  lemma ResolveIsAt(v: Json, path: seq<string>)
    requires IsGoValue(v)
    ensures Resolve(v, Join(EscapeAll(path))) == At(v, path)
  {
    forall i | 0 <= i < |path| ensures '/' !in EscapeAll(path)[i] { EscapeHasNoSlash(path[i]); }
    TokensOfJoin(EscapeAll(path));
    FollowIsAt(v, path);
  }
}
