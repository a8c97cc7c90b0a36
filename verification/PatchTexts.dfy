/** The text of a JSON patch as calculatePatch writes it (core/modrulestoreitem.go), and how a JSON
    reader takes it apart. */
module PatchTexts {
  import opened Values

  // ---- Writing ----

  datatype Entry = Entry(op: string, path: string, value: string)

  function EntryText(e: Entry): string {
    "{\"op\": \"" + e.op + "\", \"path\": \"" + e.path + "\", \"value\": " + e.value + "}"
  }

  /** Entries separated by commas. */
  function JoinEntries(es: seq<Entry>): string {
    if es == [] then ""
    else if |es| == 1 then EntryText(es[0])
    else JoinEntries(es[..|es| - 1]) + "," + EntryText(es[|es| - 1])
  }

  lemma JoinOneMore(es: seq<Entry>, e: Entry)
    ensures es == [] ==> JoinEntries(es + [e]) == EntryText(e)
    ensures es != [] ==> "[" + JoinEntries(es + [e]) == "[" + JoinEntries(es) + "," + EntryText(e)
  {
    assert (es + [e])[..|es|] == es;
  }

  // ---- Reading ----

  function SkipSpaces(s: string): (r: string)
    ensures |r| <= |s|
  {
    if s != [] && s[0] == ' ' then SkipSpaces(s[1..]) else s
  }

  /** A string without escapes, and what follows it. */
  function ReadString(s: string): (r: Option<(string, string)>)
    ensures r.Some? ==> |r.value.1| < |s|
  {
    if s == [] || s[0] != '"' then None else ReadCharacters(s[1..])
  }

  function ReadCharacters(s: string): (r: Option<(string, string)>)
    ensures r.Some? ==> |r.value.1| < |s|
  {
    if s == [] || s[0] == '\\' then None
    else if s[0] == '"' then Some(([], s[1..]))
    else
      match ReadCharacters(s[1..])
      case Some((text, rest)) => Some(([s[0]] + text, rest))
      case None => None
  }

  /** The length of a JSON value at the front: up to a comma, brace or bracket that belongs to none of
      its own brackets and strings. */
  function ValueLength(s: string, depth: nat, quoted: bool): (n: nat)
    ensures n <= |s|
    decreases |s|
  {
    if s == [] then 0
    else if quoted then
      if s[0] == '\\' && |s| > 1 then 2 + ValueLength(s[2..], depth, true)
      else 1 + ValueLength(s[1..], depth, s[0] != '"')
    else if s[0] == '"' then 1 + ValueLength(s[1..], depth, true)
    else if s[0] == '{' || s[0] == '[' then 1 + ValueLength(s[1..], depth + 1, false)
    else if s[0] == '}' || s[0] == ']' then
      if depth == 0 then 0 else 1 + ValueLength(s[1..], depth - 1, false)
    else if s[0] == ',' && depth == 0 then 0
    else 1 + ValueLength(s[1..], depth, false)
  }

  type Members = seq<(string, string)>

  /** The members of an object after its opening brace: each key with the text of its value. */
  function ReadMembers(s: string): (r: Option<(Members, string)>)
    ensures r.Some? ==> |r.value.1| < |s|
    decreases |s|
  {
    match ReadString(SkipSpaces(s))
    case None => None
    case Some((key, rest)) =>
      if rest == [] || rest[0] != ':' then None
      else
        var v := SkipSpaces(rest[1..]);
        var n := ValueLength(v, 0, false);
        if n >= |v| then None
        else if v[n] == '}' then Some(([(key, v[..n])], v[n + 1..]))
        else if v[n] != ',' then None
        else
          match ReadMembers(v[n + 1..])
          case Some((members, after)) => Some(([(key, v[..n])] + members, after))
          case None => None
  }

  function MemberText(members: Members, key: string): Option<string> {
    if members == [] then None
    else if members[0].0 == key then Some(members[0].1)
    else MemberText(members[1..], key)
  }

  function StringOf(text: Option<string>): Option<string> {
    match text
    case None => None
    case Some(t) =>
      match ReadString(t)
      case Some((value, rest)) => if rest == [] then Some(value) else None
      case None => None
  }

  /** An operation of a JSON patch: the strings behind "op" and "path", and the text behind "value". */
  datatype Operation = Operation(op: string, path: string, value: string)

  function ReadOperation(s: string): (r: Option<(Operation, string)>)
    ensures r.Some? ==> |r.value.1| < |s|
  {
    if s == [] || s[0] != '{' then None
    else
      match ReadMembers(s[1..])
      case None => None
      case Some((members, rest)) =>
        match (StringOf(MemberText(members, "op")), StringOf(MemberText(members, "path")), MemberText(members, "value"))
        case (Some(op), Some(path), Some(value)) => Some((Operation(op, path, value), rest))
        case _ => None
  }

  function ReadOperations(s: string): Option<seq<Operation>>
    decreases |s|
  {
    match ReadOperation(s)
    case None => None
    case Some((operation, rest)) =>
      if rest == "]" then Some([operation])
      else if rest == [] || rest[0] != ',' then None
      else
        match ReadOperations(rest[1..])
        case Some(more) => Some([operation] + more)
        case None => None
  }

  function ReadPatch(s: string): Option<seq<Operation>> {
    if s == "[]" then Some([])
    else if s == [] || s[0] != '[' then None
    else ReadOperations(s[1..])
  }

  // ---- Reading what was written ----

  /** A string that needs no escapes. */
  predicate Unescaped(s: string) { '"' !in s && '\\' !in s }

  /** All brackets and strings of the text are closed in it, and no comma or bracket is outside. */
  predicate Closed(s: string, depth: nat, quoted: bool)
    decreases |s|
  {
    if s == [] then depth == 0 && !quoted
    else if quoted then
      if s[0] == '\\' then |s| > 1 && Closed(s[2..], depth, true)
      else Closed(s[1..], depth, s[0] != '"')
    else if s[0] == '"' then Closed(s[1..], depth, true)
    else if s[0] == '{' || s[0] == '[' then Closed(s[1..], depth + 1, false)
    else if s[0] == '}' || s[0] == ']' then depth > 0 && Closed(s[1..], depth - 1, false)
    else (s[0] == ',' ==> depth > 0) && Closed(s[1..], depth, false)
  }

  /** The text of one JSON value, as far as its brackets and strings go. */
  predicate IsValueText(s: string) { s != [] && s[0] != ' ' && Closed(s, 0, false) }

  predicate Ends(rest: string) { rest != [] && (rest[0] == ',' || rest[0] == '}') }

  lemma {:induction false} ClosedLength(s: string, depth: nat, quoted: bool, rest: string)
    requires Closed(s, depth, quoted) && Ends(rest)
    ensures ValueLength(s + rest, depth, quoted) == |s|
    decreases |s|
  {
    if s == [] {
      assert s + rest == rest;
    } else {
      assert (s + rest)[0] == s[0] && (s + rest)[1..] == s[1..] + rest;
      if quoted && s[0] == '\\' {
        assert (s + rest)[2..] == s[2..] + rest;
        ClosedLength(s[2..], depth, true, rest);
      } else if quoted {
        ClosedLength(s[1..], depth, s[0] != '"', rest);
      } else if s[0] == '"' {
        ClosedLength(s[1..], depth, true, rest);
      } else if s[0] == '{' || s[0] == '[' {
        ClosedLength(s[1..], depth + 1, false, rest);
      } else if s[0] == '}' || s[0] == ']' {
        ClosedLength(s[1..], depth - 1, false, rest);
      } else {
        ClosedLength(s[1..], depth, false, rest);
      }
    }
  }

  lemma {:induction false} CharactersRead(s: string, rest: string)
    requires Unescaped(s)
    ensures ReadCharacters(s + (['"'] + rest)) == Some((s, rest))
  {
    if s == [] {
      assert s + (['"'] + rest) == ['"'] + rest;
    } else {
      assert (s + (['"'] + rest))[0] == s[0] && (s + (['"'] + rest))[1..] == s[1..] + (['"'] + rest);
      CharactersRead(s[1..], rest);
      assert [s[0]] + s[1..] == s;
    }
  }

  function Quoted(s: string): string { ['"'] + (s + ['"']) }

  lemma StringRead(s: string, rest: string)
    requires Unescaped(s)
    ensures ReadString(Quoted(s) + rest) == Some((s, rest))
  {
    var t := Quoted(s) + rest;
    assert t[0] == '"' && t[1..] == s + (['"'] + rest);
    CharactersRead(s, rest);
  }

  lemma {:induction false} CharactersClosed(s: string)
    requires Unescaped(s)
    ensures Closed(s + ['"'], 0, true)
  {
    if s == [] {
      assert s + ['"'] == ['"'] && ['"'][1..] == [];
    } else {
      assert (s + ['"'])[0] == s[0] && (s + ['"'])[1..] == s[1..] + ['"'];
      CharactersClosed(s[1..]);
    }
  }

  lemma QuotedIsValue(s: string)
    requires Unescaped(s)
    ensures IsValueText(Quoted(s)) && StringOf(Some(Quoted(s))) == Some(s)
  {
    CharactersClosed(s);
    assert Quoted(s)[1..] == s + ['"'];
    StringRead(s, "");
    assert Quoted(s) + "" == Quoted(s);
  }

  /** One member and what follows its value. */
  lemma MemberRead(key: string, value: string, rest: string)
    requires Unescaped(key) && IsValueText(value) && Ends(rest)
    ensures ReadMembers(Quoted(key) + (": " + (value + rest)))
         == if rest[0] == '}' then Some(([(key, value)], rest[1..]))
            else match ReadMembers(rest[1..])
                 case Some((members, after)) => Some(([(key, value)] + members, after))
                 case None => None
  {
    var tail := ": " + (value + rest);
    var s := Quoted(key) + tail;
    StringRead(key, tail);
    assert s[0] == '"' && SkipSpaces(s) == s;
    assert tail[0] == ':' && tail[1..] == [' '] + (value + rest);
    var v := value + rest;
    assert ([' '] + v)[1..] == v && v[0] == value[0] && SkipSpaces(v) == v;
    ClosedLength(value, 0, false, rest);
    assert v[|value|] == rest[0] && v[..|value|] == value && v[|value| + 1..] == rest[1..];
  }

  lemma SpaceSkipped(s: string)
    ensures ReadMembers([' '] + s) == ReadMembers(s)
  {
    assert ([' '] + s)[1..] == s;
  }

  function ValueMember(value: string, rest: string): string {
    Quoted("value") + (": " + (value + (['}'] + rest)))
  }

  function PathMember(path: string, rest: string): string {
    Quoted("path") + (": " + (Quoted(path) + ([','] + ([' '] + rest))))
  }

  function OpMember(op: string, rest: string): string {
    Quoted("op") + (": " + (Quoted(op) + ([','] + ([' '] + rest))))
  }

  lemma ValueShape(value: string, rest: string)
    ensures "\"value\": " + value + "}" + rest == ValueMember(value, rest)
  {
    assert "\"value\": " == Quoted("value") + ": ";
  }

  lemma PathShape(path: string, rest: string)
    ensures "\"path\": \"" + path + "\", " + rest == PathMember(path, rest)
  {
    assert "\"path\": \"" == Quoted("path") + (": " + ['"']);
    assert "\", " == ['"'] + ([','] + [' ']);
  }

  lemma OpShape(op: string, rest: string)
    ensures "\"op\": \"" + op + "\", " + rest == OpMember(op, rest)
  {
    assert "\"op\": \"" == Quoted("op") + (": " + ['"']);
    assert "\", " == ['"'] + ([','] + [' ']);
  }

  lemma Regrouped(op: string, path: string, value: string, rest: string)
    ensures "{\"op\": \"" + op + "\", \"path\": \"" + path + "\", \"value\": " + value + "}" + rest
         == ['{'] + ("\"op\": \"" + op + "\", "
                     + ("\"path\": \"" + path + "\", " + ("\"value\": " + value + "}" + rest)))
  {
    assert "{\"op\": \"" == ['{'] + "\"op\": \"";
    assert "\", \"path\": \"" == "\", " + "\"path\": \"";
    assert "\", \"value\": " == "\", " + "\"value\": ";
  }

  lemma EntryShape(e: Entry, rest: string)
    ensures EntryText(e) + rest == ['{'] + OpMember(e.op, PathMember(e.path, ValueMember(e.value, rest)))
  {
    Regrouped(e.op, e.path, e.value, rest);
    ValueShape(e.value, rest);
    PathShape(e.path, ValueMember(e.value, rest));
    OpShape(e.op, PathMember(e.path, ValueMember(e.value, rest)));
  }

  /** What the reader can take apart: an operation and a path that need no escapes, and the text of a
      JSON value. */
  predicate Readable(e: Entry) { Unescaped(e.op) && Unescaped(e.path) && IsValueText(e.value) }

  lemma PathAndValueRead(e: Entry, rest: string)
    requires Readable(e)
    ensures ReadMembers(PathMember(e.path, ValueMember(e.value, rest)))
         == Some(([("path", Quoted(e.path)), ("value", e.value)], rest))
  {
    var last := ValueMember(e.value, rest);
    MemberRead("value", e.value, ['}'] + rest);
    assert (['}'] + rest)[1..] == rest;
    QuotedIsValue(e.path);
    MemberRead("path", Quoted(e.path), [','] + ([' '] + last));
    assert ([','] + ([' '] + last))[1..] == [' '] + last;
    SpaceSkipped(last);
    assert [("path", Quoted(e.path))] + [("value", e.value)] == [("path", Quoted(e.path)), ("value", e.value)];
  }

  lemma MembersRead(e: Entry, rest: string)
    requires Readable(e)
    ensures ReadMembers(OpMember(e.op, PathMember(e.path, ValueMember(e.value, rest))))
         == Some(([("op", Quoted(e.op)), ("path", Quoted(e.path)), ("value", e.value)], rest))
  {
    var others := PathMember(e.path, ValueMember(e.value, rest));
    PathAndValueRead(e, rest);
    QuotedIsValue(e.op);
    MemberRead("op", Quoted(e.op), [','] + ([' '] + others));
    assert ([','] + ([' '] + others))[1..] == [' '] + others;
    SpaceSkipped(others);
    assert [("op", Quoted(e.op))] + [("path", Quoted(e.path)), ("value", e.value)]
        == [("op", Quoted(e.op)), ("path", Quoted(e.path)), ("value", e.value)];
  }

  lemma ThreeMembers(a: string, b: string, c: string)
    ensures var members := [("op", a), ("path", b), ("value", c)];
            MemberText(members, "op") == Some(a) && MemberText(members, "path") == Some(b)
            && MemberText(members, "value") == Some(c)
  {
    var members := [("op", a), ("path", b), ("value", c)];
    assert members[1..] == [("path", b), ("value", c)] && members[1..][1..] == [("value", c)];
    assert MemberText(members[1..], "path") == Some(b);
    assert MemberText(members[1..][1..], "value") == Some(c);
    assert "op" != "path" && "path" != "value" && "op" != "value";
  }

  lemma EntryRead(e: Entry, rest: string)
    requires Readable(e)
    ensures ReadOperation(EntryText(e) + rest) == Some((Operation(e.op, e.path, e.value), rest))
  {
    var inner := OpMember(e.op, PathMember(e.path, ValueMember(e.value, rest)));
    EntryShape(e, rest);
    assert (['{'] + inner)[1..] == inner;
    MembersRead(e, rest);
    ThreeMembers(Quoted(e.op), Quoted(e.path), e.value);
    QuotedIsValue(e.op);
    QuotedIsValue(e.path);
  }

  function OperationsOf(es: seq<Entry>): (r: seq<Operation>)
    ensures |r| == |es| && forall i | 0 <= i < |r| :: r[i] == Operation(es[i].op, es[i].path, es[i].value)
  {
    seq(|es|, i requires 0 <= i < |es| => Operation(es[i].op, es[i].path, es[i].value))
  }

  /** Front first: an entry, then a comma and the others. */
  lemma {:induction false} JoinFirst(es: seq<Entry>)
    requires es != []
    ensures JoinEntries(es)
         == EntryText(es[0]) + if |es| == 1 then "" else "," + JoinEntries(es[1..])
    decreases |es|
  {
    var first := EntryText(es[0]);
    if |es| == 1 {
      assert first + "" == first;
    } else {
      var init, last := es[..|es| - 1], es[|es| - 1];
      JoinFirst(init);
      assert es[1..][..|es[1..]| - 1] == init[1..];
      if |es| == 2 {
        assert init[1..] == [];
        assert first + "" + "," + EntryText(last) == first + ("," + EntryText(last));
      } else {
        var middle := JoinEntries(init[1..]);
        assert first + ("," + middle) + "," + EntryText(last) == first + ("," + (middle + "," + EntryText(last)));
      }
    }
  }

  function OperationOf(e: Entry): Operation { Operation(e.op, e.path, e.value) }

  lemma LastRead(e: Entry)
    requires Readable(e)
    ensures ReadOperations(EntryText(e) + "]") == Some([OperationOf(e)])
  {
    EntryRead(e, "]");
  }

  lemma FirstRead(e: Entry, more: string)
    requires Readable(e)
    ensures ReadOperations(EntryText(e) + ("," + more))
         == match ReadOperations(more)
            case Some(operations) => Some([OperationOf(e)] + operations)
            case None => None
  {
    EntryRead(e, "," + more);
    assert ("," + more)[1..] == more && ("," + more)[0] == ',' && "," + more != "]";
  }

  lemma JoinTail(first: string, others: string)
    ensures first + ("," + others) + "]" == first + ("," + (others + "]"))
  {}

  lemma OperationsFirst(es: seq<Entry>)
    requires es != []
    ensures OperationsOf(es) == [OperationOf(es[0])] + OperationsOf(es[1..])
  {}

  lemma JoinClosed(es: seq<Entry>)
    requires es != []
    ensures |es| == 1 ==> JoinEntries(es) + "]" == EntryText(es[0]) + "]"
    ensures |es| > 1 ==> JoinEntries(es) + "]" == EntryText(es[0]) + ("," + (JoinEntries(es[1..]) + "]"))
  {
    JoinFirst(es);
    if |es| == 1 {
      assert EntryText(es[0]) + "" == EntryText(es[0]);
    } else {
      JoinTail(EntryText(es[0]), JoinEntries(es[1..]));
    }
  }

  predicate AllReadable(es: seq<Entry>) { forall i | 0 <= i < |es| :: Readable(es[i]) }

  lemma {:induction false} EntriesRead(es: seq<Entry>)
    requires es != [] && AllReadable(es)
    ensures ReadOperations(JoinEntries(es) + "]") == Some(OperationsOf(es))
    decreases |es|
  {
    JoinClosed(es);
    OperationsFirst(es);
    assert Readable(es[0]);
    if |es| == 1 {
      LastRead(es[0]);
      assert OperationsOf(es[1..]) == [] && OperationsOf(es) == [OperationOf(es[0])];
    } else {
      var rest := es[1..];
      var more := JoinEntries(rest) + "]";
      assert AllReadable(rest);
      EntriesRead(rest);
      FirstRead(es[0], more);
    }
  }

  lemma JoinNotEmpty(es: seq<Entry>)
    requires es != []
    ensures JoinEntries(es) != "" && JoinEntries(es)[0] == '{'
  {
    JoinFirst(es);
    assert EntryText(es[0])[0] == '{';
  }

  lemma Unwrapped(inner: string)
    requires inner != "" && inner[0] == '{'
    ensures ReadPatch("[" + inner + "]") == ReadOperations(inner + "]")
  {
    var s := "[" + inner + "]";
    assert s[0] == '[' && s[1] == '{' && s[1..] == inner + "]";
  }

  /** Round trip: reading a patch text gives back, operation by operation, what was written. */
  lemma PatchReads(es: seq<Entry>)
    requires AllReadable(es)
    ensures ReadPatch("[" + JoinEntries(es) + "]") == Some(OperationsOf(es))
  {
    if es == [] {
      assert "[" + JoinEntries(es) + "]" == "[]";
      assert OperationsOf(es) == [];
    } else {
      JoinNotEmpty(es);
      Unwrapped(JoinEntries(es));
      EntriesRead(es);
    }
  }
}
