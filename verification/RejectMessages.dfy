/** The messages of rejecting rules (core/modrulestore.go), and how they are read. */
module RejectMessages {
  import opened Values
  import opened Rules

  /** The message of a rejecting rule: a template that is absent or fails leaves just the name. */
  function Message(item: Item, namespace: string, jsonv: Json): string {
    var name := item.rule.namespace + "/" + item.rule.name;
    match item.compiled.rejectMessage
    case None => name
    case Some(template) =>
      match template(namespace, jsonv)
      case Ok(text) => name + ": \"" + text + "\""
      case Err => name
  }

  function Messages(items: seq<Item>, namespace: string, jsonv: Json): (ms: seq<string>)
    ensures |ms| == |items| && forall i | 0 <= i < |ms| :: ms[i] == Message(items[i], namespace, jsonv)
  {
    seq(|items|, i requires 0 <= i < |items| => Message(items[i], namespace, jsonv))
  }

  lemma MessagesAppend(a: seq<Item>, b: seq<Item>, namespace: string, jsonv: Json)
    ensures Messages(a + b, namespace, jsonv) == Messages(a, namespace, jsonv) + Messages(b, namespace, jsonv)
  {}

  /** The loop over the matching reject rules of one tier. */
  method AppendMessages(messages: seq<string>, items: seq<Item>, namespace: string, jsonv: Json)
    returns (r: seq<string>)
    ensures r == messages + Messages(items, namespace, jsonv)
  {
    r := messages;
    for i := 0 to |items|
      invariant r == messages + Messages(items[..i], namespace, jsonv)
    {
      var text := items[i].rule.namespace + "/" + items[i].rule.name;
      if items[i].compiled.rejectMessage.Some? {
        var rendered := items[i].compiled.rejectMessage.value(namespace, jsonv);
        if rendered.Ok? {
          text := text + ": \"" + rendered.value + "\"";
        }
      }
      assert items[..i + 1] == items[..i] + [items[i]];
      MessagesAppend(items[..i], [items[i]], namespace, jsonv);
      assert Messages([items[i]], namespace, jsonv) == [text];
      r := r + [text];
    }
    assert items[..|items|] == items;
  }

  // ---- Reading a message ----

  /** Who rejects, and the text of the rule's message if there is one. */
  datatype Rejection = Rejection(namespace: string, name: string, text: Option<string>)

  function Until(s: string, c: char): (n: nat)
    ensures n <= |s| && c !in s[..n] && (n < |s| ==> s[n] == c)
  {
    if s == [] || s[0] == c then 0
    else
      var n := Until(s[1..], c);
      assert s[..n + 1] == [s[0]] + s[1..][..n];
      n + 1
  }

  /** The namespace up to the slash, the name up to a colon, and a text in quotes after it. */
  function ReadMessage(m: string): Option<Rejection> {
    var slash := Until(m, '/');
    if slash == |m| then None else ReadName(m[..slash], m[slash + 1..])
  }

  function ReadName(namespace: string, rest: string): Option<Rejection> {
    var colon := Until(rest, ':');
    if colon == |rest| then Some(Rejection(namespace, rest, None))
    else
      var tail := rest[colon..];
      if |tail| >= 4 && tail[..3] == ": \"" && tail[|tail| - 1] == '"'
      then Some(Rejection(namespace, rest[..colon], Some(tail[3..|tail| - 1])))
      else None
  }

  lemma {:induction false} UntilOf(a: string, rest: string, c: char)
    requires c !in a && (rest != [] ==> rest[0] == c)
    ensures Until(a + rest, c) == |a|
  {
    if a == [] {
      assert a + rest == rest;
    } else {
      assert (a + rest)[0] == a[0] && (a + rest)[1..] == a[1..] + rest;
      UntilOf(a[1..], rest, c);
    }
  }

  lemma NameReads(namespace: string, rest: string)
    requires '/' !in namespace
    ensures ReadMessage(namespace + ("/" + rest)) == ReadName(namespace, rest)
  {
    var m := namespace + ("/" + rest);
    UntilOf(namespace, "/" + rest, '/');
    assert m[..|namespace|] == namespace && m[|namespace| + 1..] == rest;
  }

  lemma TextReads(name: string, text: string)
    requires ':' !in name
    ensures var rest := name + (": \"" + text + "\"");
            Until(rest, ':') == |name| && rest[..|name|] == name && rest[|name|..] == ": \"" + text + "\""
  {
    UntilOf(name, ": \"" + text + "\"", ':');
  }

  lemma TailReads(text: string)
    ensures var tail := ": \"" + text + "\"";
            |tail| >= 4 && tail[..3] == ": \"" && tail[|tail| - 1] == '"' && tail[3..|tail| - 1] == text
  {}

  /** Round trip: a message names its rule, and quotes the rule's text exactly if the rule has a template
      and the template does not fail. */
  lemma MessageReads(item: Item, namespace: string, jsonv: Json)
    requires '/' !in item.rule.namespace && ':' !in item.rule.name
    ensures var read := ReadMessage(Message(item, namespace, jsonv));
            && read.Some? && read.value.namespace == item.rule.namespace && read.value.name == item.rule.name
            && (item.compiled.rejectMessage.None? ==> read.value.text == None)
            && (item.compiled.rejectMessage.Some? ==>
                  var rendered := item.compiled.rejectMessage.value(namespace, jsonv);
                  read.value.text == if rendered.Ok? then Some(rendered.value) else None)
  {
    var rule := item.rule;
    var full := rule.namespace + "/" + rule.name;
    assert full == rule.namespace + ("/" + rule.name);
    UntilOf(rule.name, "", ':');
    assert rule.name + "" == rule.name;
    NameReads(rule.namespace, rule.name);
    if item.compiled.rejectMessage.Some? && item.compiled.rejectMessage.value(namespace, jsonv).Ok? {
      var text := item.compiled.rejectMessage.value(namespace, jsonv).value;
      var rest := rule.name + (": \"" + text + "\"");
      assert full + ": \"" + text + "\"" == rule.namespace + ("/" + rest);
      NameReads(rule.namespace, rest);
      TextReads(rule.name, text);
      TailReads(text);
    }
  }
}
