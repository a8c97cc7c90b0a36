/** fmt.Sprintf for the verbs that path templates use. */
module Formats {
  import opened Values
  import opened Decimals
  import opened SelectKeys

  function Put(s: string, r: Option<string>): Option<string> {
    match r
    case Some(t) => Some(s + t)
    case None => None
  }

  /** The position of the first ']' or the length. */
  function UntilBracket(s: string): (n: nat)
    ensures n <= |s| && (n < |s| ==> s[n] == ']')
  {
    if s == [] || s[0] == ']' then 0 else 1 + UntilBracket(s[1..])
  }

  const BAD_VERB := "%!v(BADINDEX)"

  /** fmt's limit: a number is refused once the digits before its last one exceed a million. */
  const MAX_PREFIX := 1_000_000

  /** An explicit argument index, one-based in the format, if it is a number within range. */
  function ArgIndex(content: string, count: nat): Option<nat> {
    if content == [] || !AllDigits(content) || Value(content[..|content| - 1]) > MAX_PREFIX then None
    else if 1 <= Value(content) <= count then Some(Value(content) - 1)
    else None
  }

  function Extra(args: seq<Part>): string {
    ['%'] + ExtraTail(args)
  }

  function ExtraTail(args: seq<Part>): string {
    "!(EXTRA " + (ExtraArgs(args) + ")")
  }

  function ExtraArgs(args: seq<Part>): string {
    if args == [] then ""
    else (if args[0].IntPart? then "int=" else "string=") + Show(args[0])
         + (if |args| > 1 then ", " else "") + ExtraArgs(args[1..])
  }

  /** fmt.Sprintf for the verbs that templates use: %%, %v and %[n]v. None stands for a format
      with any other verb. Unused arguments are reported only if no verb had an index. */
  function Sprintf(format: string, args: seq<Part>, argNum: nat, reordered: bool): Option<string>
    decreases |format|
  {
    if format == [] then Some(if !reordered && argNum < |args| then Extra(args[argNum..]) else "")
    else if format[0] != '%' then Put([format[0]], Sprintf(format[1..], args, argNum, reordered))
    else if |format| < 2 then None
    else if format[1] == '%' then Put("%", Sprintf(format[2..], args, argNum, reordered))
    else if format[1] == 'v' then
      if argNum < |args| then Put(Show(args[argNum]), Sprintf(format[2..], args, argNum + 1, reordered))
      else Put("%!v(MISSING)", Sprintf(format[2..], args, argNum, reordered))
    else if format[1] == '[' then
      var n := UntilBracket(format[2..]);
      if n + 3 >= |format| || format[n + 3] != 'v' then None
      else
        var rest := format[n + 4..];
        match ArgIndex(format[2..n + 2], |args|)
        case Some(k) => Put(Show(args[k]), Sprintf(rest, args, k + 1, true))
        case None => Put(BAD_VERB, Sprintf(rest, args, argNum, true))
    else None
  }

  /** The largest argument count whose every index fmt still accepts. */
  const MAX_PARTS := 10_000_009

  lemma SprintfText(c: char, rest: string, args: seq<Part>, argNum: nat, reordered: bool)
    requires c != '%'
    ensures Sprintf([c] + rest, args, argNum, reordered) == Put([c], Sprintf(rest, args, argNum, reordered))
  {
    assert ([c] + rest)[1..] == rest;
  }

  lemma SprintfPercent(rest: string, args: seq<Part>, argNum: nat, reordered: bool)
    ensures Sprintf(['%', '%'] + rest, args, argNum, reordered) == Put("%", Sprintf(rest, args, argNum, reordered))
  {
    assert (['%', '%'] + rest)[2..] == rest;
  }

  lemma SprintfNext(rest: string, args: seq<Part>, argNum: nat, reordered: bool)
    requires argNum < |args|
    ensures Sprintf(['%', 'v'] + rest, args, argNum, reordered)
         == Put(Show(args[argNum]), Sprintf(rest, args, argNum + 1, reordered))
  {
    assert (['%', 'v'] + rest)[2..] == rest;
  }

  lemma PutPut(a: string, b: string, r: Option<string>)
    ensures Put(a, Put(b, r)) == Put(a + b, r)
  {
    if r.Some? { assert a + (b + r.value) == a + b + r.value; }
  }

  lemma SprintfTwoTexts(c: char, d: char, rest: string, args: seq<Part>, argNum: nat, reordered: bool)
    requires c != '%' && d != '%'
    ensures Sprintf([c] + ([d] + rest), args, argNum, reordered)
         == Put([c, d], Sprintf(rest, args, argNum, reordered))
  {
    SprintfText(d, rest, args, argNum, reordered);
    SprintfText(c, [d] + rest, args, argNum, reordered);
    PutPut([c], [d], Sprintf(rest, args, argNum, reordered));
    assert [c] + [d] == [c, d];
  }

  lemma SprintfOpen(rest: string, args: seq<Part>, argNum: nat)
    ensures Sprintf(['%', '%'] + (['['] + rest), args, argNum, false)
         == Put("%[", Sprintf(rest, args, argNum, false))
  {
    SprintfPercent(['['] + rest, args, argNum, false);
    SprintfText('[', rest, args, argNum, false);
    PutPut("%", "[", Sprintf(rest, args, argNum, false));
    assert "%" + "[" == "%[";
  }

  lemma SprintfClose(rest: string, args: seq<Part>, argNum: nat)
    requires argNum < |args|
    ensures Sprintf(['%', 'v'] + ([']'] + (['v'] + rest)), args, argNum, false)
         == Put(Show(args[argNum]) + "]v", Sprintf(rest, args, argNum + 1, false))
  {
    SprintfNext([']'] + (['v'] + rest), args, argNum, false);
    SprintfTwoTexts(']', 'v', rest, args, argNum + 1, false);
    PutPut(Show(args[argNum]), "]v", Sprintf(rest, args, argNum + 1, false));
  }

  lemma HoleText(rest: string)
    ensures "%%[%v]v" + rest == ['%', '%'] + (['['] + (['%', 'v'] + ([']'] + (['v'] + rest))))
  {
    assert "%%[%v]v" == ['%', '%', '[', '%', 'v', ']', 'v'];
  }

  /** "%%[%v]v" turns its argument into an indexed verb. */
  lemma SprintfHole(rest: string, args: seq<Part>, argNum: nat)
    requires argNum < |args|
    ensures Sprintf("%%[%v]v" + rest, args, argNum, false)
         == Put("%[" + Show(args[argNum]) + "]v", Sprintf(rest, args, argNum + 1, false))
  {
    var shown, r := Show(args[argNum]), Sprintf(rest, args, argNum + 1, false);
    HoleText(rest);
    SprintfOpen(['%', 'v'] + ([']'] + (['v'] + rest)), args, argNum);
    SprintfClose(rest, args, argNum);
    PutPut("%[", shown + "]v", r);
    assert "%[" + (shown + "]v") == "%[" + shown + "]v";
  }

  lemma {:induction false} UntilBracketOf(s: string, rest: string)
    requires forall i | 0 <= i < |s| :: s[i] != ']'
    ensures UntilBracket(s + ([']'] + rest)) == |s|
  {
    if s == [] {
      assert s + ([']'] + rest) == [']'] + rest;
    } else {
      assert (s + ([']'] + rest))[1..] == s[1..] + ([']'] + rest);
      UntilBracketOf(s[1..], rest);
    }
  }

  /** An indexed verb shows that argument, or the bad-index mark. */
  lemma SprintfIndex(index: string, rest: string, args: seq<Part>, argNum: nat, reordered: bool)
    requires forall i | 0 <= i < |index| :: index[i] != ']'
    ensures Sprintf("%[" + index + "]v" + rest, args, argNum, reordered)
         == match ArgIndex(index, |args|)
            case Some(k) => Put(Show(args[k]), Sprintf(rest, args, k + 1, true))
            case None => Put(BAD_VERB, Sprintf(rest, args, argNum, true))
  {
    var f := "%[" + index + "]v" + rest;
    var tail := [']'] + (['v'] + rest);
    assert f == ['%', '['] + (index + tail);
    assert f[2..] == index + tail;
    UntilBracketOf(index, ['v'] + rest);
    assert f[2..|index| + 2] == index && f[|index| + 3] == 'v' && f[|index| + 4..] == rest;
  }

  lemma ArgIndexOfDecimal(n: nat, count: nat)
    requires count <= MAX_PARTS
    ensures ArgIndex(Digits(n + 1), count) == if n < count then Some(n) else None
  {
    var s := Digits(n + 1);
    ValueOfDigits(n + 1);
    var p: nat := Value(s[..|s| - 1]);
    assert Value(s) == p * 10 + DigitValue(s[|s| - 1]);
  }
}
