/** strconv.Quote on valid strings, and why its output can be read back in one way only. */
module Quoting {
  import opened Sequences
  import opened Values

  const HEX := "0123456789abcdef"

  function Hex(n: nat, width: nat): (s: string)
    ensures |s| == width
  {
    if width == 0 then "" else Hex(n / 16, width - 1) + [HEX[n % 16]]
  }

  function Power16(width: nat): nat {
    if width == 0 then 1 else 16 * Power16(width - 1)
  }

  lemma {:induction false} HexInjective(m: nat, n: nat, width: nat)
    requires m < Power16(width) && n < Power16(width) && Hex(m, width) == Hex(n, width)
    ensures m == n
  {
    if width > 0 {
      var a, b := Hex(m, width), Hex(n, width);
      assert a[..width - 1] == Hex(m / 16, width - 1) && b[..width - 1] == Hex(n / 16, width - 1);
      assert a[width - 1] == HEX[m % 16] && b[width - 1] == HEX[n % 16];
      HexInjective(m / 16, n / 16, width - 1);
    }
  }

  /** The character after the backslash; x, u and U announce hexadecimal digits. */
  function EscapeLetter(c: char): char {
    var n := c as int;
    if c == '"' || c == '\\' then c
    else if n == 7 then 'a'
    else if n == 8 then 'b'
    else if n == 12 then 'f'
    else if n == 10 then 'n'
    else if n == 13 then 'r'
    else if n == 9 then 't'
    else if n == 11 then 'v'
    else if n < 32 || n == 127 then 'x'
    else if n < 0x10000 then 'u'
    else 'U'
  }

  function EscapeWidth(letter: char): nat {
    if letter == 'x' then 2 else if letter == 'u' then 4 else if letter == 'U' then 8 else 0
  }

  predicate Escaped(isPrint: char -> bool, c: char) {
    c == '"' || c == '\\' || !isPrint(c)
  }

  function EscapeChar(isPrint: char -> bool, c: char): (s: string)
    ensures s != [] && s[0] != '"'
  {
    if !Escaped(isPrint, c) then [c]
    else ['\\', EscapeLetter(c)] + Hex(c as int, EscapeWidth(EscapeLetter(c)))
  }

  function EscapeAll(isPrint: char -> bool, s: string): string {
    if s == [] then [] else EscapeChar(isPrint, s[0]) + EscapeAll(isPrint, s[1..])
  }

  function Quote(isPrint: char -> bool, s: string): string {
    ['"'] + EscapeAll(isPrint, s) + ['"']
  }

  lemma {:induction false} EscapeNothing(isPrint: char -> bool, s: string)
    requires forall i | 0 <= i < |s| :: !Escaped(isPrint, s[i])
    ensures EscapeAll(isPrint, s) == s
  {
    if s != [] {
      EscapeNothing(isPrint, s[1..]);
      assert [s[0]] + s[1..] == s;
    }
  }

  lemma Powers()
    ensures Power16(2) == 0x100 && Power16(4) == 0x10000 && Power16(8) == 0x1_0000_0000
  {
    assert Power16(3) == 0x1000;
    assert Power16(5) == 0x100000 && Power16(6) == 0x1000000 && Power16(7) == 0x10000000;
  }

  lemma LetterDetermines(c: char, d: char)
    requires EscapeLetter(c) == EscapeLetter(d)
    requires Hex(c as int, EscapeWidth(EscapeLetter(c))) == Hex(d as int, EscapeWidth(EscapeLetter(d)))
    ensures c == d
  {
    var w := EscapeWidth(EscapeLetter(c));
    Powers();
    if w > 0 { HexInjective(c as int, d as int, w); }
  }

  /** No escape is a prefix of another one. */
  lemma EscapePrefixFree(isPrint: char -> bool, c: char, d: char, x: string, y: string)
    requires EscapeChar(isPrint, c) + x == EscapeChar(isPrint, d) + y
    ensures c == d && x == y
  {
    var a, b := EscapeChar(isPrint, c), EscapeChar(isPrint, d);
    assert (a + x)[0] == a[0] && (b + y)[0] == b[0];
    if Escaped(isPrint, c) {
      assert (a + x)[1] == EscapeLetter(c) && (b + y)[1] == EscapeLetter(d);
      assert a[2..] == (a + x)[2..|a|] == (b + y)[2..|a|] == b[2..];
      LetterDetermines(c, d);
    }
    assert x == (a + x)[|a|..] && y == (b + y)[|b|..];
  }

  lemma HeadOfEscaped(isPrint: char -> bool, s: string, x: string)
    ensures (EscapeAll(isPrint, s) + (['"'] + x))[0] == '"' <==> s == []
  {
    var l := EscapeAll(isPrint, s) + (['"'] + x);
    assert s == [] ==> l[0] == '"';
    assert s != [] ==> l[0] == EscapeChar(isPrint, s[0])[0];
  }

  lemma EscapeAllFirst(isPrint: char -> bool, s: string, x: string)
    requires s != []
    ensures EscapeAll(isPrint, s) + x == EscapeChar(isPrint, s[0]) + (EscapeAll(isPrint, s[1..]) + x)
  {}

  /** A quoted string ends at the first quote that is not part of an escape. */
  lemma {:induction false} EscapeUnique(isPrint: char -> bool, s: string, t: string, x: string, y: string)
    requires EscapeAll(isPrint, s) + (['"'] + x) == EscapeAll(isPrint, t) + (['"'] + y)
    ensures s == t && x == y
    decreases |s|
  {
    var l, r := EscapeAll(isPrint, s) + (['"'] + x), EscapeAll(isPrint, t) + (['"'] + y);
    HeadOfEscaped(isPrint, s, x);
    HeadOfEscaped(isPrint, t, y);
    if s == [] {
      assert l[1..] == x && r[1..] == y;
    } else {
      var x', y' := EscapeAll(isPrint, s[1..]) + (['"'] + x), EscapeAll(isPrint, t[1..]) + (['"'] + y);
      EscapeAllFirst(isPrint, s, ['"'] + x);
      EscapeAllFirst(isPrint, t, ['"'] + y);
      EscapePrefixFree(isPrint, s[0], t[0], x', y');
      EscapeUnique(isPrint, s[1..], t[1..], x, y);
      assert s == [s[0]] + s[1..] && t == [t[0]] + t[1..];
    }
  }

  /** Bracketed quotes, one after the other. */
  function QuoteAll(isPrint: char -> bool, names: seq<string>): string {
    if names == [] then "" else ("[" + Quote(isPrint, names[0]) + "]") + QuoteAll(isPrint, names[1..])
  }

  lemma Bracketed(escaped: string)
    ensures "[" + (['"'] + escaped + ['"']) + "]" == ['[', '"'] + (escaped + ['"', ']'])
  {}

  lemma Regroup(open: string, text: string, close: string, rest: string)
    ensures (open + (text + close)) + rest == open + (text + (close + rest))
  {}

  lemma QuoteAllFirst(isPrint: char -> bool, names: seq<string>)
    requires names != []
    ensures QuoteAll(isPrint, names)
         == ['[', '"'] + (EscapeAll(isPrint, names[0]) + (['"'] + ([']'] + QuoteAll(isPrint, names[1..]))))
  {
    var escaped, rest := EscapeAll(isPrint, names[0]), QuoteAll(isPrint, names[1..]);
    calc {
      QuoteAll(isPrint, names);
      ("[" + (['"'] + escaped + ['"']) + "]") + rest;
      { Bracketed(escaped); }
      (['[', '"'] + (escaped + ['"', ']'])) + rest;
      { Regroup(['[', '"'], escaped, ['"', ']'], rest); }
      ['[', '"'] + (escaped + (['"', ']'] + rest));
      { CloseFirst(rest); }
      ['[', '"'] + (escaped + (['"'] + ([']'] + rest)));
    }
  }

  lemma CloseFirst(rest: string)
    ensures ['"', ']'] + rest == ['"'] + ([']'] + rest)
  {}

  lemma DropTwo(p: string, x: string, y: string)
    requires |p| == 2 && p + x == p + y
    ensures x == y
  {
    assert x == (p + x)[2..] && y == (p + y)[2..];
  }

  lemma {:induction false} QuoteAllInjective(isPrint: char -> bool, a: seq<string>, b: seq<string>)
    requires QuoteAll(isPrint, a) == QuoteAll(isPrint, b)
    ensures a == b
  {
    if a == [] || b == [] {
      assert QuoteAll(isPrint, a) == [];
    } else {
      var p, q := QuoteAll(isPrint, a[1..]), QuoteAll(isPrint, b[1..]);
      var x, y := [']'] + p, [']'] + q;
      QuoteAllFirst(isPrint, a);
      QuoteAllFirst(isPrint, b);
      DropTwo(['[', '"'], EscapeAll(isPrint, a[0]) + (['"'] + x), EscapeAll(isPrint, b[0]) + (['"'] + y));
      EscapeUnique(isPrint, a[0], b[0], x, y);
      assert p == x[1..] && q == y[1..];
      QuoteAllInjective(isPrint, a[1..], b[1..]);
      assert a == [a[0]] + a[1..] && b == [b[0]] + b[1..];
    }
  }

  lemma {:induction false} QuoteAllAppend(isPrint: char -> bool, a: seq<string>, b: seq<string>)
    ensures QuoteAll(isPrint, a + b) == QuoteAll(isPrint, a) + QuoteAll(isPrint, b)
  {
    if a == [] {
      assert a + b == b;
    } else {
      assert (a + b)[1..] == a[1..] + b;
      QuoteAllAppend(isPrint, a[1..], b);
      Associate("[" + Quote(isPrint, a[0]) + "]", QuoteAll(isPrint, a[1..]), QuoteAll(isPrint, b));
    }
  }

  // ---- Unquoting ----

  function HexDigit(c: char): Option<nat> {
    if '0' <= c <= '9' then Some(c as int - '0' as int)
    else if 'a' <= c <= 'f' then Some(c as int - 'a' as int + 10)
    else None
  }

  function HexNumber(s: string): Option<nat> {
    if s == [] then Some(0)
    else
      match (HexNumber(s[..|s| - 1]), HexDigit(s[|s| - 1]))
      case (Some(n), Some(d)) => Some(n * 16 + d)
      case _ => None
  }

  function ToChar(n: nat): Option<char> {
    if n < 0xD800 || 0xE000 <= n < 0x11_0000 then Some(n as char) else None
  }

  /** The character that a letter after a backslash stands for by itself. */
  function Simple(letter: char): Option<char> {
    match letter
    case '"' => Some('"')
    case '\\' => Some('\\')
    case 'a' => ToChar(7)
    case 'b' => ToChar(8)
    case 'f' => ToChar(12)
    case 'n' => Some('\n')
    case 'r' => Some('\r')
    case 't' => Some('\t')
    case 'v' => ToChar(11)
    case _ => None
  }

  /** One character as a Go string literal spells it, and what follows. */
  function UnquoteOne(s: string): (r: Option<(char, string)>)
    ensures r.Some? ==> |r.value.1| < |s|
  {
    if s == [] || s[0] == '"' then None
    else if s[0] != '\\' then Some((s[0], s[1..]))
    else if |s| < 2 then None
    else
      var width := if s[1] == 'x' then 2 else if s[1] == 'u' then 4 else if s[1] == 'U' then 8 else 0;
      if width == 0 then
        (match Simple(s[1])
         case Some(c) => Some((c, s[2..]))
         case None => None)
      else if |s| < 2 + width then None
      else
        match HexNumber(s[2..2 + width])
        case None => None
        case Some(n) =>
          match ToChar(n)
          case Some(c) => Some((c, s[2 + width..]))
          case None => None
  }

  function UnquoteAll(s: string): Option<(string, string)>
    decreases |s|
  {
    if s != [] && s[0] == '"' then Some(([], s[1..]))
    else
      match UnquoteOne(s)
      case None => None
      case Some((c, rest)) =>
        match UnquoteAll(rest)
        case Some((text, after)) => Some(([c] + text, after))
        case None => None
  }

  /** A quoted string at the front, and what follows it. */
  function Unquote(s: string): Option<(string, string)> {
    if s == [] || s[0] != '"' then None else UnquoteAll(s[1..])
  }

  lemma {:induction false} HexReads(n: nat, width: nat)
    requires n < Power16(width)
    ensures HexNumber(Hex(n, width)) == Some(n)
  {
    if width > 0 {
      var s := Hex(n, width);
      assert s[..width - 1] == Hex(n / 16, width - 1) && s[width - 1] == HEX[n % 16];
      HexReads(n / 16, width - 1);
      HexDigitReads(n % 16);
    }
  }

  lemma HexDigitReads(d: nat)
    requires d < 16
    ensures HexDigit(HEX[d]) == Some(d)
  {}

  lemma EscapeReads(isPrint: char -> bool, c: char, rest: string)
    ensures UnquoteOne(EscapeChar(isPrint, c) + rest) == Some((c, rest))
  {
    var e := EscapeChar(isPrint, c);
    var s := e + rest;
    if Escaped(isPrint, c) {
      var letter := EscapeLetter(c);
      var width := EscapeWidth(letter);
      assert s[0] == '\\' && s[1] == letter && s[2..2 + width] == Hex(c as int, width) && s[2 + width..] == rest;
      Powers();
      if width > 0 {
        HexReads(c as int, width);
      } else {
        assert Simple(letter) == Some(c);
      }
    } else {
      assert s[0] == c && s[1..] == rest;
    }
  }

  lemma {:induction false} EscapesRead(isPrint: char -> bool, s: string, rest: string)
    ensures UnquoteAll(EscapeAll(isPrint, s) + (['"'] + rest)) == Some((s, rest))
  {
    var t := EscapeAll(isPrint, s) + (['"'] + rest);
    if s == [] {
      assert t == ['"'] + rest;
    } else {
      var more := EscapeAll(isPrint, s[1..]) + (['"'] + rest);
      EscapeAllFirst(isPrint, s, ['"'] + rest);
      HeadOfEscaped(isPrint, s, rest);
      EscapeReads(isPrint, s[0], more);
      EscapesRead(isPrint, s[1..], rest);
      assert [s[0]] + s[1..] == s;
    }
  }

  /** Round trip: a Go reader of string literals gets back what was quoted. */
  lemma UnquoteReads(isPrint: char -> bool, s: string, rest: string)
    ensures Unquote(Quote(isPrint, s) + rest) == Some((s, rest))
  {
    var q := Quote(isPrint, s) + rest;
    assert q[0] == '"' && q[1..] == EscapeAll(isPrint, s) + (['"'] + rest);
    EscapesRead(isPrint, s, rest);
  }
}
