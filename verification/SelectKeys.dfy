/** Reading a printed select key back into key parts (core/modrulestoreitem.go). */
module SelectKeys {
  import opened Values
  import opened Decimals
  import opened Selectors
  import opened Soundness
  import opened Quoting
  import opened Placeholders

  /** A key part after type detection: a Go int or a string. */
  datatype Part = IntPart(n: Int64) | StrPart(s: string)

  /** The class [^\[\]"] of the select key expression. */
  predicate IsSegmentChar(c: char) { c != '[' && c != ']' && c != '"' }

  /** The longest run of segment characters at the front. */
  function RunLength(s: string): (n: nat)
    ensures n <= |s| && forall i | 0 <= i < n :: IsSegmentChar(s[i])
    ensures n < |s| ==> !IsSegmentChar(s[n])
  {
    if s == [] || !IsSegmentChar(s[0]) then 0
    else
      var n := RunLength(s[1..]);
      assert forall i | 1 <= i < n + 1 :: s[i] == s[1..][i - 1];
      n + 1
  }

  /** The length of a match of \["([^\[\]"]+)"\] at the front. The run cannot give characters
      back: what follows it is a quote, which the class excludes. */
  function MatchHere(s: string): (n: nat)
    ensures n > 0 ==> 5 <= n <= |s|
  {
    if |s| < 5 || s[0] != '[' || s[1] != '"' then 0
    else
      var n := RunLength(s[2..]);
      if n > 0 && 2 + n + 2 <= |s| && s[2 + n] == '"' && s[3 + n] == ']' then n + 4 else 0
  }

  /** FindAllStringSubmatch: leftmost matches that do not overlap; the captured group of each. */
  function Captures(s: string): seq<string>
    decreases |s|
  {
    if s == [] then []
    else
      var n := MatchHere(s);
      if n > 0 then [s[2..n - 2]] + Captures(s[n..]) else Captures(s[1..])
  }

  /** Type detection: what Atoi accepts becomes an int. */
  function ToPart(s: string): Part {
    match Atoi(s)
    case Some(n) => IntPart(n)
    case None => StrPart(s)
  }

  function ToParts(names: seq<string>): (parts: seq<Part>)
    ensures |parts| == |names| && forall i | 0 <= i < |parts| :: parts[i] == ToPart(names[i])
  {
    seq(|names|, i requires 0 <= i < |names| => ToPart(names[i]))
  }

  /** keyPartsFromSelectKey. */
  function KeyParts(selectKey: string): seq<Part> {
    ToParts(Captures(selectKey))
  }

  /** extractMatches with type detection: one part per match, in order. */
  method ExtractKeyParts(selectKey: string) returns (parts: seq<Part>)
    ensures parts == KeyParts(selectKey)
  {
    parts := [];
    var matches := Captures(selectKey);
    for i := 0 to |matches|
      invariant |parts| == i && forall j | 0 <= j < i :: parts[j] == ToPart(matches[j])
    {
      var num := Atoi(matches[i]);
      if num.Some? {
        parts := parts + [IntPart(num.value)];
      } else {
        parts := parts + [StrPart(matches[i])];
      }
    }
  }

  /** How %v prints a part. */
  function Show(p: Part): string {
    match p
    case IntPart(n) => Itoa(n)
    case StrPart(s) => s
  }

  // ---- Round trip ----

  /** Keys the select key syntax can carry. */
  predicate Carried(isPrint: char -> bool, name: string) {
    name != [] && forall i | 0 <= i < |name| :: IsSegmentChar(name[i]) && !Escaped(isPrint, name[i])
  }

  lemma {:induction false} RunOf(name: string, rest: string)
    requires forall i | 0 <= i < |name| :: IsSegmentChar(name[i])
    requires rest == [] || !IsSegmentChar(rest[0])
    ensures RunLength(name + rest) == |name|
  {
    if name == [] {
      assert name + rest == rest;
    } else {
      assert (name + rest)[1..] == name[1..] + rest;
      RunOf(name[1..], rest);
    }
  }

  lemma MatchSegment(name: string, rest: string)
    requires name != [] && forall i | 0 <= i < |name| :: IsSegmentChar(name[i])
    ensures var s := ['[', '"'] + (name + (['"', ']'] + rest));
            MatchHere(s) == |name| + 4 && s[2..|name| + 2] == name && s[|name| + 4..] == rest
  {
    var tail := ['"', ']'] + rest;
    var s := ['[', '"'] + (name + tail);
    assert s[2..] == name + tail;
    RunOf(name, tail);
    assert s[|name| + 2] == tail[0] && s[|name| + 3] == tail[1];
  }

  lemma CaptureFirst(isPrint: char -> bool, name: string, rest: string)
    requires Carried(isPrint, name)
    ensures Captures("[" + Quote(isPrint, name) + "]" + rest) == [name] + Captures(rest)
  {
    EscapeNothing(isPrint, name);
    assert "[" + Quote(isPrint, name) + "]" + rest == ['[', '"'] + (name + (['"', ']'] + rest));
    MatchSegment(name, rest);
  }

  lemma {:induction false} CaptureAll(isPrint: char -> bool, names: seq<string>)
    requires forall i | 0 <= i < |names| :: Carried(isPrint, names[i])
    ensures Captures(QuoteAll(isPrint, names)) == names
  {
    if names != [] {
      CaptureFirst(isPrint, names[0], QuoteAll(isPrint, names[1..]));
      CaptureAll(isPrint, names[1..]);
      assert names == [names[0]] + names[1..];
    }
  }

  /** Round trip: scanning a printed key list gives its flattened names, integers as numbers. */
  lemma SelectKeyRoundTrip(isPrint: char -> bool, keys: seq<Key>)
    requires forall i | 0 <= i < |Flatten(keys)| :: Carried(isPrint, Flatten(keys)[i])
    ensures KeyParts(SelectKey(isPrint, keys)) == ToParts(Flatten(keys))
  {
    var s := SelectKey(isPrint, keys);
    QuoteWildcardsFlattens(isPrint, keys);
    CaptureAll(isPrint, Flatten(keys));
    assert s[0] == '$' && s[1..] == QuoteAll(isPrint, Flatten(keys));
    assert MatchHere(s) == 0;
  }

  /** Names as a select key shows them when nothing needs an escape. */
  function Spelled(names: seq<string>): string {
    if names == [] then "" else ("[\"" + names[0] + "\"]") + Spelled(names[1..])
  }

  predicate PlainName(isPrint: char -> bool, name: string) {
    name != [] && forall c | c in name :: c != '[' && c != ']' && c != '"' && c != '\\' && isPrint(c)
  }

  lemma {:induction false} QuoteAllSpelled(isPrint: char -> bool, names: seq<string>)
    requires forall i | 0 <= i < |names| :: Carried(isPrint, names[i])
    ensures QuoteAll(isPrint, names) == Spelled(names)
  {
    if names != [] {
      EscapeNothing(isPrint, names[0]);
      QuoteAllSpelled(isPrint, names[1..]);
      assert "[" + Quote(isPrint, names[0]) + "]" == "[\"" + names[0] + "\"]";
    }
  }

  lemma PlainIsCarried(isPrint: char -> bool, name: string)
    requires PlainName(isPrint, name)
    ensures Carried(isPrint, name)
  {
    forall i | 0 <= i < |name| ensures IsSegmentChar(name[i]) && !Escaped(isPrint, name[i]) {
      assert name[i] in name;
    }
  }

  /** The text of a select key, such as $["a"]["b"], and what is read from it. */
  lemma SelectKeySpelled(isPrint: char -> bool, keys: seq<Key>)
    requires forall i | 0 <= i < |Flatten(keys)| :: PlainName(isPrint, Flatten(keys)[i])
    ensures SelectKey(isPrint, keys) == "$" + Spelled(Flatten(keys))
    ensures KeyParts("$" + Spelled(Flatten(keys))) == ToParts(Flatten(keys))
  {
    var names := Flatten(keys);
    forall i | 0 <= i < |names| ensures Carried(isPrint, names[i]) { PlainIsCarried(isPrint, names[i]); }
    QuoteWildcardsFlattens(isPrint, keys);
    QuoteAllSpelled(isPrint, names);
    SelectKeyRoundTrip(isPrint, keys);
  }

  /** A part prints as the name it came from exactly when the name is no integer that fits, or is
      written the way integers are printed: no plus sign, no leading zeros, no "-0". */
  lemma PartShowsName(name: string)
    ensures Show(ToPart(name)) == name
            <==> Atoi(name).None? || IsCanonical(name)
                 || (name[0] == '-' && IsCanonical(name[1..]) && name != "-0")
  {
    if Atoi(name).Some? { ItoaOfAtoi(name); }
  }

  /** The keys for which printing, scanning and printing again changes the key: "007" becomes 7. */
  lemma LeadingZerosAreLost()
    ensures Show(ToPart("007")) == "7"
  {
    assert Value("00") == 0 && Value("007") == 7 by {
      assert "007"[..2] == "00" && "00"[..1] == "0" && "0"[..0] == "";
    }
    assert Atoi("007") == Some(7);
  }
}
