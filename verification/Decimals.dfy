/** Decimal numerals: strconv.Itoa and strconv.Atoi on Go's 64-bit int. */
module Decimals {
  import opened Values

  const MAX_INT64: int := 0x7FFF_FFFF_FFFF_FFFF
  const MIN_INT64: int := -0x8000_0000_0000_0000

  /** A Go int on a 64-bit platform. */
  type Int64 = i: int | MIN_INT64 <= i <= MAX_INT64

  /** Two's complement wrap-around of a sum of two Go ints. */
  function Wrap(i: int): Int64
    requires 2 * MIN_INT64 <= i <= 2 * MAX_INT64
  {
    if i > MAX_INT64 then i - 0x1_0000_0000_0000_0000
    else if i < MIN_INT64 then i + 0x1_0000_0000_0000_0000
    else i
  }

  predicate IsDigit(c: char) { '0' <= c <= '9' }

  predicate AllDigits(s: string) { forall i | 0 <= i < |s| :: IsDigit(s[i]) }

  /** The form Itoa prints for a non-negative int. */
  predicate IsCanonical(s: string) {
    s != [] && AllDigits(s) && (s[0] == '0' ==> |s| == 1)
  }

  function DigitValue(c: char): (d: nat)
    requires IsDigit(c)
    ensures d < 10 && "0123456789"[d] == c
  {
    assert c as int == '0' as int + (c as int - '0' as int);
    c as int - '0' as int
  }

  function Value(s: string): nat
    requires AllDigits(s)
  {
    if s == [] then 0 else Value(s[..|s| - 1]) * 10 + DigitValue(s[|s| - 1])
  }

  function Digits(n: nat): (s: string)
    ensures IsCanonical(s)
    ensures n > 0 ==> s[0] != '0'
  {
    if n < 10 then ["0123456789"[n]] else Digits(n / 10) + ["0123456789"[n % 10]]
  }

  lemma {:induction false} ValueOfDigits(n: nat)
    ensures Value(Digits(n)) == n
  {
    var s := Digits(n);
    assert DigitValue(s[|s| - 1]) == n % 10;
    if n < 10 {
      assert s[..|s| - 1] == [];
    } else {
      ValueOfDigits(n / 10);
      assert s[..|s| - 1] == Digits(n / 10);
    }
  }

  lemma DigitsInjective(m: nat, n: nat)
    requires Digits(m) == Digits(n)
    ensures m == n
  {
    ValueOfDigits(m);
    ValueOfDigits(n);
  }

  lemma DigitsStep(n: nat, d: nat)
    requires d < 10 && n > 0
    ensures Digits(n * 10 + d) == Digits(n) + ["0123456789"[d]]
  {}

  lemma ValueSnoc(p: string, c: char)
    requires AllDigits(p) && IsDigit(c)
    ensures Value(p + [c]) == Value(p) * 10 + DigitValue(c)
  {
    assert (p + [c])[..|p|] == p;
  }

  lemma OneDigit(c: char)
    requires IsDigit(c)
    ensures Value([c]) == DigitValue(c) && Digits(DigitValue(c)) == [c]
  {
    assert [c][..0] == [];
  }

  lemma DigitsOfSnoc(p: string, c: char)
    requires AllDigits(p) && IsDigit(c) && Value(p) > 0 && Digits(Value(p)) == p
    ensures Digits(Value(p + [c])) == p + [c] && Value(p + [c]) > 0
  {
    ValueSnoc(p, c);
    DigitsStep(Value(p), DigitValue(c));
  }

  lemma {:induction false} DigitsOfValue(s: string)
    requires IsCanonical(s)
    ensures Digits(Value(s)) == s
    ensures s[0] != '0' ==> Value(s) > 0
  {
    if |s| == 1 {
      assert s == [s[0]];
      OneDigit(s[0]);
    } else {
      var p, c := s[..|s| - 1], s[|s| - 1];
      assert s == p + [c];
      DigitsOfValue(p);
      DigitsOfSnoc(p, c);
    }
  }

  function Itoa(n: int): string {
    if n < 0 then "-" + Digits(-n) else Digits(n)
  }

  /** Atoi: an optional sign, at least one digit, and a value that fits. */
  function Atoi(s: string): Option<Int64> {
    var body := if s != [] && s[0] in "+-" then s[1..] else s;
    if body == [] || !AllDigits(body) then None
    else Fit(if s[0] == '-' then 0 - Value(body) else Value(body))
  }

  function Fit(n: int): Option<Int64> {
    if MIN_INT64 <= n <= MAX_INT64 then Some(n) else None
  }

  /** The strings Itoa prints, by their form: a canonical decimal, or a minus sign before one that
      is not zero. */
  predicate IsPrinted(s: string) {
    IsCanonical(s) || (s != [] && s[0] == '-' && IsCanonical(s[1..]) && s != "-0")
  }

  /** A string that Atoi reads has the form that Itoa prints. */
  predicate CanonicalIfInteger(s: string) {
    Atoi(s).Some? ==> IsPrinted(s)
  }

  lemma CanonicalIff(s: string)
    requires s != [] && AllDigits(s)
    ensures Digits(Value(s)) == s <==> IsCanonical(s)
  {
    if IsCanonical(s) { DigitsOfValue(s); }
  }

  lemma ZeroForm(body: string)
    requires body != [] && AllDigits(body) && Value(body) == 0
    ensures IsCanonical(body) <==> body == "0"
  {
    if IsCanonical(body) { DigitsOfValue(body); }
  }

  lemma AfterMinus(a: string, b: string)
    ensures "-" + a == "-" + b <==> a == b
  {
    assert ("-" + a)[1..] == a && ("-" + b)[1..] == b;
  }

  lemma ValueOfZero()
    ensures Value("0") == 0
  {
    assert "0"[..0] == "";
  }

  lemma ItoaOfNegative(v: nat)
    ensures v > 0 ==> Itoa(0 - v) == "-" + Digits(v)
    ensures v == 0 ==> Itoa(0 - v)[0] != '-'
  {}

  lemma PositiveForm(body: string)
    requires body != [] && AllDigits(body) && Value(body) > 0
    ensures Digits(Value(body)) == body <==> IsCanonical(body) && body != "0"
  {
    ValueOfZero();
    CanonicalIff(body);
  }

  lemma NegativeForm(body: string, n: int)
    requires body != [] && AllDigits(body) && n == 0 - Value(body)
    ensures Itoa(n) == "-" + body <==> IsCanonical(body) && body != "0"
  {
    ItoaOfNegative(Value(body));
    if n < 0 {
      PositiveForm(body);
      AfterMinus(Digits(Value(body)), body);
    } else {
      ZeroForm(body);
      assert ("-" + body)[0] == '-';
    }
  }

  /** Reading an integer and printing it gives the string back exactly for the printed forms. */
  lemma ItoaOfAtoi(s: string)
    requires Atoi(s).Some?
    ensures Itoa(Atoi(s).value) == s <==> IsPrinted(s)
  {
    var n: int := Atoi(s).value;
    if s[0] == '-' {
      var body := s[1..];
      NegativeForm(body, n);
      assert s == "-" + body;
      assert body == "0" <==> s == "-0" by { assert "-0"[1..] == "0"; }
    } else if s[0] == '+' {
      assert Itoa(n)[0] != '+';
    } else {
      CanonicalIff(s);
    }
  }

  // ---- What Atoi reads ----

  function Zeros(n: nat): (s: string)
    ensures |s| == n && forall i | 0 <= i < n :: s[i] == '0'
  {
    seq(n, _ => '0')
  }

  lemma {:induction false} ZerosValue(n: nat)
    ensures AllDigits(Zeros(n)) && Value(Zeros(n)) == 0
  {
    if n > 0 {
      assert Zeros(n)[..n - 1] == Zeros(n - 1);
      ZerosValue(n - 1);
    }
  }

  lemma {:induction false} LeadingZeros(n: nat, s: string)
    requires AllDigits(s)
    ensures AllDigits(Zeros(n) + s) && Value(Zeros(n) + s) == Value(s)
  {
    if s == [] {
      assert Zeros(n) + s == Zeros(n);
      ZerosValue(n);
    } else {
      var init, last := s[..|s| - 1], s[|s| - 1];
      LeadingZeros(n, init);
      assert Zeros(n) + s == (Zeros(n) + init) + [last] && s == init + [last];
      ValueSnoc(Zeros(n) + init, last);
      ValueSnoc(init, last);
    }
  }

  lemma OneMoreZero(n: nat, s: string)
    ensures Zeros(n + 1) + s == Zeros(1) + (Zeros(n) + s)
  {
    assert Zeros(n + 1) == Zeros(1) + Zeros(n);
  }

  /** Any digits are zeros in front of the canonical decimal of their value. */
  lemma {:induction false} DigitsAreZerosAndDecimal(s: string) returns (zeros: nat)
    requires s != [] && AllDigits(s)
    ensures s == Zeros(zeros) + Digits(Value(s))
  {
    if s[0] == '0' && |s| > 1 {
      var rest := DigitsAreZerosAndDecimal(s[1..]);
      assert s == Zeros(1) + s[1..];
      LeadingZeros(1, s[1..]);
      OneMoreZero(rest, Digits(Value(s)));
      zeros := rest + 1;
    } else {
      DigitsOfValue(s);
      zeros := 0;
      assert Zeros(0) + s == s;
    }
  }

  /** An integer as Atoi takes it: a sign, or none, then zeros and the decimal of the magnitude. */
  predicate Writes(s: string, sign: string, zeros: nat, n: int) {
    (sign == "-" || sign == "+" || sign == "") &&
    (sign == "-" ==> n <= 0) && (sign != "-" ==> n >= 0) &&
    s == sign + (Zeros(zeros) + Digits(Magnitude(n)))
  }

  function Magnitude(n: int): nat { if n < 0 then -n else n }

  function Signed(sign: string, magnitude: nat): int { if sign == "-" then 0 - magnitude else magnitude }

  lemma AtoiUnsigned(body: string)
    requires body != [] && AllDigits(body)
    ensures Atoi(body) == Fit(Value(body))
  {
    assert IsDigit(body[0]);
  }

  lemma AtoiSigned(c: char, body: string)
    requires body != [] && AllDigits(body) && c in "+-"
    ensures Atoi([c] + body) == Fit(if c == '-' then 0 - Value(body) else Value(body))
  {
    assert ([c] + body)[1..] == body;
  }

  /** A digit string as Atoi reads it, after its sign. */
  lemma AtoiOfDigits(sign: string, body: string)
    requires body != [] && AllDigits(body)
    requires sign == "-" || sign == "+" || sign == ""
    ensures Atoi(sign + body) == Fit(Signed(sign, Value(body)))
  {
    if sign == "" {
      AtoiUnsigned(body);
      assert sign + body == body;
    } else {
      AtoiSigned(sign[0], body);
      assert sign == [sign[0]];
    }
  }

  lemma AtoiReads(s: string, sign: string, zeros: nat, n: int)
    requires Writes(s, sign, zeros, n) && MIN_INT64 <= n <= MAX_INT64
    ensures Atoi(s) == Some(n)
  {
    LeadingZeros(zeros, Digits(Magnitude(n)));
    ValueOfDigits(Magnitude(n));
    AtoiOfDigits(sign, Zeros(zeros) + Digits(Magnitude(n)));
  }

  /** What Atoi takes for the sign and for the digits. */
  lemma SignAndBody(s: string) returns (sign: string, body: string)
    requires Atoi(s).Some?
    ensures (sign == "-" || sign == "+" || sign == "") && s == sign + body
    ensures body != [] && AllDigits(body)
  {
    sign := if s[0] in "+-" then [s[0]] else "";
    body := s[|sign|..];
  }

  lemma WrittenBy(s: string, n: int) returns (sign: string, zeros: nat)
    requires Atoi(s).Some? && Atoi(s).value == n
    ensures Writes(s, sign, zeros, n)
  {
    var body;
    sign, body := SignAndBody(s);
    AtoiOfDigits(sign, body);
    zeros := DigitsAreZerosAndDecimal(body);
    assert Value(body) == Magnitude(n);
  }

  /** Exactly the strings that Atoi reads, and as what: signs and leading zeros are allowed, and the
      number must fit. */
  lemma AtoiIff(s: string, n: int)
    requires MIN_INT64 <= n <= MAX_INT64
    ensures Atoi(s) == Some(n) <==> exists sign, zeros :: Writes(s, sign, zeros, n)
  {
    if Atoi(s) == Some(n) {
      var sign, zeros := WrittenBy(s, n);
    }
    if sign, zeros :| Writes(s, sign, zeros, n) { AtoiReads(s, sign, zeros, n); }
  }
}
