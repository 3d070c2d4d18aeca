/** Decimal text <-> integers, as Go's `strconv` and `fmt` do it for the handlers: `Atoi` on path and
    query parameters, `ParseUint` on role and module ids, `ParseBool` on the vehicle filter, and `%d`
    when a number is written back into a message or a URL. Go's integers are fixed-width; the parsers
    report a range error together with the clamped value, and both are modelled. */
module Numbers {

  import opened Base

  const MaxInt64: int := 0x7fff_ffff_ffff_ffff
  const MinInt64: int := -0x8000_0000_0000_0000
  const MaxUint32: nat := 0xffff_ffff
  const MaxUint64: nat := 0xffff_ffff_ffff_ffff

  /** What a `strconv` parser returns: the value with a nil error, a syntax error (value 0), or a range
      error carrying the clamped value the parser hands back alongside it. */
  datatype Conversion = Converted(value: int) | SyntaxError | RangeError(clamped: int)
  {
    predicate Failed() { !Converted? }

    /** The number a caller gets when it discards the error (`v, _ := strconv.Atoi(s)`). */
    function IgnoringError(): int
    {
      match this
      case Converted(v) => v
      case SyntaxError => 0
      case RangeError(c) => c
    }
  }

  predicate IsDigit(c: char) { '0' <= c <= '9' }

  predicate AllDigits(s: string)
  {
    forall i :: 0 <= i < |s| ==> IsDigit(s[i])
  }

  function DigitOf(c: char): nat
    requires IsDigit(c)
  {
    (c - '0') as nat
  }

  function DigitChar(d: nat): (c: char)
    requires d < 10
    ensures IsDigit(c) && DigitOf(c) == d
  {
    ('0' as int + d) as char
  }

  /** The value of a string of decimal digits, read most significant digit first. */
  function DigitsValue(s: string): nat
    requires AllDigits(s)
  {
    if |s| == 0 then 0 else DigitsValue(s[..|s| - 1]) * 10 + DigitOf(s[|s| - 1])
  }

  /** The digit loop of `strconv.ParseUint` in base 10 from position `i`, with `n` the value read so
      far: the first non-digit is a syntax error, and the first digit that takes the value past `max`
      ends the scan with a range error, whatever follows it. */
  function ScanFrom(s: string, i: nat, n: nat, max: nat): (r: Conversion)
    requires i <= |s|
    ensures r.Converted? ==> 0 <= r.value <= max
    ensures r.RangeError? ==> r.clamped == max
    decreases |s| - i
  {
    if i == |s| then (if n <= max then Converted(n) else RangeError(max))
    else if !IsDigit(s[i]) then SyntaxError
    else if n * 10 + DigitOf(s[i]) > max then RangeError(max)
    else ScanFrom(s, i + 1, n * 10 + DigitOf(s[i]), max)
  }

  /** `strconv.ParseUint(s, 10, bits)` with `max` = 2^bits - 1. */
  function ParseUint(s: string, max: nat): (r: Conversion)
    ensures r.Converted? <==> s != "" && AllDigits(s) && DigitsValue(s) <= max
    ensures r.Converted? ==> r.value == DigitsValue(s)
    ensures r.RangeError? ==> r.clamped == max
    ensures s != "" && AllDigits(s) && DigitsValue(s) > max ==> r == RangeError(max)
  {
    if s == "" then SyntaxError
    else
      ScanCharacterised(s, 0, max);
      ScanFrom(s, 0, 0, max)
  }

  /** `strconv.Atoi` on a 64-bit platform: an optional sign, then decimal digits; a magnitude outside
      the int64 range is a range error that clamps to the nearer bound. */
  function Atoi(s: string): (r: Conversion)
    ensures r.Converted? <==> WellFormedInt(s) && MinInt64 <= IntValue(s) <= MaxInt64
    ensures r.Converted? ==> r.value == IntValue(s)
    ensures WellFormedInt(s) && !(MinInt64 <= IntValue(s) <= MaxInt64) ==> r.RangeError?
    ensures r.RangeError? ==> s != "" && r.clamped == (if s[0] == '-' then MinInt64 else MaxInt64)
  {
    if s == "" then SyntaxError
    else
      var negative := s[0] == '-';
      var digits := if s[0] == '+' || s[0] == '-' then s[1..] else s;
      match ParseUint(digits, MaxUint64)
      case SyntaxError => SyntaxError
      case RangeError(_) => RangeError(if negative then MinInt64 else MaxInt64)
      case Converted(u) =>
        if !negative && u > MaxInt64 then RangeError(MaxInt64)
        else if negative && u > -MinInt64 then RangeError(MinInt64)
        else Converted(if negative then -u else u)
  }

  /** The magnitude part of a signed decimal text. */
  function Unsigned(s: string): string
  {
    if |s| > 0 && (s[0] == '+' || s[0] == '-') then s[1..] else s
  }

  /** A sign (optional) followed by at least one decimal digit. */
  predicate WellFormedInt(s: string)
  {
    Unsigned(s) != "" && AllDigits(Unsigned(s))
  }

  /** The integer a well-formed decimal text denotes. */
  function IntValue(s: string): int
    requires WellFormedInt(s)
  {
    var magnitude: int := DigitsValue(Unsigned(s));
    if s[0] == '-' then -magnitude else magnitude
  }

  /** `strconv.ParseBool`: exactly these twelve spellings are accepted. */
  function ParseBool(s: string): (r: Option<bool>)
    ensures r == Some(true) <==> s in {"1", "t", "T", "TRUE", "true", "True"}
    ensures r == Some(false) <==> s in {"0", "f", "F", "FALSE", "false", "False"}
  {
    if s in {"1", "t", "T", "TRUE", "true", "True"} then Some(true)
    else if s in {"0", "f", "F", "FALSE", "false", "False"} then Some(false)
    else None
  }

  /** `%d` of a non-negative number: its shortest decimal text. */
  function NatToDecimal(n: nat): (s: string)
    ensures s != "" && AllDigits(s)
    ensures |s| > 1 ==> s[0] != '0'
    decreases n
  {
    if n < 10 then [DigitChar(n)] else NatToDecimal(n / 10) + [DigitChar(n % 10)]
  }

  /** `%d` of any integer. */
  function IntToDecimal(i: int): (s: string)
  {
    if i < 0 then "-" + NatToDecimal(-i) else NatToDecimal(i)
  }

  /** Go's `int` arithmetic: the exact result reduced into the signed 64-bit range, two's complement. */
  function Wrap64(x: int): (r: int)
    ensures MinInt64 <= r <= MaxInt64
    ensures (r - x) % 0x1_0000_0000_0000_0000 == 0
  {
    (x - MinInt64) % 0x1_0000_0000_0000_0000 + MinInt64
  }

  /** Wrapping changes nothing in range. */
  lemma Wrap64InRange(x: int)
    ensures MinInt64 <= x <= MaxInt64 ==> Wrap64(x) == x
  {
  }

  // ---------------------------------------------------------------------------------------------
  // Error texts

  /** A lower-case hexadecimal digit, as `strconv` writes it in a `\x` escape. */
  function HexDigit(d: nat): (c: char)
    requires d < 16
    ensures c as int == if d < 10 then '0' as int + d else 'a' as int + d - 10
  {
    if d < 10 then ('0' as int + d) as char else ('a' as int + d - 10) as char
  }

  /** A character `strconv.Quote` copies as it is: printable ASCII other than the double quote and the
      backslash, and every character beyond ASCII. */
  predicate Kept(c: char)
  {
    c != '"' && c != '\\' && (0x20 <= c as int < 0x7f || c as int > 0x7f)
  }

  /** How `strconv.Quote` writes one character between the quotes: the double quote and the
      backslash get a backslash, the seven control characters with a C escape get that escape, and
      every other ASCII control character becomes `\x` and two lower-case hex digits. */
  function EscapeChar(c: char): (e: string)
    ensures Kept(c) <==> e == [c]
    ensures !Kept(c) ==> 2 <= |e| <= 4 && e[0] == '\\'
  {
    var n := c as int;
    if c == '"' || c == '\\' then ['\\', c]
    else if Kept(c) then [c]
    else if n == 7 then "\\a"
    else if n == 8 then "\\b"
    else if n == 12 then "\\f"
    else if n == 10 then "\\n"
    else if n == 13 then "\\r"
    else if n == 9 then "\\t"
    else if n == 11 then "\\v"
    else ['\\', 'x', HexDigit(n / 16), HexDigit(n % 16)]
  }

  /** Every character escaped, in order. */
  function EscapeAll(s: string): (e: string)
    ensures |e| >= |s|
  {
    if s == [] then [] else EscapeChar(s[0]) + EscapeAll(s[1..])
  }

  /** `strconv.Quote`: the escaped text between double quotes. */
  function Quote(s: string): (q: string)
    ensures |q| >= |s| + 2 && q[0] == '"' && q[|q| - 1] == '"'
  {
    "\"" + EscapeAll(s) + "\""
  }

  const RangeReason := "value out of range"
  const SyntaxReason := "invalid syntax"

  /** `(*strconv.NumError).Error()`: the parser's name, the quoted input, and why it was refused. */
  function NumErrorText(fn: string, input: string, c: Conversion): (t: string)
    requires c.Failed()
    ensures |t| > |Quote(input)|
    ensures t[|t| - 1] == (if c.RangeError? then 'e' else 'x')
  {
    "strconv." + fn + ": parsing " + Quote(input) + ": " + (if c.RangeError? then RangeReason else SyntaxReason)
  }

  /** The error text `strconv.Atoi` gives for a text it refuses. */
  function AtoiErrorText(s: string): string
    requires Atoi(s).Failed()
  {
    NumErrorText("Atoi", s, Atoi(s))
  }

  // ---------------------------------------------------------------------------------------------
  // Proofs

  /** Reading one more digit never makes the value smaller. */
  lemma {:induction false} PrefixValueBound(s: string, j: nat)
    requires AllDigits(s) && j <= |s|
    ensures AllDigits(s[..j]) && DigitsValue(s[..j]) <= DigitsValue(s)
    decreases |s| - j
  {
    if j == |s| {
      assert s[..j] == s;
    } else {
      PrefixValueBound(s, j + 1);
      var t := s[..j + 1];
      assert t[..|t| - 1] == s[..j];
      assert DigitsValue(t) == DigitsValue(s[..j]) * 10 + DigitOf(s[j]);
    }
  }

  /** The digit loop reads exactly the value of the digits, unless it overflows or meets a non-digit. */
  lemma {:induction false} ScanCharacterised(s: string, i: nat, max: nat)
    requires i <= |s| && AllDigits(s[..i]) && DigitsValue(s[..i]) <= max
    ensures var r := ScanFrom(s, i, DigitsValue(s[..i]), max);
      && (r.Converted? <==> AllDigits(s) && DigitsValue(s) <= max)
      && (r.Converted? ==> r.value == DigitsValue(s))
      && (AllDigits(s) && DigitsValue(s) > max ==> r == RangeError(max))
    decreases |s| - i
  {
    var n := DigitsValue(s[..i]);
    if i == |s| {
      assert s[..i] == s;
    } else if !IsDigit(s[i]) {
      assert !AllDigits(s);
    } else {
      var t := s[..i + 1];
      assert t[..|t| - 1] == s[..i];
      assert AllDigits(t);
      assert DigitsValue(t) == n * 10 + DigitOf(s[i]);
      if n * 10 + DigitOf(s[i]) > max {
        if AllDigits(s) {
          PrefixValueBound(s, i + 1);
        }
      } else {
        ScanCharacterised(s, i + 1, max);
      }
    }
  }

  /** Printing then parsing a non-negative number gives it back. */
  lemma {:induction false} NatDecimalValue(n: nat)
    ensures DigitsValue(NatToDecimal(n)) == n
    decreases n
  {
    if n >= 10 {
      NatDecimalValue(n / 10);
      var s := NatToDecimal(n);
      assert s[..|s| - 1] == NatToDecimal(n / 10);
    }
  }

  /** `strconv.ParseUint` reads back what `%d` prints, for every value in range. */
  lemma ParseUintRoundTrip(n: nat, max: nat)
    requires n <= max
    ensures ParseUint(NatToDecimal(n), max) == Converted(n)
  {
    NatDecimalValue(n);
  }

  /** `strconv.Atoi` reads back what `%d` prints, for every int64. */
  lemma AtoiRoundTrip(i: int)
    requires MinInt64 <= i <= MaxInt64
    ensures Atoi(IntToDecimal(i)) == Converted(i)
  {
    var s := IntToDecimal(i);
    if i < 0 {
      NatDecimalValue(-i);
      assert Unsigned(s) == NatToDecimal(-i);
    } else {
      NatDecimalValue(i);
      assert Unsigned(s) == NatToDecimal(i);
    }
  }

  /** Text without quotes, backslashes or control characters is quoted as it is. */
  lemma {:induction false} QuoteKeepsPlainText(s: string)
    requires forall i :: 0 <= i < |s| ==> Kept(s[i])
    ensures Quote(s) == "\"" + s + "\""
  {
    EscapeAllKeepsPlainText(s);
  }

  lemma {:induction false} EscapeAllKeepsPlainText(s: string)
    requires forall i :: 0 <= i < |s| ==> Kept(s[i])
    ensures EscapeAll(s) == s
  {
    if s != [] {
      EscapeAllKeepsPlainText(s[1..]);
      assert [s[0]] + s[1..] == s;
    }
  }

  /** No escape is a prefix of another: the first character written decides the character escaped. */
  lemma EscapePrefixFree(x: char, y: char, u: string, v: string)
    requires EscapeChar(x) + u == EscapeChar(y) + v
    ensures x == y && u == v
  {
    var a, b := EscapeChar(x), EscapeChar(y);
    var w := a + u;
    assert w[0] == a[0] == b[0];
    if Kept(x) || Kept(y) {
      assert x == w[0] == y;
    } else {
      assert a[1] == w[1] == b[1];
      if a[1] == 'x' {
        assert a[2] == w[2] == b[2] && a[3] == w[3] == b[3];
        var n, m := x as int, y as int;
        assert n / 16 == m / 16 && n % 16 == m % 16;
        assert n == m;
      }
    }
    assert a == b;
    assert u == w[|a|..] == v;
  }

  /** Escaping loses nothing: different texts escape to different texts. */
  lemma {:induction false} EscapeAllInjective(s: string, t: string)
    requires EscapeAll(s) == EscapeAll(t)
    ensures s == t
  {
    if s != [] && t != [] {
      EscapePrefixFree(s[0], t[0], EscapeAll(s[1..]), EscapeAll(t[1..]));
      EscapeAllInjective(s[1..], t[1..]);
      assert s == [s[0]] + s[1..] && t == [t[0]] + t[1..];
    }
  }

  /** `strconv.Quote` is one-to-one. */
  lemma QuoteInjective(s: string, t: string)
    requires Quote(s) == Quote(t)
    ensures s == t
  {
    var q := Quote(s);
    assert EscapeAll(s) == q[1..|q| - 1] == EscapeAll(t);
    EscapeAllInjective(s, t);
  }

  /** A parser's error text names its input: two inputs refused with the same text are the same. */
  lemma NumErrorTextNamesInput(fn: string, s: string, t: string, c: Conversion, d: Conversion)
    requires c.Failed() && d.Failed() && NumErrorText(fn, s, c) == NumErrorText(fn, t, d)
    ensures s == t
  {
    var e := NumErrorText(fn, s, c);
    assert c.RangeError? == d.RangeError?;
    var reason := if c.RangeError? then RangeReason else SyntaxReason;
    var head := "strconv." + fn + ": parsing ";
    assert e == head + Quote(s) + ": " + reason == head + Quote(t) + ": " + reason;
    assert |Quote(s)| == |Quote(t)|;
    assert Quote(s) == e[|head|..|head| + |Quote(s)|] == Quote(t);
    QuoteInjective(s, t);
  }

  /** The text `strconv.Atoi` gives for a word: the input quoted, and a syntax error. */
  lemma AtoiRefusesWord()
    ensures Atoi("abc") == SyntaxError
    ensures AtoiErrorText("abc") == "strconv.Atoi: parsing \"abc\": invalid syntax"
  {
    assert !IsDigit("abc"[0]);
    assert ScanFrom("abc", 0, 0, MaxUint64) == SyntaxError;
    QuoteKeepsPlainText("abc");
  }
}
