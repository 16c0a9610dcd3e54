/**
 * The lexical layer of JSON text (RFC 8259) as JSON.parse reads it and
 * JSON.stringify writes it: whitespace, numbers and strings.
 *
 * The model covers ASCII text and integers of magnitude at most 2^53.
 * Where JSON.parse throws, the parsers answer SyntaxError.
 * At the first well-formed token outside that range (a fraction or an
 * exponent, an integer beyond 2^53, a \u escape above U+007F, a raw
 * character above U+007F) they stop and answer OutsideModel: JSON.parse may
 * accept or reject the text as a whole, depending on what follows.
 */
module JsonLexical {
  import opened Wrappers

  datatype ParseError = SyntaxError | OutsideModel

  /** The result of parsing a prefix of a text: what was read and the rest of the text. */
  type Parsed<T> = Result<(T, string), ParseError>

  // ---------------------------------------------------------------------
  // Whitespace (section 2 of RFC 8259).

  predicate IsWhitespace(c: char)
  {
    c == ' ' || c == '\t' || c == '\n' || c == '\r'
  }

  predicate AllWhitespace(s: string)
  {
    forall i | 0 <= i < |s| :: IsWhitespace(s[i])
  }

  function SkipWhitespace(s: string): (r: string)
    ensures |r| <= |s|
    ensures r == [] || !IsWhitespace(r[0])
  {
    if s != [] && IsWhitespace(s[0]) then SkipWhitespace(s[1..]) else s
  }

  /** Text that does not start with whitespace is left alone. */
  lemma SkipNothing(s: string)
    requires s != [] && !IsWhitespace(s[0])
    ensures SkipWhitespace(s) == s
  {
  }

  lemma {:induction false} SkipLeadingWhitespace(ws: string, s: string)
    requires AllWhitespace(ws)
    ensures SkipWhitespace(ws + s) == SkipWhitespace(s)
  {
    if ws != [] {
      assert (ws + s)[0] == ws[0] && IsWhitespace(ws[0]);
      assert (ws + s)[1..] == ws[1..] + s;
      assert AllWhitespace(ws[1..]) by {
        forall i | 0 <= i < |ws| - 1 ensures IsWhitespace(ws[1..][i]) {
          assert ws[1..][i] == ws[i + 1];
        }
      }
      SkipLeadingWhitespace(ws[1..], s);
    } else {
      assert ws + s == s;
    }
  }

  /** SkipWhitespace drops exactly a run of whitespace. */
  lemma {:induction false} SkippedIsWhitespace(s: string)
    ensures AllWhitespace(s[..|s| - |SkipWhitespace(s)|])
  {
    if s != [] && IsWhitespace(s[0]) {
      SkippedIsWhitespace(s[1..]);
      var n := |s| - |SkipWhitespace(s)|;
      assert s[..n] == [s[0]] + s[1..][..n - 1];
    }
  }

  // ---------------------------------------------------------------------
  // Decimal digits.

  predicate IsDigit(c: char)
  {
    '0' <= c <= '9'
  }

  predicate AllDigits(s: string)
  {
    forall i | 0 <= i < |s| :: IsDigit(s[i])
  }

  function DigitChar(d: nat): (c: char)
    requires d < 10
    ensures IsDigit(c)
  {
    ('0' as int + d) as char
  }

  /** The number a string of decimal digits denotes. */
  function DigitsValue(ds: string): nat
    requires AllDigits(ds)
  {
    if ds == [] then 0
    else DigitsValue(ds[..|ds| - 1]) * 10 + (ds[|ds| - 1] as int - '0' as int)
  }

  /** A digit string as JSON writes integers: not empty, and no leading zero unless it is "0". */
  predicate Canonical(ds: string)
  {
    |ds| > 0 && AllDigits(ds) && (ds[0] == '0' ==> |ds| == 1)
  }

  /** The shortest decimal text of n, as Number.prototype.toString writes it. */
  function NaturalText(n: nat): (ds: string)
    ensures Canonical(ds)
  {
    if n < 10 then [DigitChar(n)]
    else NaturalText(n / 10) + [DigitChar(n % 10)]
  }

  lemma {:induction false} NaturalTextValue(n: nat)
    ensures DigitsValue(NaturalText(n)) == n
  {
    if n >= 10 {
      var ds := NaturalText(n);
      assert ds[..|ds| - 1] == NaturalText(n / 10);
      NaturalTextValue(n / 10);
    }
  }

  /** The converse: a canonical digit string is the text of its own value. */
  lemma {:induction false} CanonicalText(ds: string)
    requires Canonical(ds)
    ensures NaturalText(DigitsValue(ds)) == ds
    decreases |ds|
  {
    if |ds| > 1 {
      var init := ds[..|ds| - 1];
      assert Canonical(init);
      CanonicalText(init);
      PositiveValue(init);
      assert ds == init + [ds[|ds| - 1]];
    }
  }

  lemma {:induction false} PositiveValue(ds: string)
    requires Canonical(ds) && ds[0] != '0'
    ensures DigitsValue(ds) >= 1
    decreases |ds|
  {
    if |ds| > 1 {
      PositiveValue(ds[..|ds| - 1]);
    }
  }

  /** Two canonical digit strings with the same value are the same string. */
  lemma CanonicalInjective(a: string, b: string)
    requires Canonical(a) && Canonical(b) && DigitsValue(a) == DigitsValue(b)
    ensures a == b
  {
    CanonicalText(a);
    CanonicalText(b);
  }

  /** The length of the longest run of digits at the front of s. */
  function LeadingDigits(s: string): (n: nat)
    ensures n <= |s| && AllDigits(s[..n])
    ensures n == |s| || !IsDigit(s[n])
  {
    if s != [] && IsDigit(s[0]) then
      var n := 1 + LeadingDigits(s[1..]);
      assert s[..n] == [s[0]] + s[1..][..n - 1];
      n
    else 0
  }

  lemma {:induction false} LeadingDigitsOf(ds: string, rest: string)
    requires AllDigits(ds) && (rest == [] || !IsDigit(rest[0]))
    ensures LeadingDigits(ds + rest) == |ds|
  {
    if ds != [] {
      assert (ds + rest)[1..] == ds[1..] + rest;
      LeadingDigitsOf(ds[1..], rest);
    }
  }

  // ---------------------------------------------------------------------
  // Numbers (section 6 of RFC 8259), restricted to exact integers.

  /** 2^53: every integer of at most this magnitude is a JavaScript number exactly. */
  const ExactIntegerLimit: int := 9007199254740992

  predicate IsExactInteger(n: int)
  {
    -ExactIntegerLimit <= n <= ExactIntegerLimit
  }

  /** JSON.stringify of an integral number (-0 is written "0"). */
  function NumberText(n: int): string
  {
    if n < 0 then "-" + NaturalText(-n) else NaturalText(n)
  }

  /** What may follow a number so that it ends there and stays an integer. */
  predicate EndsNumber(rest: string)
  {
    rest == [] || !(IsDigit(rest[0]) || rest[0] == '.' || rest[0] == 'e' || rest[0] == 'E')
  }

  /**
   * Whether a fraction ('.' and digits) and an exponent ('e' or 'E', an
   * optional sign, digits) at the front of s, each optional, are well formed.
   */
  predicate FractionAndExponent(s: string)
  {
    var f := if s != [] && s[0] == '.' then (if |s| >= 2 && IsDigit(s[1]) then Some(1 + LeadingDigits(s[1..])) else None) else Some(0);
    f.Some? &&
      var e := s[f.value..];
      e == [] || !(e[0] == 'e' || e[0] == 'E') ||
        var sign := if |e| >= 2 && (e[1] == '+' || e[1] == '-') then 1 else 0;
        |e| >= 2 + sign && IsDigit(e[1 + sign])
  }

  /**
   * Reads the digits of a number: "0" or a digit run without leading zero.
   * A digit after a leading zero, or a malformed fraction or exponent, is a
   * SyntaxError. A well-formed fraction or exponent, or a magnitude above
   * 2^53, is OutsideModel.
   */
  function ParseMagnitude(t: string): (r: Parsed<nat>)
    ensures r.Ok? ==> |r.value.1| < |t|
  {
    if t == [] || !IsDigit(t[0]) then Err(SyntaxError)
    else
      var len := if t[0] == '0' then 1 else LeadingDigits(t);
      var magnitude := DigitsValue(t[..len]);
      var rest := t[len..];
      if rest != [] && IsDigit(rest[0]) then Err(SyntaxError)
      else if !EndsNumber(rest) then (if FractionAndExponent(rest) then Err(OutsideModel) else Err(SyntaxError))
      else if magnitude > ExactIntegerLimit then Err(OutsideModel)
      else Ok((magnitude, rest))
  }

  /** Reads a number at the start of s: an optional minus sign, then its magnitude. */
  function ParseNumber(s: string): (r: Parsed<int>)
    ensures r.Ok? ==> |r.value.1| < |s| && IsExactInteger(r.value.0)
  {
    if s != [] && s[0] == '-' then
      var (m, rest) :- ParseMagnitude(s[1..]);
      var n: int := -(m as int);
      Ok((n, rest))
    else
      var (m, rest) :- ParseMagnitude(s);
      var n: int := m;
      Ok((n, rest))
  }

  /** How the digits of m and the text after them are read. */
  lemma ParseMagnitudeOf(m: nat, rest: string)
    requires rest == [] || !IsDigit(rest[0])
    ensures ParseMagnitude(NaturalText(m) + rest)
         == if !EndsNumber(rest) then (if FractionAndExponent(rest) then Err(OutsideModel) else Err(SyntaxError))
            else if m > ExactIntegerLimit then Err(OutsideModel)
            else Ok((m, rest))
  {
    var ds := NaturalText(m);
    var t := ds + rest;
    NaturalTextValue(m);
    if ds[0] != '0' {
      LeadingDigitsOf(ds, rest);
    }
    assert t[..|ds|] == ds && t[|ds|..] == rest;
  }

  lemma ParseMagnitudeText(m: nat, rest: string)
    requires m <= ExactIntegerLimit && EndsNumber(rest)
    ensures ParseMagnitude(NaturalText(m) + rest) == Ok((m, rest))
  {
    ParseMagnitudeOf(m, rest);
  }

  /** A digit after a leading zero is a SyntaxError, with or without a minus sign. */
  lemma LeadingZero(ds: string)
    requires ds != [] && IsDigit(ds[0])
    ensures ParseNumber("0" + ds) == Err(SyntaxError)
    ensures ParseNumber("-0" + ds) == Err(SyntaxError)
  {
    assert ("0" + ds)[1..] == ds;
    assert ("-0" + ds)[1..] == "0" + ds;
  }

  /** After the digits of a number, a malformed fraction or exponent is a SyntaxError, a well-formed one OutsideModel. */
  lemma NumberTail(m: nat, rest: string)
    requires rest != [] && (rest[0] == '.' || rest[0] == 'e' || rest[0] == 'E')
    ensures ParseNumber(NaturalText(m) + rest)
         == if FractionAndExponent(rest) then Err(OutsideModel) else Err(SyntaxError)
  {
    var t := NaturalText(m) + rest;
    assert t[0] == NaturalText(m)[0];
    ParseMagnitudeOf(m, rest);
  }

  /** Which tails after the digits are well formed: "1." and "1e" are rejected, "1.5" and "1e+5" are not. */
  lemma FractionAndExponentCases()
    ensures !FractionAndExponent(".") && !FractionAndExponent(".e5")
    ensures !FractionAndExponent("e") && !FractionAndExponent("e+")
    ensures FractionAndExponent(".5") && FractionAndExponent("e+5") && FractionAndExponent(".5E-1")
  {
  }

  /** A minus sign negates the magnitude that follows it. */
  lemma ParseNegative(t: string, m: nat, rest: string)
    requires ParseMagnitude(t) == Ok((m, rest))
    ensures ParseNumber("-" + t) == Ok((-(m as int), rest))
  {
    assert ("-" + t)[1..] == t;
  }

  /** Without a minus sign the number is its magnitude. */
  lemma ParseNonNegative(t: string, m: nat, rest: string)
    requires t != [] && t[0] != '-' && ParseMagnitude(t) == Ok((m, rest))
    ensures ParseNumber(t) == Ok((m as int, rest))
  {
  }

  /** Writing then reading an exact integer gives it back, with the rest of the text untouched. */
  lemma ParseNumberText(n: int, rest: string)
    requires IsExactInteger(n) && EndsNumber(rest)
    ensures ParseNumber(NumberText(n) + rest) == Ok((n, rest))
  {
    if n < 0 {
      ParseNegativeText(-n, rest);
    } else {
      ParseNonNegativeText(n, rest);
    }
  }

  lemma ParseNegativeText(m: nat, rest: string)
    requires 0 < m <= ExactIntegerLimit && EndsNumber(rest)
    ensures ParseNumber(NumberText(-(m as int)) + rest) == Ok((-(m as int), rest))
  {
    var t := NaturalText(m) + rest;
    assert NumberText(-(m as int)) + rest == "-" + t;
    ParseMagnitudeText(m, rest);
    ParseNegative(t, m, rest);
  }

  lemma ParseNonNegativeText(m: nat, rest: string)
    requires m <= ExactIntegerLimit && EndsNumber(rest)
    ensures ParseNumber(NumberText(m) + rest) == Ok((m as int, rest))
  {
    var t := NaturalText(m) + rest;
    assert t[0] == NaturalText(m)[0];
    ParseMagnitudeText(m, rest);
    ParseNonNegative(t, m, rest);
  }

  // ---------------------------------------------------------------------
  // Strings (section 7 of RFC 8259).

  predicate IsAscii(c: char)
  {
    c as int < 0x80
  }

  predicate AsciiText(s: string)
  {
    forall i | 0 <= i < |s| :: IsAscii(s[i])
  }

  function HexDigit(d: nat): (c: char)
    requires d < 16
  {
    if d < 10 then DigitChar(d) else ('a' as int + (d - 10)) as char
  }

  function HexValue(c: char): Option<nat>
  {
    if '0' <= c <= '9' then Some(c as int - '0' as int)
    else if 'a' <= c <= 'f' then Some(c as int - 'a' as int + 10)
    else if 'A' <= c <= 'F' then Some(c as int - 'A' as int + 10)
    else None
  }

  lemma HexRoundTrip(d: nat)
    requires d < 16
    ensures HexValue(HexDigit(d)) == Some(d)
  {
  }

  const Backspace: char := 0x08 as char
  const FormFeed: char := 0x0C as char

  /** How JSON.stringify writes one character inside quotes: named escapes, \u00xx for other controls. */
  function EscapeChar(c: char): string
  {
    if c == '"' then "\\\""
    else if c == '\\' then "\\\\"
    else if c == Backspace then "\\b"
    else if c == FormFeed then "\\f"
    else if c == '\n' then "\\n"
    else if c == '\r' then "\\r"
    else if c == '\t' then "\\t"
    else if c as int < 0x20 then "\\u00" + [HexDigit(c as int / 16), HexDigit(c as int % 16)]
    else [c]
  }

  function Escape(s: string): string
  {
    if s == [] then [] else EscapeChar(s[0]) + Escape(s[1..])
  }

  /** JSON.stringify of a string. */
  function Quote(s: string): string
  {
    "\"" + Escape(s) + "\""
  }

  /** The character a two-character escape "\e" stands for. */
  function ShortEscape(e: char): Option<char>
  {
    if e == '"' then Some('"')
    else if e == '\\' then Some('\\')
    else if e == '/' then Some('/')
    else if e == 'b' then Some(Backspace)
    else if e == 'f' then Some(FormFeed)
    else if e == 'n' then Some('\n')
    else if e == 'r' then Some('\r')
    else if e == 't' then Some('\t')
    else None
  }

  /** The value of four hexadecimal digits. */
  function HexQuad(s: string): Option<nat>
    requires |s| == 4
  {
    var a :- HexValue(s[0]);
    var b :- HexValue(s[1]);
    var c :- HexValue(s[2]);
    var d :- HexValue(s[3]);
    Some(((a * 16 + b) * 16 + c) * 16 + d)
  }

  /** One character of string content at the front of s, and the text after it. */
  function ParseChar(s: string): (r: Parsed<char>)
    requires s != [] && s[0] != '"'
    ensures r.Ok? ==> |r.value.1| < |s| && IsAscii(r.value.0)
  {
    var c := s[0];
    if c == '\\' then
      if |s| < 2 then Err(SyntaxError)
      else if s[1] == 'u' then
        if |s| < 6 then Err(SyntaxError)
        else match HexQuad(s[2..6])
          case None => Err(SyntaxError)
          case Some(code) => if code < 0x80 then Ok((code as char, s[6..])) else Err(OutsideModel)
      else match ShortEscape(s[1])
        case None => Err(SyntaxError)
        case Some(e) => Ok((e, s[2..]))
    else if c as int < 0x20 then Err(SyntaxError)
    else if !IsAscii(c) then Err(OutsideModel)
    else Ok((c, s[1..]))
  }

  /** The content of a string literal, read up to and including its closing quote. */
  function ParseChars(s: string): (r: Parsed<string>)
    ensures r.Ok? ==> |r.value.1| < |s| && AsciiText(r.value.0)
    decreases |s|
  {
    if s == [] then Err(SyntaxError)
    else if s[0] == '"' then Ok(([], s[1..]))
    else
      var (c, rest) :- ParseChar(s);
      var (cs, rest') :- ParseChars(rest);
      Ok(([c] + cs, rest'))
  }

  lemma ParseEscapedChar(c: char, rest: string)
    requires IsAscii(c)
    ensures EscapeChar(c) != [] && EscapeChar(c)[0] != '"'
    ensures ParseChar(EscapeChar(c) + rest) == Ok((c, rest))
  {
    var e := EscapeChar(c);
    var s := e + rest;
    if c as int < 0x20 && !(c == Backspace || c == FormFeed || c == '\n' || c == '\r' || c == '\t') {
      var hi, lo := c as int / 16, c as int % 16;
      HexRoundTrip(hi);
      HexRoundTrip(lo);
      assert s[2..6] == "00" + [HexDigit(hi), HexDigit(lo)];
      assert s[6..] == rest;
    } else {
      assert s[1..] == e[1..] + rest;
    }
  }

  /** Reading an escaped ASCII string up to its closing quote gives the string back. */
  lemma {:induction false} ParseEscaped(s: string, rest: string)
    requires AsciiText(s)
    ensures ParseChars(Escape(s) + "\"" + rest) == Ok((s, rest))
  {
    if s == [] {
      assert Escape(s) + "\"" + rest == "\"" + rest;
    } else {
      var tail := Escape(s[1..]) + "\"" + rest;
      assert Escape(s) + "\"" + rest == EscapeChar(s[0]) + tail;
      ParseEscapedChar(s[0], tail);
      ParseEscaped(s[1..], rest);
      assert [s[0]] + s[1..] == s;
    }
  }

  lemma ParseQuoted(s: string, rest: string)
    requires AsciiText(s)
    ensures Quote(s) + rest == "\"" + (Escape(s) + "\"" + rest)
    ensures ParseChars((Quote(s) + rest)[1..]) == Ok((s, rest))
  {
    assert Quote(s) + rest == "\"" + (Escape(s) + "\"" + rest);
    ParseEscaped(s, rest);
  }

  /** Both properties JSON.stringify's output has, over a concatenation. */
  lemma Concat(a: string, b: string)
    ensures ('\n' in a + b) == ('\n' in a || '\n' in b)
    ensures AsciiText(a + b) == (AsciiText(a) && AsciiText(b))
  {
    if AsciiText(a) && AsciiText(b) {
      forall i | 0 <= i < |a + b| ensures IsAscii((a + b)[i]) {
        if i >= |a| { assert (a + b)[i] == b[i - |a|]; }
      }
    }
    if AsciiText(a + b) {
      assert forall i | 0 <= i < |a| :: a[i] == (a + b)[i];
      assert forall i | 0 <= i < |b| :: b[i] == (a + b)[|a| + i];
    }
  }

  /** Digits and a minus sign are ASCII, and none is a line feed. */
  lemma NumberTextShape(n: int)
    ensures '\n' !in NumberText(n) && AsciiText(NumberText(n))
  {
    var ds := NaturalText(if n < 0 then -n else n);
    assert forall i | 0 <= i < |ds| :: IsDigit(ds[i]);
    if n < 0 {
      Concat("-", ds);
    }
  }

  /** Escaping leaves no raw line feed, and keeps ASCII text ASCII. */
  lemma {:induction false} EscapeShape(s: string)
    ensures '\n' !in Escape(s)
    ensures AsciiText(s) ==> AsciiText(Escape(s))
  {
    if s != [] {
      EscapeShape(s[1..]);
      var e := EscapeChar(s[0]);
      assert '\n' !in e;
      assert Escape(s) == e + Escape(s[1..]);
    }
  }
}
