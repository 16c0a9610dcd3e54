/**
 * Base64 as Node.js Buffers use it on the record path: the standard alphabet
 * with '=' padding of section 4 of RFC 4648. Encoding is total; decoding is
 * the strict, canonical decoder, which answers None for every text that is not
 * the encoding of some byte string (Node's own decoder is lenient there).
 *
 * Both directions go through a middle layer of 6-bit values, so that the bit
 * arithmetic (bytes <-> values) and the alphabet (values <-> characters) are
 * proved apart.
 */
module Base64 {
  import opened Wrappers

  /** An octet, as held in a Buffer. */
  type Byte = b: int | 0 <= b < 256

  /** The value of one base64 digit. */
  type Sextet = v: int | 0 <= v < 64

  // ---------------------------------------------------------------------
  // The alphabet of section 4: A-Z, a-z, 0-9, '+', '/'.

  function DigitChar(v: Sextet): (c: char)
  {
    if v < 26 then ('A' as int + v) as char
    else if v < 52 then ('a' as int + (v - 26)) as char
    else if v < 62 then ('0' as int + (v - 52)) as char
    else if v == 62 then '+'
    else '/'
  }

  function DigitValue(c: char): Option<Sextet>
  {
    if 'A' <= c <= 'Z' then Some(c as int - 'A' as int)
    else if 'a' <= c <= 'z' then Some(c as int - 'a' as int + 26)
    else if '0' <= c <= '9' then Some(c as int - '0' as int + 52)
    else if c == '+' then Some(62)
    else if c == '/' then Some(63)
    else None
  }

  /** Digit and value are inverse to each other, in both directions; the pad character is no digit. */
  lemma DigitRoundTrip(v: Sextet, c: char)
    ensures DigitValue(DigitChar(v)) == Some(v)
    ensures DigitValue(c) == Some(v) ==> DigitChar(v) == c
    ensures DigitValue('=') == None
  {
  }

  function DigitString(vs: seq<Sextet>): (s: string)
    ensures |s| == |vs|
  {
    if vs == [] then [] else [DigitChar(vs[0])] + DigitString(vs[1..])
  }

  function DigitValues(s: string): (r: Option<seq<Sextet>>)
    ensures r.Some? ==> |r.value| == |s|
  {
    if s == [] then Some([])
    else
      var v :- DigitValue(s[0]);
      var rest :- DigitValues(s[1..]);
      Some([v] + rest)
  }

  lemma {:induction false} DigitStringRoundTrip(vs: seq<Sextet>)
    ensures DigitValues(DigitString(vs)) == Some(vs)
  {
    if vs != [] {
      DigitRoundTrip(vs[0], DigitChar(vs[0]));
      DigitStringRoundTrip(vs[1..]);
      assert DigitString(vs)[1..] == DigitString(vs[1..]);
      assert [vs[0]] + vs[1..] == vs;
    }
  }

  lemma {:induction false} DigitValuesCanonical(s: string, vs: seq<Sextet>)
    requires DigitValues(s) == Some(vs)
    ensures DigitString(vs) == s
  {
    if s != [] {
      DigitRoundTrip(vs[0], s[0]);
      DigitValuesCanonical(s[1..], vs[1..]);
      assert s == [s[0]] + s[1..];
    }
  }

  // ---------------------------------------------------------------------
  // Bytes and 6-bit values: three bytes make four values, most significant
  // bits first; a final one or two bytes make two or three values, the
  // unused low bits set to zero.

  function GroupValues(a: Byte, b: Byte, c: Byte): seq<Sextet>
  {
    [a / 4, a % 4 * 16 + b / 16, b % 16 * 4 + c / 64, c % 64]
  }

  /** How many values n bytes make: four per full group, one more than the bytes of a final partial group. */
  function ValuesLength(n: nat): nat
  {
    if n % 3 == 0 then n / 3 * 4 else n / 3 * 4 + n % 3 + 1
  }

  function ToValues(bytes: seq<Byte>): (vs: seq<Sextet>)
    ensures |vs| == ValuesLength(|bytes|)
    decreases |bytes|
  {
    if |bytes| == 0 then []
    else if |bytes| == 1 then [bytes[0] / 4, bytes[0] % 4 * 16]
    else if |bytes| == 2 then [bytes[0] / 4, bytes[0] % 4 * 16 + bytes[1] / 16, bytes[1] % 16 * 4]
    else GroupValues(bytes[0], bytes[1], bytes[2]) + ToValues(bytes[3..])
  }

  /** Values back to bytes; None when a final group drops bits that are not zero. */
  function FromValues(vs: seq<Sextet>): Option<seq<Byte>>
    decreases |vs|
  {
    if |vs| < 2 then (if vs == [] then Some([]) else None)
    else
      var v0: int, v1: int := vs[0], vs[1];
      if |vs| == 2 then
        if v1 % 16 == 0 then Some([v0 * 4 + v1 / 16]) else None
      else
        var v2: int := vs[2];
        if |vs| == 3 then
          if v2 % 4 == 0 then Some([v0 * 4 + v1 / 16, v1 % 16 * 16 + v2 / 4]) else None
        else
          var v3: int := vs[3];
          var rest :- FromValues(vs[4..]);
          Some([v0 * 4 + v1 / 16, v1 % 16 * 16 + v2 / 4, v2 % 4 * 64 + v3] + rest)
  }

  lemma GroupArithmetic(a: Byte, b: Byte, c: Byte)
    ensures var vs := GroupValues(a, b, c);
      var v0: int, v1: int, v2: int, v3: int := vs[0], vs[1], vs[2], vs[3];
      v0 * 4 + v1 / 16 == a && v1 % 16 * 16 + v2 / 4 == b && v2 % 4 * 64 + v3 == c
  {
    assert (a % 4 * 16 + b / 16) / 16 == a % 4;
    assert (b % 16 * 4 + c / 64) / 4 == b % 16;
  }

  lemma {:induction false} FromToValues(bytes: seq<Byte>)
    ensures FromValues(ToValues(bytes)) == Some(bytes)
    decreases |bytes|
  {
    if |bytes| == 1 {
      assert bytes == [bytes[0]];
    } else if |bytes| == 2 {
      assert (bytes[0] % 4 * 16 + bytes[1] / 16) / 16 == bytes[0] % 4;
      assert bytes == [bytes[0], bytes[1]];
    } else if |bytes| > 2 {
      FromToValues(bytes[3..]);
      FromGroup(bytes[0], bytes[1], bytes[2], ToValues(bytes[3..]), bytes[3..]);
      FirstThree(bytes);
    }
  }

  /** Four values of a full group in front of values that read back, read back. */
  lemma FromGroup(a: Byte, b: Byte, c: Byte, vs: seq<Sextet>, tail: seq<Byte>)
    requires FromValues(vs) == Some(tail)
    ensures FromValues(GroupValues(a, b, c) + vs) == Some([a, b, c] + tail)
  {
    var all := GroupValues(a, b, c) + vs;
    assert all[4..] == vs;
    GroupArithmetic(a, b, c);
  }

  lemma FirstThree<T>(s: seq<T>)
    requires |s| >= 3
    ensures s == [s[0], s[1], s[2]] + s[3..]
  {
  }

  lemma GroupCanonical(v0: Sextet, v1: Sextet, v2: Sextet, v3: Sextet)
    ensures var a, b, c := v0 * 4 + v1 / 16, v1 % 16 * 16 + v2 / 4, v2 % 4 * 64 + v3;
      0 <= a < 256 && 0 <= b < 256 && 0 <= c < 256 && GroupValues(a, b, c) == [v0, v1, v2, v3]
  {
    var a: int, b: int, c: int := v0 * 4 + v1 / 16, v1 % 16 * 16 + v2 / 4, v2 % 4 * 64 + v3;
    assert a / 4 == v0;
    assert a % 4 * 16 + b / 16 == v1;
    assert b % 16 * 4 + c / 64 == v2;
    assert c % 64 == v3;
  }

  lemma PairArithmetic(v0: Sextet, v1: Sextet)
    requires v1 % 16 == 0
    ensures var a: int := v0 * 4 + v1 / 16;
      0 <= a < 256 && a / 4 == v0 && a % 4 * 16 == v1
  {
  }

  lemma TripleArithmetic(v0: Sextet, v1: Sextet, v2: Sextet)
    requires v2 % 4 == 0
    ensures var a: int, b: int := v0 * 4 + v1 / 16, v1 % 16 * 16 + v2 / 4;
      && 0 <= a < 256 && 0 <= b < 256
      && a / 4 == v0 && a % 4 * 16 + b / 16 == v1 && b % 16 * 4 == v2
  {
    var a: int, b: int := v0 * 4 + v1 / 16, v1 % 16 * 16 + v2 / 4;
    assert a % 4 == v1 / 16;
    assert b / 16 == v1 % 16;
  }

  lemma TailCanonical(vs: seq<Sextet>, bytes: seq<Byte>)
    requires 2 <= |vs| <= 3 && FromValues(vs) == Some(bytes)
    ensures ToValues(bytes) == vs
  {
    if |vs| == 2 {
      PairCanonical(vs, bytes);
    } else {
      TripleCanonical(vs, bytes);
    }
  }

  lemma PairCanonical(vs: seq<Sextet>, bytes: seq<Byte>)
    requires |vs| == 2 && FromValues(vs) == Some(bytes)
    ensures ToValues(bytes) == vs
  {
    var v0: int, v1: int := vs[0], vs[1];
    assert v1 % 16 == 0 && bytes == [v0 * 4 + v1 / 16];
    PairArithmetic(vs[0], vs[1]);
    assert ToValues(bytes) == [bytes[0] / 4, bytes[0] % 4 * 16];
    assert vs == [vs[0], vs[1]];
  }

  lemma TripleCanonical(vs: seq<Sextet>, bytes: seq<Byte>)
    requires |vs| == 3 && FromValues(vs) == Some(bytes)
    ensures ToValues(bytes) == vs
  {
    var v0: int, v1: int, v2: int := vs[0], vs[1], vs[2];
    assert v2 % 4 == 0 && bytes == [v0 * 4 + v1 / 16, v1 % 16 * 16 + v2 / 4];
    TripleArithmetic(vs[0], vs[1], vs[2]);
    assert ToValues(bytes) == [bytes[0] / 4, bytes[0] % 4 * 16 + bytes[1] / 16, bytes[1] % 16 * 4];
    assert vs == [vs[0], vs[1], vs[2]];
  }

  lemma {:induction false} ToFromValues(vs: seq<Sextet>, bytes: seq<Byte>)
    requires FromValues(vs) == Some(bytes)
    ensures ToValues(bytes) == vs
    decreases |vs|
  {
    if 2 <= |vs| <= 3 {
      TailCanonical(vs, bytes);
    } else if |vs| > 3 {
      var rest := FromValues(vs[4..]).value;
      ToFromValues(vs[4..], rest);
      GroupCanonical(vs[0], vs[1], vs[2], vs[3]);
      assert bytes[3..] == rest;
      assert vs == [vs[0], vs[1], vs[2], vs[3]] + vs[4..];
    }
  }

  // ---------------------------------------------------------------------
  // Whole texts: digits followed by the padding that makes the length a
  // multiple of four.

  /** The pad characters that follow the digits of an encoded byte string of length n. */
  function Padding(n: nat): (pad: string)
    ensures |pad| == (3 - n % 3) % 3
    ensures forall i | 0 <= i < |pad| :: pad[i] == '='
  {
    if n % 3 == 1 then "==" else if n % 3 == 2 then "=" else ""
  }

  /** Buffer.toString('base64'): four characters for every started group of three bytes. */
  function Encode(bytes: seq<Byte>): (s: string)
  {
    DigitString(ToValues(bytes)) + Padding(|bytes|)
  }

  /** The number of pad characters at the end of a text, at most two. */
  function PadCount(s: string): (n: nat)
    ensures n <= 2 && n <= |s|
  {
    if |s| >= 2 && s[|s| - 1] == '=' && s[|s| - 2] == '=' then 2
    else if |s| >= 1 && s[|s| - 1] == '=' then 1
    else 0
  }

  /** Strict decoding of padded base64 text. */
  function Decode(s: string): (r: Option<seq<Byte>>)
  {
    if |s| % 4 != 0 then None
    else
      var vs :- DigitValues(s[..|s| - PadCount(s)]);
      FromValues(vs)
  }

  lemma {:induction false} LastDigit(vs: seq<Sextet>)
    requires |vs| > 0
    ensures DigitString(vs)[|vs| - 1] == DigitChar(vs[|vs| - 1])
  {
    if |vs| > 1 {
      LastDigit(vs[1..]);
    }
  }

  /** A digit string never ends in a pad character. */
  lemma NoPadAtEnd(vs: seq<Sextet>)
    ensures |vs| > 0 ==> DigitString(vs)[|vs| - 1] != '='
  {
    if |vs| > 0 {
      DigitRoundTrip(vs[|vs| - 1], '=');
      LastDigit(vs);
    }
  }

  lemma PadCountAfter(d: string, pad: string)
    requires |d| > 0 ==> d[|d| - 1] != '='
    requires |pad| <= 2 && forall i | 0 <= i < |pad| :: pad[i] == '='
    ensures PadCount(d + pad) == |pad|
    ensures (d + pad)[..|d|] == d
  {
    var s := d + pad;
    assert s[..|d|] == d;
    if |pad| == 0 {
      assert s == d;
    } else if |pad| == 1 {
      assert s[|s| - 1] == '=';
      assert |s| >= 2 ==> s[|s| - 2] == d[|d| - 1];
    } else {
      assert s[|s| - 1] == '=' && s[|s| - 2] == '=';
    }
  }

  lemma EncodeShape(bytes: seq<Byte>)
    ensures |Encode(bytes)| % 4 == 0
    ensures PadCount(Encode(bytes)) == |Padding(|bytes|)|
    ensures Encode(bytes)[..|Encode(bytes)| - PadCount(Encode(bytes))] == DigitString(ToValues(bytes))
  {
    var d, pad := DigitString(ToValues(bytes)), Padding(|bytes|);
    assert Encode(bytes) == d + pad;
    assert (|d| + |pad|) % 4 == 0 by {
      TextLength(|bytes|);
    }
    NoPadAtEnd(ToValues(bytes));
    PadCountAfter(d, pad);
  }

  /** An encoding of n bytes is four characters for every started group of three. */
  lemma TextLength(n: nat)
    ensures ValuesLength(n) + |Padding(n)| == 4 * ((n + 2) / 3)
    ensures (ValuesLength(n) + |Padding(n)|) % 4 == 0
  {
    var k := n / 3;
    if n % 3 == 0 {
      assert ValuesLength(n) + |Padding(n)| == 4 * k;
    } else {
      assert ValuesLength(n) + |Padding(n)| == 4 * k + 4;
    }
  }

  /** Decoding undoes encoding. */
  lemma DecodeEncode(bytes: seq<Byte>)
    ensures Decode(Encode(bytes)) == Some(bytes)
  {
    EncodeShape(bytes);
    DigitStringRoundTrip(ToValues(bytes));
    FromToValues(bytes);
  }

  /** The pad characters Decode strips are those Encode would put back. */
  lemma PaddingOfDecoded(s: string, n: nat)
    requires |s| % 4 == 0 && |s| - PadCount(s) == ValuesLength(n)
    ensures s[|s| - PadCount(s)..] == Padding(n)
  {
    var p := PadCount(s);
    var k := n / 3;
    var m := |s| / 4;
    assert |s| == 4 * m;
    if n % 3 == 0 {
      assert p == 4 * (m - k) && 0 <= p <= 2;
      assert m - k == 0;
      assert s[|s| - p..] == [];
    } else if n % 3 == 1 {
      assert p == 4 * (m - k) - 2 && 0 <= p <= 2;
      assert m - k == 1;
      assert s[|s| - p..] == [s[|s| - 2], s[|s| - 1]];
    } else {
      assert p == 4 * (m - k) - 3 && 0 <= p <= 2;
      assert m - k == 1;
      assert s[|s| - p..] == [s[|s| - 1]];
    }
  }

  /** Decoding succeeds only on the one canonical encoding of its result. */
  lemma EncodeDecode(s: string, bytes: seq<Byte>)
    requires Decode(s) == Some(bytes)
    ensures Encode(bytes) == s
  {
    var k := |s| - PadCount(s);
    DecodeParts(s);
    var vs := DigitValues(s[..k]).value;
    DigitValuesCanonical(s[..k], vs);
    ToFromValues(vs, bytes);
    PaddingOfDecoded(s, |bytes|);
    SplitAt(s, k);
  }

  /** What a successful Decode has checked and computed. */
  lemma DecodeParts(s: string)
    requires Decode(s).Some?
    ensures |s| % 4 == 0 && DigitValues(s[..|s| - PadCount(s)]).Some?
    ensures FromValues(DigitValues(s[..|s| - PadCount(s)]).value) == Decode(s)
  {
  }

  lemma SplitAt<T>(s: seq<T>, k: nat)
    requires k <= |s|
    ensures s == s[..k] + s[k..]
  {
  }

  /** The example of the alphabet's bit order: "Man" is "TWFu". */
  lemma EncodeFullGroup()
    ensures Encode([77, 97, 110]) == "TWFu"
  {
  }

  /** A test vector of section 10 of RFC 4648, with a final group of one byte. */
  lemma EncodePaddedGroup()
    ensures Encode([102, 111, 111, 98]) == "Zm9vYg=="
  {
  }

  /** The if-and-only-if form: Decode is exactly the inverse of Encode. */
  lemma DecodeIsInverse(s: string, bytes: seq<Byte>)
    ensures Decode(s) == Some(bytes) <==> Encode(bytes) == s
  {
    if Decode(s) == Some(bytes) {
      EncodeDecode(s, bytes);
    }
    if Encode(bytes) == s {
      DecodeEncode(bytes);
    }
  }
}
