/**
 Percent-encoding (section 2.1 of RFC 3986) over UTF-8, as JavaScript's `encodeURIComponent` (section
 19.2.6.4 of ECMA-262) and PHP's `rawurlencode` (section 2.3 of RFC 3986) apply it, with a decoder.
 */
module Percent {
  import opened Wrappers

  datatype Language = JavaScript | Php

  /** Which characters stand for themselves: a language's own set, with or without the path separator. */
  datatype Charset = Charset(language: Language, slash: bool)

  const JS: Charset := Charset(JavaScript, false)

  predicate AsciiLetterOrDigit(c: char) {
    'a' <= c <= 'z' || 'A' <= c <= 'Z' || '0' <= c <= '9'
  }

  /** Kept by JavaScript and encoded by PHP. */
  predicate JsOnly(c: char) {
    c == '!' || c == '*' || c == '\'' || c == '(' || c == ')'
  }

  predicate Keeps(charset: Charset, c: char) {
    || AsciiLetterOrDigit(c) || c == '-' || c == '_' || c == '.' || c == '~'
    || (charset.language == JavaScript && JsOnly(c))
    || (charset.slash && c == '/')
  }

  function HexDigit(n: int): char
    requires 0 <= n < 16
  {
    if n < 10 then '0' + n as char else 'A' + (n - 10) as char
  }

  function HexValue(c: char): int {
    if '0' <= c <= '9' then (c - '0') as int else if 'A' <= c <= 'F' then (c - 'A') as int + 10 else -1
  }

  function EncodeByte(b: int): (r: string)
    requires 0 <= b < 256
    ensures |r| == 3
  {
    ['%', HexDigit(b / 16), HexDigit(b % 16)]
  }

  /** The byte a percent triplet at the front of s stands for, or -1. */
  function ByteOf(s: string): int {
    if |s| >= 3 && s[0] == '%' && HexValue(s[1]) >= 0 && HexValue(s[2]) >= 0
    then 16 * HexValue(s[1]) + HexValue(s[2]) else -1
  }

  lemma HexRoundTrip(n: int)
    requires 0 <= n < 16
    ensures HexValue(HexDigit(n)) == n
  {
  }

  lemma ByteRoundTrip(b: int, rest: string)
    requires 0 <= b < 256
    ensures ByteOf(EncodeByte(b) + rest) == b
  {
    HexRoundTrip(b / 16);
    HexRoundTrip(b % 16);
  }

  type Utf8Bytes = s: seq<int> | 1 <= |s| <= 4 && forall i | 0 <= i < |s| :: 0 <= s[i] < 256 witness [0]

  function Utf8(c: char): Utf8Bytes {
    var n := c as int;
    if n < 0x80 then [n]
    else if n < 0x800 then [0xC0 + n / 64, 0x80 + n % 64]
    else if n < 0x1_0000 then [0xE0 + n / 4096, 0x80 + n / 64 % 64, 0x80 + n % 64]
    else [0xF0 + n / 262_144, 0x80 + n / 4096 % 64, 0x80 + n / 64 % 64, 0x80 + n % 64]
  }

  function EncodeBytes(bytes: seq<int>): string
    requires forall i | 0 <= i < |bytes| :: 0 <= bytes[i] < 256
  {
    if bytes == [] then "" else EncodeByte(bytes[0]) + EncodeBytes(bytes[1..])
  }

  function EncodeChar(charset: Charset, c: char): string {
    if Keeps(charset, c) then [c] else EncodeBytes(Utf8(c))
  }

  function Encode(charset: Charset, s: string): string {
    if s == "" then "" else EncodeChar(charset, s[0]) + Encode(charset, s[1..])
  }

  // ----- decoding -----

  function Scalar(n: int): Option<char> {
    if 0 <= n < 0xD800 || 0xE000 <= n < 0x11_0000 then Some(n as char) else None
  }

  /** The length of the UTF-8 sequence that a first byte announces. */
  function Width(b: int): nat {
    if b < 0xC0 then 1 else if b < 0xE0 then 2 else if b < 0xF0 then 3 else 4
  }

  function Continue(n: int, s: string): int {
    n * 64 + ByteOf(s) - 0x80
  }

  /** The first character of an encoded string and the number of characters its code takes. */
  function DecodeFirst(s: string): Option<(char, nat)>
    requires s != ""
  {
    if s[0] != '%' then Some((s[0], 1))
    else
      var b := ByteOf(s);
      var width := Width(b);
      if b < 0 || |s| < 3 * width then None
      else
        var n := if width == 1 then b
                 else if width == 2 then Continue(b - 0xC0, s[3..])
                 else if width == 3 then Continue(Continue(b - 0xE0, s[3..]), s[6..])
                 else Continue(Continue(Continue(b - 0xF0, s[3..]), s[6..]), s[9..]);
        match Scalar(n)
        case Some(c) => Some((c, 3 * width))
        case None => None
  }

  function Decode(s: string): Option<string>
    decreases |s|
  {
    if s == "" then Some("")
    else
      match DecodeFirst(s)
      case None => None
      case Some((c, taken)) =>
        if taken > |s| || taken == 0 then None
        else
          match Decode(s[taken..])
          case Some(rest) => Some([c] + rest)
          case None => None
  }

  /** Splitting a number in base 64 and putting it back. */
  lemma Base64Digits(n: int)
    requires 0 <= n
    ensures n / 64 * 64 + n % 64 == n
    ensures (n / 4096 * 64 + n / 64 % 64) * 64 + n % 64 == n
    ensures ((n / 262_144 * 64 + n / 4096 % 64) * 64 + n / 64 % 64) * 64 + n % 64 == n
  {
    var a := n / 64;
    var b := a / 64;
    assert n / 4096 == b;
    assert n / 262_144 == b / 64;
  }

  lemma {:induction false} EncodedBytesAre(bytes: seq<int>, rest: string)
    requires bytes != [] && forall i | 0 <= i < |bytes| :: 0 <= bytes[i] < 256
    ensures |EncodeBytes(bytes)| == 3 * |bytes|
    ensures ByteOf(EncodeBytes(bytes) + rest) == bytes[0]
    ensures (EncodeBytes(bytes) + rest)[0] == '%'
    ensures |bytes| > 1 ==> (EncodeBytes(bytes) + rest)[3..] == EncodeBytes(bytes[1..]) + rest
  {
    var tail := EncodeBytes(bytes[1..]);
    assert EncodeBytes(bytes) + rest == EncodeByte(bytes[0]) + (tail + rest);
    ByteRoundTrip(bytes[0], tail + rest);
    if |bytes| > 1 { EncodedBytesAre(bytes[1..], rest); }
  }

  /** The number that the bytes of one character stand for. */
  function NumberOf(bytes: Utf8Bytes): int {
    match |bytes|
    case 1 => bytes[0]
    case 2 => (bytes[0] - 0xC0) * 64 + bytes[1] - 0x80
    case 3 => ((bytes[0] - 0xE0) * 64 + bytes[1] - 0x80) * 64 + bytes[2] - 0x80
    case _ => (((bytes[0] - 0xF0) * 64 + bytes[1] - 0x80) * 64 + bytes[2] - 0x80) * 64 + bytes[3] - 0x80
  }

  lemma NumberOfUtf8(c: char)
    ensures NumberOf(Utf8(c)) == c as int && Width(Utf8(c)[0]) == |Utf8(c)| && Scalar(c as int) == Some(c)
  {
    Base64Digits(c as int);
  }

  /** The triplets of one character, read one after the other. */
  lemma TripletsAre(bytes: Utf8Bytes, rest: string)
    ensures var s := EncodeBytes(bytes) + rest;
            && |s| >= 3 * |bytes| && s[0] == '%' && ByteOf(s) == bytes[0]
            && (|bytes| > 1 ==> ByteOf(s[3..]) == bytes[1])
            && (|bytes| > 2 ==> ByteOf(s[6..]) == bytes[2])
            && (|bytes| > 3 ==> ByteOf(s[9..]) == bytes[3])
  {
    hide EncodeBytes, ByteOf;
    var s := EncodeBytes(bytes) + rest;
    EncodedBytesAre(bytes, rest);
    if |bytes| > 1 {
      EncodedBytesAre(bytes[1..], rest);
      if |bytes| > 2 {
        EncodedBytesAre(bytes[1..][1..], rest);
        assert s[6..] == s[3..][3..];
        if |bytes| > 3 {
          EncodedBytesAre(bytes[1..][1..][1..], rest);
          assert s[9..] == s[6..][3..];
        }
      }
    }
  }

  lemma FirstOfEncoded(c: char, rest: string)
    ensures var s := EncodeBytes(Utf8(c)) + rest;
            s != "" && DecodeFirst(s) == Some((c, |EncodeBytes(Utf8(c))|))
  {
    hide Utf8, EncodeBytes, ByteOf;
    NumberOfUtf8(c);
    TripletsAre(Utf8(c), rest);
    EncodedBytesAre(Utf8(c), rest);
  }

  /** Decoding undoes every encoding, character by character. */
  lemma {:induction false} DecodeEncode(charset: Charset, s: string)
    ensures Decode(Encode(charset, s)) == Some(s)
    decreases |s|
  {
    hide Utf8, EncodeBytes, DecodeFirst, Keeps;
    if s != "" {
      var c, rest := s[0], Encode(charset, s[1..]);
      var code := EncodeChar(charset, c);
      FirstOfChar(charset, c, rest);
      assert (code + rest)[|code|..] == rest;
      DecodeEncode(charset, s[1..]);
      assert [c] + s[1..] == s;
    }
  }

  lemma FirstOfChar(charset: Charset, c: char, rest: string)
    ensures var code := EncodeChar(charset, c);
            code != "" && code + rest != "" && DecodeFirst(code + rest) == Some((c, |code|))
  {
    hide Utf8, EncodeBytes;
    if !Keeps(charset, c) { FirstOfEncoded(c, rest); }
  }

  /** What an encoded string is made of. */
  predicate CodeChar(charset: Charset, c: char) {
    c == '%' || Keeps(charset, c)
  }

  lemma HexDigitIsKept(charset: Charset, n: int)
    requires 0 <= n < 16
    ensures AsciiLetterOrDigit(HexDigit(n)) && Keeps(charset, HexDigit(n))
  {
  }

  lemma {:induction false} BytesAreCode(charset: Charset, bytes: seq<int>)
    requires forall i | 0 <= i < |bytes| :: 0 <= bytes[i] < 256
    ensures forall c | c in EncodeBytes(bytes) :: c == '%' || AsciiLetterOrDigit(c)
  {
    if bytes != [] {
      HexDigitIsKept(charset, bytes[0] / 16);
      HexDigitIsKept(charset, bytes[0] % 16);
      BytesAreCode(charset, bytes[1..]);
    }
  }

  /** The encoding uses kept characters and percent signs only; a character is kept as it is. */
  lemma {:induction false} EncodedIsCode(charset: Charset, s: string)
    ensures forall c | c in Encode(charset, s) :: CodeChar(charset, c)
  {
    hide Utf8, EncodeBytes;
    if s != "" {
      EncodedIsCode(charset, s[1..]);
      BytesAreCode(charset, Utf8(s[0]));
    }
  }

  /** A kept character other than a hexadecimal digit shows in the code exactly when it is in the text. */
  lemma {:induction false} SpecialShows(charset: Charset, s: string, c: char)
    requires Keeps(charset, c) && !AsciiLetterOrDigit(c)
    ensures c in Encode(charset, s) <==> c in s
  {
    hide Utf8, EncodeBytes;
    if s != "" {
      SpecialShows(charset, s[1..], c);
      BytesAreCode(charset, Utf8(s[0]));
      assert c in s <==> c == s[0] || c in s[1..];
      assert c in Encode(charset, s) <==> c in EncodeChar(charset, s[0]) || c in Encode(charset, s[1..]);
    }
  }

  /** The two languages encode a text alike when it has none of the five characters they differ on. */
  lemma {:induction false} LanguagesAgree(slash: bool, s: string)
    requires forall c | c in s :: !JsOnly(c)
    ensures Encode(Charset(JavaScript, slash), s) == Encode(Charset(Php, slash), s)
  {
    hide Utf8, EncodeBytes;
    if s != "" {
      assert s[0] in s;
      forall c | c in s[1..] ensures !JsOnly(c) { assert c in s; }
      LanguagesAgree(slash, s[1..]);
    }
  }

  lemma {:induction false} EncodeAppends(charset: Charset, s: string, t: string)
    ensures Encode(charset, s + t) == Encode(charset, s) + Encode(charset, t)
  {
    hide EncodeChar;
    if s == "" {
      assert s + t == t;
    } else {
      assert (s + t)[0] == s[0] && (s + t)[1..] == s[1..] + t;
      EncodeAppends(charset, s[1..], t);
      assert EncodeChar(charset, s[0]) + (Encode(charset, s[1..]) + Encode(charset, t))
          == EncodeChar(charset, s[0]) + Encode(charset, s[1..]) + Encode(charset, t);
    }
  }

  // ----- which characters stand for themselves, and what the others become -----

  lemma {:induction false} EncodeGrows(charset: Charset, s: string)
    ensures |Encode(charset, s)| >= |s|
    ensures |Encode(charset, s)| == |s| ==> forall c | c in s :: Keeps(charset, c)
    ensures (forall c | c in s :: Keeps(charset, c)) ==> Encode(charset, s) == s
  {
    hide Utf8, EncodeBytes, Keeps;
    if s != "" {
      EncodeGrows(charset, s[1..]);
      assert s == [s[0]] + s[1..];
      if !Keeps(charset, s[0]) { EncodedBytesAre(Utf8(s[0]), ""); }
    }
  }

  /** A text is printed as it is exactly when it is made of the characters that its language keeps. */
  lemma PlainExactly(s: string)
    ensures Encode(JS, s) == s <==> forall c | c in s ::
              'a' <= c <= 'z' || 'A' <= c <= 'Z' || '0' <= c <= '9' || c in "-_.!~*'()"
    ensures Encode(Charset(Php, false), s) == s <==> forall c | c in s ::
              'a' <= c <= 'z' || 'A' <= c <= 'Z' || '0' <= c <= '9' || c in "-_.~"
  {
    EncodeGrows(JS, s);
    EncodeGrows(Charset(Php, false), s);
    hide Encode;
    KeptByJavaScript();
    KeptByPhp();
  }

  lemma KeptByJavaScript()
    ensures forall c :: Keeps(JS, c) <==>
              'a' <= c <= 'z' || 'A' <= c <= 'Z' || '0' <= c <= '9' || c in "-_.!~*'()"
  {
  }

  lemma KeptByPhp()
    ensures forall c :: Keeps(Charset(Php, false), c) <==>
              'a' <= c <= 'z' || 'A' <= c <= 'Z' || '0' <= c <= '9' || c in "-_.~"
  {
  }

  lemma NotKept(charset: Charset, c: char)
    requires !('a' <= c <= 'z' || 'A' <= c <= 'Z' || '0' <= c <= '9' || c in "-_.~")
    requires charset.language == JavaScript ==> c !in "!*'()"
    requires charset.slash ==> c != '/'
    ensures !Keeps(charset, c)
  {
  }

  /** A percent sign and the two upper-case hexadecimal digits of a byte. */
  function Triplet(b: int): string
    requires 0 <= b < 256
  {
    ['%', "0123456789ABCDEF"[b / 16], "0123456789ABCDEF"[b % 16]]
  }

  lemma HexDigitIs(n: int)
    requires 0 <= n < 16
    ensures HexDigit(n) == "0123456789ABCDEF"[n]
  {
  }

  lemma TripletIs(b: int)
    requires 0 <= b < 256
    ensures EncodeByte(b) == Triplet(b)
  {
    HexDigitIs(b / 16);
    HexDigitIs(b % 16);
  }

  lemma TripletsOf(bytes: Utf8Bytes)
    ensures EncodeBytes(bytes) ==
              Triplet(bytes[0]) + (if |bytes| > 1 then Triplet(bytes[1]) else "")
              + (if |bytes| > 2 then Triplet(bytes[2]) else "") + (if |bytes| > 3 then Triplet(bytes[3]) else "")
  {
    hide Triplet, EncodeByte;
    TripletIs(bytes[0]);
    if |bytes| > 1 {
      TripletIs(bytes[1]);
      assert bytes[1..][0] == bytes[1];
      if |bytes| > 2 {
        TripletIs(bytes[2]);
        assert bytes[1..][1..][0] == bytes[2];
        if |bytes| > 3 {
          TripletIs(bytes[3]);
          assert bytes[1..][1..][1..][0] == bytes[3];
        }
      }
    }
  }

  /** The triplets of a character's UTF-8 bytes: one below 0x80, two below 0x800, three below 0x10000, else four. */
  function Triplets(c: char): string {
    var n := c as int;
    if n < 0x80 then Triplet(n)
    else if n < 0x800 then Triplet(0xC0 + n / 0x40) + Triplet(0x80 + n % 0x40)
    else if n < 0x1_0000 then
      Triplet(0xE0 + n / 0x1000) + Triplet(0x80 + n / 0x40 % 0x40) + Triplet(0x80 + n % 0x40)
    else
      Triplet(0xF0 + n / 0x4_0000) + Triplet(0x80 + n / 0x1000 % 0x40) + Triplet(0x80 + n / 0x40 % 0x40)
      + Triplet(0x80 + n % 0x40)
  }

  lemma TripletsAreUtf8(c: char)
    ensures EncodeBytes(Utf8(c)) == Triplets(c)
  {
    hide EncodeBytes, Triplet;
    TripletsOf(Utf8(c));
  }

  /** Any other character becomes triplets, and a text becomes what its characters become, one after the other. */
  lemma OthersBecomeTriplets(charset: Charset, c: char, rest: string)
    requires !('a' <= c <= 'z' || 'A' <= c <= 'Z' || '0' <= c <= '9' || c in "-_.~")
    requires charset.language == JavaScript ==> c !in "!*'()"
    requires charset.slash ==> c != '/'
    ensures Encode(charset, [c] + rest) == Triplets(c) + Encode(charset, rest)
  {
    NotKept(charset, c);
    TripletsAreUtf8(c);
    hide EncodeBytes, Keeps, Triplets, Utf8;
    assert ([c] + rest)[0] == c && ([c] + rest)[1..] == rest;
  }
}
