/** UTF-8 and percent-encoding, with decoders that accept nothing else. */
module Utf8 {
  import opened Options
  import Text

  type Bytes = seq<int>

  function EncodeChar(c: char): Bytes {
    var n := c as int;
    if n < 0x80 then [n]
    else if n < 0x800 then [0xC0 + n / 64, 0x80 + n % 64]
    else if n < 0x1_0000 then [0xE0 + n / 4096, 0x80 + n / 64 % 64, 0x80 + n % 64]
    else [0xF0 + n / 262144, 0x80 + n / 4096 % 64, 0x80 + n / 64 % 64, 0x80 + n % 64]
  }

  function Encode(s: string): Bytes {
    if s == "" then [] else EncodeChar(s[0]) + Encode(s[1..])
  }

  predicate IsTail(b: int) {
    0x80 <= b < 0xC0
  }

  /** A code point that is a Unicode scalar value. */
  predicate IsScalar(n: int) {
    0 <= n < 0xD800 || 0xE000 <= n < 0x11_0000
  }

  /** The first character of well-formed UTF-8, and how many bytes it takes. */
  function DecodeFirst(b: Bytes): Option<(char, nat)>
    requires b != []
  {
    if 0 <= b[0] < 0x80 then Some((b[0] as char, 1))
    else if 0xC0 <= b[0] < 0xE0 && |b| >= 2 && IsTail(b[1]) then
      var n := (b[0] - 0xC0) * 64 + (b[1] - 0x80);
      if 0x80 <= n then Some((n as char, 2)) else None
    else if 0xE0 <= b[0] < 0xF0 && |b| >= 3 && IsTail(b[1]) && IsTail(b[2]) then
      var n := (b[0] - 0xE0) * 4096 + (b[1] - 0x80) * 64 + (b[2] - 0x80);
      if 0x800 <= n && IsScalar(n) then Some((n as char, 3)) else None
    else if 0xF0 <= b[0] < 0xF8 && |b| >= 4 && IsTail(b[1]) && IsTail(b[2]) && IsTail(b[3]) then
      var n := (b[0] - 0xF0) * 262144 + (b[1] - 0x80) * 4096 + (b[2] - 0x80) * 64 + (b[3] - 0x80);
      if 0x1_0000 <= n && IsScalar(n) then Some((n as char, 4)) else None
    else None
  }

  function Decode(b: Bytes): Option<string>
    decreases |b|
  {
    if b == [] then Some("")
    else
      match DecodeFirst(b)
      case None => None
      case Some((c, n)) =>
        if n > |b| then None
        else
          match Decode(b[n..])
          case None => None
          case Some(rest) => Some([c] + rest)
  }

  lemma BytesInRange(c: char)
    ensures forall i | 0 <= i < |EncodeChar(c)| :: 0 <= EncodeChar(c)[i] < 256
  {
  }

  lemma SplitBy64(n: int)
    requires 0 <= n
    ensures n == n / 64 * 64 + n % 64
    ensures n / 4096 == n / 64 / 64 && n / 262144 == n / 4096 / 64
    ensures n / 64 == n / 4096 * 64 + n / 64 % 64
    ensures n / 4096 == n / 262144 * 64 + n / 4096 % 64
  {
  }

  lemma DecodeFirstOf(c: char, rest: Bytes)
    ensures DecodeFirst(EncodeChar(c) + rest) == Some((c, |EncodeChar(c)|))
  {
    var n := c as int;
    SplitBy64(n);
    var b := EncodeChar(c) + rest;
    if n < 0x80 {
    } else if n < 0x800 {
      assert b[0] == 0xC0 + n / 64 && b[1] == 0x80 + n % 64;
    } else if n < 0x1_0000 {
      assert b[0] == 0xE0 + n / 4096 && b[1] == 0x80 + n / 64 % 64 && b[2] == 0x80 + n % 64;
    } else {
      assert b[0] == 0xF0 + n / 262144 && b[1] == 0x80 + n / 4096 % 64
          && b[2] == 0x80 + n / 64 % 64 && b[3] == 0x80 + n % 64;
    }
  }

  /** Decoding undoes encoding, for every string of scalar values. */
  lemma {:induction false} DecodeEncode(s: string)
    ensures Decode(Encode(s)) == Some(s)
  {
    if s != "" {
      DecodeEncode(s[1..]);
      DecodeFirstOf(s[0], Encode(s[1..]));
      hide DecodeFirst, EncodeChar;
      var b := Encode(s);
      assert b == EncodeChar(s[0]) + Encode(s[1..]);
      assert b[|EncodeChar(s[0])|..] == Encode(s[1..]);
      EncodeCharNonempty(s[0]);
      assert [s[0]] + s[1..] == s;
    }
  }

  lemma EncodeCharNonempty(c: char)
    ensures EncodeChar(c) != []
  {
  }

  // ---------------------------------------------------------------- percent-encoding

  predicate IsAlnum(n: int) {
    0x30 <= n <= 0x39 || 0x41 <= n <= 0x5A || 0x61 <= n <= 0x7A
  }

  /** The bytes that `quote(..., safe="")` leaves alone: alphanumerics and `_.-~`. */
  predicate Unreserved(n: int) {
    IsAlnum(n) || n == 0x5F || n == 0x2E || n == 0x2D || n == 0x7E
  }

  /** attr-char of RFC 5987, section 3.2.1. */
  predicate IsAttrChar(c: char) {
    IsAlnum(c as int) || c in "!#$&+-.^_`|~"
  }

  const HEX: string := "0123456789ABCDEF"

  function HexValue(c: char): Option<int> {
    if '0' <= c <= '9' then Some(c as int - 0x30)
    else if 'A' <= c <= 'F' then Some(c as int - 0x41 + 10)
    else if 'a' <= c <= 'f' then Some(c as int - 0x61 + 10)
    else None
  }

  function QuoteByte(b: int): string
    requires 0 <= b < 256
  {
    if Unreserved(b) then [b as char] else ['%', HEX[b / 16], HEX[b % 16]]
  }

  function QuoteBytes(b: Bytes): string
    requires forall i | 0 <= i < |b| :: 0 <= b[i] < 256
  {
    if b == [] then "" else QuoteByte(b[0]) + QuoteBytes(b[1..])
  }

  lemma {:induction false} EncodeInRange(s: string)
    ensures forall i | 0 <= i < |Encode(s)| :: 0 <= Encode(s)[i] < 256
  {
    if s != "" {
      BytesInRange(s[0]);
      EncodeInRange(s[1..]);
      hide EncodeChar;
    }
  }

  /** `urllib.parse.quote(s, safe="")`. */
  function Quote(s: string): string {
    EncodeInRange(s);
    QuoteBytes(Encode(s))
  }

  /** The bytes of an ext-value: attr-chars stand for themselves, `%XX` for a byte, nothing else is allowed. */
  function Unquote(s: string): Option<Bytes>
    decreases |s|
  {
    if s == "" then Some([])
    else if s[0] == '%' then
      if |s| < 3 || HexValue(s[1]).None? || HexValue(s[2]).None? then None
      else
        match Unquote(s[3..])
        case None => None
        case Some(rest) => Some([HexValue(s[1]).value * 16 + HexValue(s[2]).value] + rest)
    else if IsAttrChar(s[0]) then
      match Unquote(s[1..])
      case None => None
      case Some(rest) => Some([s[0] as int] + rest)
    else None
  }

  lemma HexRoundTrip(n: int)
    requires 0 <= n < 16
    ensures HexValue(HEX[n]) == Some(n)
  {
  }

  lemma UnquoteByte(b: int, rest: string)
    requires 0 <= b < 256
    ensures Unquote(QuoteByte(b) + rest) ==
      match Unquote(rest) case None => None case Some(r) => Some([b] + r)
  {
    var s := QuoteByte(b) + rest;
    if Unreserved(b) {
      AttrCharOf(b);
      assert s[0] == b as char && s[1..] == rest;
    } else {
      HexRoundTrip(b / 16);
      HexRoundTrip(b % 16);
      assert s[0] == '%' && s[1] == HEX[b / 16] && s[2] == HEX[b % 16] && s[3..] == rest;
    }
  }

  lemma AttrCharOf(b: int)
    requires 0 <= b < 256 && Unreserved(b)
    ensures IsAttrChar(b as char) && b as char != '%'
  {
  }

  lemma {:induction false} UnquoteQuoteBytes(b: Bytes)
    requires forall i | 0 <= i < |b| :: 0 <= b[i] < 256
    ensures Unquote(QuoteBytes(b)) == Some(b)
  {
    hide QuoteByte;
    if b != [] {
      UnquoteQuoteBytes(b[1..]);
      UnquoteByte(b[0], QuoteBytes(b[1..]));
      assert [b[0]] + b[1..] == b;
    }
  }

  /** The bytes behind a quoted string are its UTF-8, and so is what they decode to. */
  lemma QuoteRoundTrip(s: string)
    ensures Unquote(Quote(s)) == Some(Encode(s))
    ensures Decode(Encode(s)) == Some(s)
  {
    EncodeInRange(s);
    UnquoteQuoteBytes(Encode(s));
    DecodeEncode(s);
  }

  /** Nothing but attr-chars and percent signs gets through: a quote or backslash never does. */
  lemma {:induction false} UnquoteAlphabet(s: string)
    requires Unquote(s).Some?
    ensures forall i | 0 <= i < |s| :: IsAttrChar(s[i]) || s[i] == '%'
    decreases |s|
  {
    if s != "" {
      if s[0] == '%' {
        UnquoteAlphabet(s[3..]);
        HexIsAttr(s[1]);
        HexIsAttr(s[2]);
        forall i | 0 <= i < |s| ensures IsAttrChar(s[i]) || s[i] == '%' {
          assert i < 3 || s[i] == s[3..][i - 3];
        }
      } else {
        UnquoteAlphabet(s[1..]);
        forall i | 0 <= i < |s| ensures IsAttrChar(s[i]) || s[i] == '%' {
          assert i == 0 || s[i] == s[1..][i - 1];
        }
      }
    }
  }

  lemma HexIsAttr(c: char)
    requires HexValue(c).Some?
    ensures IsAttrChar(c)
  {
  }

  /** attr-char is a token character of RFC 2616 other than `*`, `'` and `%`. */
  lemma AttrCharIsToken(c: char)
    ensures IsAttrChar(c) <==>
            0x21 <= c as int <= 0x7E && c !in "()<>@,;:\\\"/[]?={}" && c !in "*'%"
  {
  }

  /** What `quote` leaves alone: digits, letters of either case, and four more. */
  lemma UnreservedAre(b: int)
    requires 0 <= b < 0x80
    ensures Unreserved(b) <==>
            Text.IsDigit(b as char) || 'a' <= Text.LowerChar(b as char) <= 'z' || b as char in "-._~"
  {
  }

  /** Known encodings of one, two, three and four bytes. */
  lemma KnownEncodings()
    ensures EncodeChar('z') == [0x7A]
    ensures EncodeChar(0xE9 as char) == [0xC3, 0xA9]
    ensures EncodeChar(0x20AC as char) == [0xE2, 0x82, 0xAC]
    ensures EncodeChar(0x1F600 as char) == [0xF0, 0x9F, 0x98, 0x80]
  {
  }

  /** How bytes are quoted: as they are, or as a percent sign and two capital hexadecimal digits. */
  lemma QuotedBytes(b: int, rest: Bytes)
    requires 0 <= b < 256 && forall i | 0 <= i < |rest| :: 0 <= rest[i] < 256
    ensures QuoteBytes([]) == ""
    ensures Unreserved(b) ==> QuoteBytes([b] + rest) == [b as char] + QuoteBytes(rest)
    ensures !Unreserved(b) ==>
              QuoteBytes([b] + rest)
              == ['%', "0123456789ABCDEF"[b / 16], "0123456789ABCDEF"[b % 16]] + QuoteBytes(rest)
  {
    assert ([b] + rest)[1..] == rest;
    hide Unreserved;
  }
}
