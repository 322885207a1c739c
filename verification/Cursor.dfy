/** Opaque list cursors: an offset in decimal, as UTF-8 bytes, in unpadded base64url
    (section 5 of RFC 4648). */
module Cursor {
  import opened Sequences
  import opened Decimal
  import opened Ascii

  type byte = b: int | 0 <= b < 256
  type sextet = v: int | 0 <= v < 64

  /** What Number(text) can be. Fractions are not part of this model. */
  datatype Numeric = NotANumber | Infinite | Finite(value: int)

  /** The parts of the platform that the cursor code calls. */
  datatype Platform = Platform(utf8Decode: seq<byte> -> string, number: string -> Numeric)

  function AsciiBytes(s: string): seq<byte>
    requires AllDigits(s)
  {
    seq(|s|, i requires 0 <= i < |s| => s[i] as int)
  }

  /** ASCII decodes to itself, and a run of decimal digits is the number it spells
      (section 7.1.4.1 of ECMA-262). */
  ghost predicate Conforming(p: Platform)
  {
    && (forall s :: AllDigits(s) ==> p.utf8Decode(AsciiBytes(s)) == s)
    && (forall s :: AllDigits(s) && s != "" ==> p.number(s) == Finite(Value(s)))
  }

  function CharOf(v: sextet): char
  {
    if v < 26 then 'A' + v as char
    else if v < 52 then 'a' + (v - 26) as char
    else if v < 62 then '0' + (v - 52) as char
    else if v == 62 then '-' else '_'
  }

  /** Buffer's decoder takes both alphabets and passes over anything else. */
  function SextetOf(c: char): Option<sextet>
  {
    if 'A' <= c <= 'Z' then Some(c as int - 'A' as int)
    else if 'a' <= c <= 'z' then Some(c as int - 'a' as int + 26)
    else if '0' <= c <= '9' then Some(c as int - '0' as int + 52)
    else if c == '-' || c == '+' then Some(62)
    else if c == '_' || c == '/' then Some(63)
    else None
  }

  lemma SextetOfCharOf(v: sextet)
    ensures SextetOf(CharOf(v)) == Some(v)
  {}

  function Pack(b: seq<byte>): seq<sextet>
  {
    if |b| == 0 then []
    else if |b| == 1 then [b[0] / 4, b[0] % 4 * 16]
    else if |b| == 2 then [b[0] / 4, b[0] % 4 * 16 + b[1] / 16, b[1] % 16 * 4]
    else [b[0] / 4, b[0] % 4 * 16 + b[1] / 16, b[1] % 16 * 4 + b[2] / 64, b[2] % 64] + Pack(b[3..])
  }

  function Unpack(v: seq<sextet>): seq<byte>
  {
    if |v| < 2 then []
    else if |v| == 2 then [Byte0(v[0], v[1])]
    else if |v| == 3 then [Byte0(v[0], v[1]), Byte1(v[1], v[2])]
    else [Byte0(v[0], v[1]), Byte1(v[1], v[2]), Byte2(v[2], v[3])] + Unpack(v[4..])
  }

  /** The first, second and third byte that four sextets spell. */
  function Byte0(a: int, b: int): byte
    requires 0 <= a < 64 && 0 <= b < 64
  {
    a * 4 + b / 16
  }

  function Byte1(b: int, c: int): byte
    requires 0 <= b < 64 && 0 <= c < 64
  {
    b % 16 * 16 + c / 4
  }

  function Byte2(c: int, d: int): byte
    requires 0 <= c < 64 && 0 <= d < 64
  {
    c % 4 * 64 + d
  }

  function Chars(v: seq<sextet>): string
  {
    seq(|v|, i requires 0 <= i < |v| => CharOf(v[i]))
  }

  function Sextets(s: string): seq<sextet>
  {
    if s == "" then []
    else if SextetOf(s[0]).Some? then [SextetOf(s[0]).value] + Sextets(s[1..])
    else Sextets(s[1..])
  }

  /** Buffer.from(bytes).toString("base64url") and Buffer.from(text, "base64url"). */
  function Base64UrlEncode(b: seq<byte>): string { Chars(Pack(b)) }

  function Base64UrlDecode(s: string): seq<byte> { Unpack(Sextets(s)) }

  lemma {:induction false} UnpackOfPack(b: seq<byte>)
    ensures Unpack(Pack(b)) == b
  {
    if |b| >= 3 {
      UnpackOfPack(b[3..]);
      UnpackGroup(b[0], b[1], b[2], Pack(b[3..]));
      assert b == [b[0], b[1], b[2]] + b[3..];
    } else if |b| == 2 {
      UnpackPair(b[0], b[1]);
      assert b == [b[0], b[1]];
    } else if |b| == 1 {
      UnpackSingle(b[0]);
      assert b == [b[0]];
    }
  }

  lemma UnpackSingle(a: byte)
    ensures Unpack([a / 4, a % 4 * 16]) == [a]
  {
    BytesOfGroup(a, 0, 0);
  }

  lemma UnpackPair(a: byte, b: byte)
    ensures Unpack([a / 4, a % 4 * 16 + b / 16, b % 16 * 4]) == [a, b]
  {
    BytesOfGroup(a, b, 0);
  }

  lemma UnpackGroup(a: byte, b: byte, c: byte, rest: seq<sextet>)
    ensures Unpack([a / 4, a % 4 * 16 + b / 16, b % 16 * 4 + c / 64, c % 64] + rest) == [a, b, c] + Unpack(rest)
  {
    var v: seq<sextet> := [a / 4, a % 4 * 16 + b / 16, b % 16 * 4 + c / 64, c % 64];
    BytesOfGroup(a, b, c);
    assert (v + rest)[4..] == rest;
  }

  lemma BytesOfGroup(a: int, b: int, c: int)
    requires 0 <= a < 256 && 0 <= b < 256 && 0 <= c < 256
    ensures Byte0(a / 4, a % 4 * 16 + b / 16) == a
    ensures Byte1(a % 4 * 16 + b / 16, b % 16 * 4 + c / 64) == b
    ensures Byte2(b % 16 * 4 + c / 64, c % 64) == c
  {}

  lemma {:induction false} SextetsOfChars(v: seq<sextet>)
    ensures Sextets(Chars(v)) == v
  {
    if v != [] {
      SextetOfCharOf(v[0]);
      assert Chars(v)[1..] == Chars(v[1..]);
      SextetsOfChars(v[1..]);
    }
  }

  /** Every byte string survives base64url. */
  lemma Base64UrlRoundTrip(b: seq<byte>)
    ensures Base64UrlDecode(Base64UrlEncode(b)) == b
  {
    UnpackOfPack(b);
    SextetsOfChars(Pack(b));
  }

  /** Three bytes take four characters and there is no padding. */
  lemma {:induction false} EncodedLength(b: seq<byte>)
    ensures |Base64UrlEncode(b)| == (4 * |b| + 2) / 3
  {
    if |b| >= 3 {
      EncodedLength(b[3..]);
    }
  }

  function EncodeCursor(offset: nat): string
  {
    Base64UrlEncode(AsciiBytes(Text(offset)))
  }

  /** The result type says that no text leads to a negative offset. */
  function DecodeCursor(p: Platform, cursor: Option<string>): nat
  {
    if cursor.None? || cursor.value == "" then 0
    else
      var offset := p.number(p.utf8Decode(Base64UrlDecode(cursor.value)));
      if offset.Finite? && offset.value >= 0 then offset.value else 0
  }

  /** Every cursor the service hands out leads back to its offset. */
  lemma CursorRoundTrip(p: Platform, offset: nat)
    requires Conforming(p)
    ensures EncodeCursor(offset) != ""
    ensures DecodeCursor(p, Some(EncodeCursor(offset))) == offset
  {
    var digits := Text(offset);
    Base64UrlRoundTrip(AsciiBytes(digits));
    EncodedLength(AsciiBytes(digits));
    ValueOfPadded(offset, 1);
  }

  /** Different offsets get different cursors. */
  lemma CursorInjective(p: Platform, m: nat, n: nat)
    requires Conforming(p) && EncodeCursor(m) == EncodeCursor(n)
    ensures m == n
  {
    CursorRoundTrip(p, m);
    CursorRoundTrip(p, n);
  }

  /** The base64url alphabet: capital letters, small letters, digits, '-' and '_'. */
  lemma CharsOfAlphabet(v: sextet)
    ensures |UPPER| == |LOWER| == 26 && |DIGITS| == 10
    ensures CharOf(v) == if v < 26 then UPPER[v] else if v < 52 then LOWER[v - 26]
                         else if v < 62 then DIGITS[v - 52] else if v == 62 then '-' else '_'
  {
    UpperAt(if v < 26 then v else 0);
    LowerAt(if 26 <= v < 52 then v - 26 else 0);
    DigitAt(if 52 <= v < 62 then v - 52 else 0);
  }

  /** For instance the cursor of the second page of fifty. */
  lemma CursorOfFifty()
    ensures EncodeCursor(50) == "NTA"
  {
    assert Text(5) == "5" && Text(50) == "50";
    assert AsciiBytes("50") == [53, 48];
    assert Pack([53, 48]) == [13, 19, 0];
  }

  /** What reads as no offset leads to the first page, and nothing else changes an offset. */
  lemma NoOffsetIsTheFirst(p: Platform, cursor: string)
    ensures var read := p.number(p.utf8Decode(Base64UrlDecode(cursor)));
            && DecodeCursor(p, None) == DecodeCursor(p, Some("")) == 0
            && (cursor == "" || !read.Finite? || read.value < 0 ==> DecodeCursor(p, Some(cursor)) == 0)
            && (cursor != "" && read.Finite? && read.value >= 0 ==> DecodeCursor(p, Some(cursor)) == read.value)
  {}
}
