/** Go's view of text: runes with the character classes of the Unicode tables, and the number
    of bytes each rune takes in UTF-8. A Go string is modelled by its runes. */
module Runes {

  /** The three classes that the parser asks the `unicode` package about. */
  datatype Tables = Tables(isLetter: char -> bool, isDigit: char -> bool, isSpace: char -> bool) {

    /** What every version of the Unicode tables guarantees: the classes are disjoint, and ASCII is
        classified in the usual way. */
    ghost predicate Sound() {
      && (forall c: char :: isLetter(c) ==> !isDigit(c) && !isSpace(c))
      && (forall c: char :: isDigit(c) ==> !isSpace(c))
      && (forall c: char | c <= '\U{7F}' :: isLetter(c) <==> 'a' <= c <= 'z' || 'A' <= c <= 'Z')
      && (forall c: char | c <= '\U{7F}' :: isDigit(c) <==> '0' <= c <= '9')
      && (forall c: char | c <= '\U{7F}' :: isSpace(c) <==> c == ' ' || '\t' <= c <= '\r')
    }

    predicate IsIdentStart(c: char) { isLetter(c) || c == '_' }

    predicate IsIdentPart(c: char) { isLetter(c) || isDigit(c) || c == '_' }
  }

  const ASCII_TABLES := Tables(
    c => 'a' <= c <= 'z' || 'A' <= c <= 'Z',
    c => '0' <= c <= '9',
    c => c == ' ' || '\t' <= c <= '\r')

  type Unicode = t: Tables | t.Sound() witness ASCII_TABLES

  /** Bytes of one rune in UTF-8 (section 3 of RFC 3629). */
  function Utf8Width(c: char): (n: nat)
    ensures 1 <= n <= 4
  {
    if c <= '\U{7F}' then 1 else if c <= '\U{7FF}' then 2 else if c <= '\U{FFFF}' then 3 else 4
  }

  /** `len(s)` of a Go string: its length in bytes. */
  function ByteLength(s: string): (n: nat)
    ensures |s| <= n <= 4 * |s|
  {
    if s == [] then 0 else Utf8Width(s[0]) + ByteLength(s[1..])
  }

  predicate IsAscii(s: string) { s == [] || (s[0] <= '\U{7F}' && IsAscii(s[1..])) }

  lemma {:induction false} ByteLengthConcat(a: string, b: string)
    ensures ByteLength(a + b) == ByteLength(a) + ByteLength(b)
  {
    if a == [] {
      assert a + b == b;
    } else {
      assert (a + b)[0] == a[0] && (a + b)[1..] == a[1..] + b;
      ByteLengthConcat(a[1..], b);
    }
  }

  lemma {:induction false} AsciiByteLength(s: string)
    ensures IsAscii(s) <==> ByteLength(s) == |s|
  {
    if s != [] {
      AsciiByteLength(s[1..]);
    }
  }

  // ----- the encoding behind the widths -----

  predicate IsContinuation(b: int) { 0x80 <= b < 0xC0 }

  /** The bytes are the UTF-8 encoding of rune number `n`: the table of section 3 of RFC 3629. */
  predicate Encodes(bytes: seq<int>, n: int) {
    || (|bytes| == 1 && 0 <= bytes[0] < 0x80 && n == bytes[0])
    || (|bytes| == 2 && 0xC0 <= bytes[0] < 0xE0 && IsContinuation(bytes[1])
        && n == (bytes[0] - 0xC0) * 0x40 + bytes[1] - 0x80 >= 0x80)
    || (|bytes| == 3 && 0xE0 <= bytes[0] < 0xF0 && IsContinuation(bytes[1]) && IsContinuation(bytes[2])
        && n == (bytes[0] - 0xE0) * 0x1000 + (bytes[1] - 0x80) * 0x40 + bytes[2] - 0x80 >= 0x800)
    || (|bytes| == 4 && 0xF0 <= bytes[0] < 0xF8
        && IsContinuation(bytes[1]) && IsContinuation(bytes[2]) && IsContinuation(bytes[3])
        && n == (bytes[0] - 0xF0) * 0x4_0000 + (bytes[1] - 0x80) * 0x1000 + (bytes[2] - 0x80) * 0x40 + bytes[3] - 0x80
             >= 0x1_0000)
  }

  /** The width of a rune is the length of its encoding: there is one, and all have that length. */
  lemma WidthIsEncodedLength(c: char, other: seq<int>) returns (bytes: seq<int>)
    ensures Encodes(bytes, c as int) && |bytes| == Utf8Width(c)
    ensures Encodes(other, c as int) ==> |other| == Utf8Width(c)
  {
    var n0 := c as int;
    var n1, r1 := n0 / 0x40, n0 % 0x40;
    var n2, r2 := n1 / 0x40, n1 % 0x40;
    var n3, r3 := n2 / 0x40, n2 % 0x40;
    if n0 < 0x80 {
      bytes := [n0];
    } else if n0 < 0x800 {
      bytes := [0xC0 + n1, 0x80 + r1];
    } else if n0 < 0x1_0000 {
      bytes := [0xE0 + n2, 0x80 + r2, 0x80 + r1];
    } else {
      bytes := [0xF0 + n3, 0x80 + r3, 0x80 + r2, 0x80 + r1];
    }
  }
}
