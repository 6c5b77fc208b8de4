/**
 * The application/x-www-form-urlencoded byte serializer of section 5.2 of
 * the WHATWG URL Standard, which the DNS client uses to put "ip hostname"
 * into a URL path segment, together with the standard's parser as its
 * inverse.
 *
 * The serializer works on the UTF-8 bytes of its input: a space becomes
 * `+`, ASCII letters, digits and `*-._` are kept, and every other byte
 * becomes `%` followed by two upper-case hexadecimal digits.
 */
module FormUrlEncoded {
  import opened Common

  /** A UTF-8 continuation byte, carrying six bits of the scalar value. */
  predicate Continuation(b: byte) {
    0x80 <= b < 0xC0
  }

  /**
   * The UTF-8 bytes of one Unicode scalar value: the lead byte fixes the
   * length, and the payload bits of the lead and continuation bytes, read
   * most significant first, give back the scalar value.
   */
  function Utf8Char(c: char): (bs: seq<byte>)
    ensures 1 <= |bs| <= 4
    ensures |bs| == 1 <==> (c as int) < 0x80
    ensures |bs| == 2 <==> 0x80 <= (c as int) < 0x800
    ensures |bs| == 3 <==> 0x800 <= (c as int) < 0x1_0000
    ensures |bs| == 1 ==> bs[0] == c as int
    ensures |bs| == 2 ==>
              0xC0 <= bs[0] < 0xE0 && Continuation(bs[1]) &&
              (bs[0] as int - 0xC0) * 0x40 + (bs[1] as int - 0x80) == c as int
    ensures |bs| == 3 ==>
              0xE0 <= bs[0] < 0xF0 && Continuation(bs[1]) && Continuation(bs[2]) &&
              (bs[0] as int - 0xE0) * 0x1000 + (bs[1] as int - 0x80) * 0x40 + (bs[2] as int - 0x80) == c as int
    ensures |bs| == 4 ==>
              0xF0 <= bs[0] < 0xF8 && Continuation(bs[1]) && Continuation(bs[2]) && Continuation(bs[3]) &&
              (bs[0] as int - 0xF0) * 0x4_0000 + (bs[1] as int - 0x80) * 0x1000 + (bs[2] as int - 0x80) * 0x40 + (bs[3] as int - 0x80) == c as int
  {
    // n is split into six-bit groups: n == ((n3 * 0x40 + g2) * 0x40 + g1) * 0x40 + g0.
    var n := c as int;
    var n1, g0 := n / 0x40, n % 0x40;
    var n2, g1 := n1 / 0x40, n1 % 0x40;
    var n3, g2 := n2 / 0x40, n2 % 0x40;
    if n < 0x80 then [n]
    else if n < 0x800 then [0xC0 + n1, 0x80 + g0]
    else if n < 0x1_0000 then [0xE0 + n2, 0x80 + g1, 0x80 + g0]
    else assert n3 < 0x08; [0xF0 + n3, 0x80 + g2, 0x80 + g1, 0x80 + g0]
  }

  /** The UTF-8 bytes of a string (`str::as_bytes`). */
  function Utf8(s: string): seq<byte> {
    if |s| == 0 then [] else Utf8Char(s[0]) + Utf8(s[1..])
  }

  const Space: byte := 0x20
  const Plus: byte := 0x2B
  const Percent: byte := 0x25

  /** The bytes the serializer keeps as they are: `*`, `-`, `.`, `_`, digits and ASCII letters. */
  predicate Unreserved(b: byte) {
    b == 0x2A || b == 0x2D || b == 0x2E || b == 0x5F ||
    0x30 <= b <= 0x39 || 0x41 <= b <= 0x5A || 0x61 <= b <= 0x7A
  }

  /** The bytes that can appear in serialized output. */
  predicate SerializedByte(b: byte) {
    Unreserved(b) || b == Plus || b == Percent
  }

  /** Upper-case hexadecimal digit for a value below 16. */
  function HexDigit(n: nat): (b: byte)
    requires n < 16
    ensures Unreserved(b) && IsHex(b) && HexValue(b) == n
  {
    if n < 10 then 0x30 + n else 0x41 + (n - 10)
  }

  predicate IsHex(b: byte) {
    0x30 <= b <= 0x39 || 0x41 <= b <= 0x46 || 0x61 <= b <= 0x66
  }

  function HexValue(b: byte): (n: nat)
    requires IsHex(b)
    ensures n < 16
  {
    if b <= 0x39 then b - 0x30 else if b <= 0x46 then b - 0x41 + 10 else b - 0x61 + 10
  }

  /** The serialization of one byte. */
  function EncodeByte(b: byte): (r: seq<byte>)
    ensures forall i :: 0 <= i < |r| ==> SerializedByte(r[i])
  {
    if b == Space then [Plus]
    else if Unreserved(b) then [b]
    else [Percent, HexDigit(b / 16), HexDigit(b % 16)]
  }

  /** `form_urlencoded::byte_serialize`, as bytes. */
  function ByteSerialize(bs: seq<byte>): (r: seq<byte>)
    ensures forall i :: 0 <= i < |r| ==> SerializedByte(r[i])
  {
    if |bs| == 0 then [] else EncodeByte(bs[0]) + ByteSerialize(bs[1..])
  }

  /**
   * The standard's parser for one name or value: `+` reads as a space, and
   * `%` followed by two hexadecimal digits reads as the byte they denote.
   */
  function Decode(bs: seq<byte>): seq<byte> {
    if |bs| == 0 then []
    else if bs[0] == Plus then [Space] + Decode(bs[1..])
    else if bs[0] == Percent && |bs| >= 3 && IsHex(bs[1]) && IsHex(bs[2]) then
      [HexValue(bs[1]) * 16 + HexValue(bs[2])] + Decode(bs[3..])
    else [bs[0]] + Decode(bs[1..])
  }

  /** ASCII bytes read as characters. */
  function AsciiText(bs: seq<byte>): (s: string)
    ensures |s| == |bs| && forall i :: 0 <= i < |bs| ==> s[i] as int == bs[i]
  {
    seq(|bs|, i requires 0 <= i < |bs| => bs[i] as char)
  }

  /** The serialized form of a string, as it is placed into a URL. */
  function FormEncode(s: string): (r: string)
    ensures forall i :: 0 <= i < |r| ==> (r[i] as int) < 256 && SerializedByte(r[i] as int)
  {
    AsciiText(ByteSerialize(Utf8(s)))
  }

  // ---------------------------------------------------------------------
  // Round trip and structure.

  /** The lead byte tells how long a character's encoding is, so the first character of an encoding is fixed. */
  lemma Utf8CharPrefix(c: char, d: char, rest: seq<byte>, rest': seq<byte>)
    requires Utf8Char(c) + rest == Utf8Char(d) + rest'
    ensures c == d && rest == rest'
  {
    var x, y := Utf8Char(c), Utf8Char(d);
    var w := x + rest;
    assert w[0] == x[0] == y[0];
    assert |x| == |y|;
    assert forall i :: 0 <= i < |x| ==> x[i] == w[i] == y[i];
    assert rest == w[|x|..] == rest';
  }

  /** Distinct strings have distinct UTF-8 encodings. */
  lemma {:induction false} Utf8Injective(s: string, t: string)
    ensures Utf8(s) == Utf8(t) <==> s == t
  {
    if Utf8(s) == Utf8(t) && |s| > 0 && |t| > 0 {
      Utf8CharPrefix(s[0], t[0], Utf8(s[1..]), Utf8(t[1..]));
      Utf8Injective(s[1..], t[1..]);
      assert s == [s[0]] + s[1..] && t == [t[0]] + t[1..];
    }
  }

  lemma DecodeEncodeByte(b: byte, rest: seq<byte>)
    ensures Decode(EncodeByte(b) + rest) == [b] + Decode(rest)
  {
    var e := EncodeByte(b) + rest;
    if b == Space {
      assert e[1..] == rest;
    } else if Unreserved(b) {
      assert e[1..] == rest;
    } else {
      assert e[3..] == rest;
      assert HexValue(e[1]) * 16 + HexValue(e[2]) == b / 16 * 16 + b % 16;
    }
  }

  /** Parsing undoes serialization: no byte is lost or changed. */
  lemma {:induction false} DecodeByteSerialize(bs: seq<byte>)
    ensures Decode(ByteSerialize(bs)) == bs
  {
    if |bs| > 0 {
      DecodeEncodeByte(bs[0], ByteSerialize(bs[1..]));
      DecodeByteSerialize(bs[1..]);
    }
  }

  /** Serialization is injective: distinct byte strings never share an encoding. */
  lemma ByteSerializeInjective(xs: seq<byte>, ys: seq<byte>)
    ensures ByteSerialize(xs) == ByteSerialize(ys) <==> xs == ys
  {
    DecodeByteSerialize(xs);
    DecodeByteSerialize(ys);
  }

  lemma {:induction false} Utf8Append(a: string, b: string)
    ensures Utf8(a + b) == Utf8(a) + Utf8(b)
  {
    if |a| > 0 {
      assert (a + b)[0] == a[0] && (a + b)[1..] == a[1..] + b;
      Utf8Append(a[1..], b);
    } else {
      assert a + b == b;
    }
  }

  lemma {:induction false} ByteSerializeAppend(xs: seq<byte>, ys: seq<byte>)
    ensures ByteSerialize(xs + ys) == ByteSerialize(xs) + ByteSerialize(ys)
  {
    if |xs| > 0 {
      assert (xs + ys)[0] == xs[0] && (xs + ys)[1..] == xs[1..] + ys;
      ByteSerializeAppend(xs[1..], ys);
    } else {
      assert xs + ys == ys;
    }
  }

  lemma SpaceBytes()
    ensures Utf8(" ") == [Space]
  {
    assert Utf8Char(' ') == [Space];
    assert " "[1..] == [];
  }

  /** Serializing "a b" gives the serialization of a, then `+`, then that of b. */
  lemma FormEncodeSpace(a: string, b: string)
    ensures FormEncode(a + " " + b) == FormEncode(a) + "+" + FormEncode(b)
  {
    Utf8Append(a + " ", b);
    Utf8Append(a, " ");
    SpaceBytes();
    ByteSerializeAppend(Utf8(a) + [Space], Utf8(b));
    ByteSerializeAppend(Utf8(a), [Space]);
    assert ByteSerialize([Space]) == [Plus];
    var x := ByteSerialize(Utf8(a));
    var y := ByteSerialize(Utf8(b));
    assert AsciiText(x + [Plus] + y) == AsciiText(x) + "+" + AsciiText(y);
  }

  /** Distinct strings serialize differently, so a host record URL names one address and host name text. */
  lemma FormEncodeInjective(s: string, t: string)
    ensures FormEncode(s) == FormEncode(t) <==> s == t
  {
    var x, y := ByteSerialize(Utf8(s)), ByteSerialize(Utf8(t));
    if FormEncode(s) == FormEncode(t) {
      assert forall i :: 0 <= i < |x| ==> x[i] == FormEncode(s)[i] as int == y[i];
      assert x == y;
      ByteSerializeInjective(Utf8(s), Utf8(t));
      Utf8Injective(s, t);
    }
  }

  /** A string of letters, digits and `*-._` is left as it is. */
  lemma {:induction false} FormEncodeUnreserved(s: string)
    requires forall i :: 0 <= i < |s| ==> (s[i] as int) < 0x80 && Unreserved(s[i] as int)
    ensures FormEncode(s) == s
  {
    UnreservedBytes(s);
  }

  lemma {:induction false} UnreservedBytes(s: string)
    requires forall i :: 0 <= i < |s| ==> (s[i] as int) < 0x80 && Unreserved(s[i] as int)
    ensures |Utf8(s)| == |s| && forall i :: 0 <= i < |s| ==> Utf8(s)[i] == s[i] as int
    ensures ByteSerialize(Utf8(s)) == Utf8(s)
    ensures AsciiText(Utf8(s)) == s
  {
    if |s| > 0 {
      UnreservedBytes(s[1..]);
      assert Utf8(s) == [s[0] as int] + Utf8(s[1..]);
    }
  }
}
