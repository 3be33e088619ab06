/** Strict UTF-8 (section 4 of RFC 3629), as `bytes.decode("utf-8")` and `str.encode("utf-8")`
    apply it: no overlong forms, no surrogates, nothing above U+10FFFF. */
module Utf8 {
  import opened Common

  function EncodeChar(c: char): (bs: seq<byte>)
    ensures 1 <= |bs| <= 4
  {
    var n := c as int;
    if n < 0x80 then [n]
    else if n < 0x800 then [0xC0 + n / 0x40, Tail(n)]
    else if n < 0x10000 then [0xE0 + n / 0x40 / 0x40, Tail(n / 0x40), Tail(n)]
    else [0xF0 + n / 0x40 / 0x40 / 0x40, Tail(n / 0x40 / 0x40), Tail(n / 0x40), Tail(n)]
  }

  /** A continuation byte carrying the low six bits. */
  function Tail(n: int): (b: byte)
    ensures IsTail(b)
  {
    0x80 + n % 0x40
  }

  /** A code point extended by the six bits of a continuation byte. */
  function Extend(n: int, b: int): int {
    n * 0x40 + (b - 0x80)
  }

  function Encode(text: string): (bs: seq<byte>) {
    if text == [] then [] else EncodeChar(text[0]) + Encode(text[1..])
  }

  predicate IsTail(b: byte) {
    0x80 <= b < 0xC0
  }

  predicate IsScalar(n: int) {
    0 <= n < 0xD800 || 0xE000 <= n < 0x110000
  }

  /** The code point that a lead byte's payload and the tails after it spell. */
  function Point(lead: int, tails: seq<byte>): int {
    if tails == [] then lead
    else Extend(Point(lead, tails[..|tails| - 1]), tails[|tails| - 1])
  }

  /** The character at the front of `bs` and its length, if a well-formed one is there. */
  function DecodeChar(bs: seq<byte>): (r: Option<(char, nat)>)
    ensures r.Some? ==> 1 <= r.value.1 <= |bs|
  {
    if bs == [] then None
    else if bs[0] < 0x80 then Some((bs[0] as char, 1))
    else if 0xC2 <= bs[0] < 0xE0 then Multibyte(bs, bs[0] as int - 0xC0, 2, 0x80)
    else if 0xE0 <= bs[0] < 0xF0 then Multibyte(bs, bs[0] as int - 0xE0, 3, 0x800)
    else if 0xF0 <= bs[0] < 0xF5 then Multibyte(bs, bs[0] as int - 0xF0, 4, 0x10000)
    else None
  }

  /** A character of `size` bytes whose code point is at least `least` (no overlong form). */
  function Multibyte(bs: seq<byte>, lead: int, size: nat, least: nat): Option<(char, nat)>
    requires size >= 2
  {
    if |bs| >= size && forall i :: 1 <= i < size ==> IsTail(bs[i]) then
      var n := Point(lead, bs[1..size]);
      if n >= least && IsScalar(n) then Some((n as char, size)) else None
    else None
  }

  function Decode(bs: seq<byte>): Option<string> {
    if bs == [] then Some([])
    else
      match DecodeChar(bs)
      case None => None
      case Some((c, n)) =>
        match Decode(bs[n..])
        case None => None
        case Some(rest) => Some([c] + rest)
  }

  lemma ExtendInverts(n: int, b: int)
    requires 0x80 <= b < 0xC0
    ensures Extend(n, b) / 0x40 == n && Tail(Extend(n, b)) == b
  {
  }

  lemma Point1(bs: seq<byte>, lead: int)
    requires |bs| >= 2
    ensures Point(lead, bs[1..2]) == Extend(lead, bs[1])
  {
    assert bs[1..2][..0] == [];
  }

  lemma Point2(bs: seq<byte>, lead: int)
    requires |bs| >= 3
    ensures Point(lead, bs[1..3]) == Extend(Extend(lead, bs[1]), bs[2])
  {
    Point1(bs, lead);
    assert bs[1..3][..1] == bs[1..2];
  }

  lemma Point3(bs: seq<byte>, lead: int)
    requires |bs| >= 4
    ensures Point(lead, bs[1..4]) == Extend(Extend(Extend(lead, bs[1]), bs[2]), bs[3])
  {
    Point2(bs, lead);
    assert bs[1..4][..2] == bs[1..3];
  }

  lemma DecodeCharSound(bs: seq<byte>)
    requires DecodeChar(bs).Some?
    ensures var (c, n) := DecodeChar(bs).value; EncodeChar(c) == bs[..n]
  {
    var (c, n) := DecodeChar(bs).value;
    if n == 2 {
      Point1(bs, bs[0] as int - 0xC0);
      TwoBytes(c, bs[0] as int - 0xC0, bs[1]);
      assert bs[..2] == [bs[0], bs[1]];
    } else if n == 3 {
      Point2(bs, bs[0] as int - 0xE0);
      ThreeBytes(c, bs[0] as int - 0xE0, bs[1], bs[2]);
      assert bs[..3] == [bs[0], bs[1], bs[2]];
    } else if n == 4 {
      Point3(bs, bs[0] as int - 0xF0);
      FourBytes(c, bs[0] as int - 0xF0, bs[1], bs[2], bs[3]);
      assert bs[..4] == [bs[0], bs[1], bs[2], bs[3]];
    }
  }

  lemma TwoBytes(c: char, lead: nat, x: byte)
    requires lead < 0x20 && IsTail(x) && c as int == Extend(lead, x) >= 0x80
    ensures EncodeChar(c) == [0xC0 + lead, x]
  {
    ExtendInverts(lead, x);
  }

  lemma ThreeBytes(c: char, lead: nat, x: byte, y: byte)
    requires lead < 0x10 && IsTail(x) && IsTail(y) && c as int == Extend(Extend(lead, x), y) >= 0x800
    ensures EncodeChar(c) == [0xE0 + lead, x, y]
  {
    ExtendInverts(lead, x);
    ExtendInverts(Extend(lead, x), y);
  }

  lemma FourBytes(c: char, lead: nat, x: byte, y: byte, z: byte)
    requires lead < 0x08 && IsTail(x) && IsTail(y) && IsTail(z)
    requires c as int == Extend(Extend(Extend(lead, x), y), z) >= 0x10000
    ensures EncodeChar(c) == [0xF0 + lead, x, y, z]
  {
    ExtendInverts(lead, x);
    ExtendInverts(Extend(lead, x), y);
    ExtendInverts(Extend(Extend(lead, x), y), z);
  }

  lemma ExtendTail(n: nat)
    ensures Extend(n / 0x40, Tail(n)) == n
  {
  }

  lemma DecodeCharComplete(c: char, suffix: seq<byte>)
    ensures DecodeChar(EncodeChar(c) + suffix) == Some((c, |EncodeChar(c)|))
  {
    var n, bs := c as int, EncodeChar(c) + suffix;
    if 0x80 <= n < 0x800 {
      TwoComplete(c, n, bs);
    } else if 0x800 <= n < 0x10000 {
      ThreeComplete(c, n, bs);
    } else if n >= 0x10000 {
      FourComplete(c, n, bs);
    }
  }

  lemma TwoComplete(c: char, n: nat, bs: seq<byte>)
    requires 0x80 <= n == c as int < 0x800 && EncodeChar(c) <= bs
    ensures DecodeChar(bs) == Some((c, 2))
  {
    assert bs[..2] == EncodeChar(c);
    assert bs[0] == 0xC0 + n / 0x40 && bs[1] == Tail(n);
    Point1(bs, n / 0x40);
    ExtendTail(n);
  }

  lemma ThreeComplete(c: char, n: nat, bs: seq<byte>)
    requires 0x800 <= n == c as int < 0x10000 && EncodeChar(c) <= bs
    ensures DecodeChar(bs) == Some((c, 3))
  {
    var m := n / 0x40;
    assert bs[..3] == EncodeChar(c);
    assert bs[0] == 0xE0 + m / 0x40 && bs[1] == Tail(m) && bs[2] == Tail(n);
    Point2(bs, m / 0x40);
    ExtendTail(n);
    ExtendTail(m);
  }

  lemma FourComplete(c: char, n: nat, bs: seq<byte>)
    requires n == c as int >= 0x10000 && EncodeChar(c) <= bs
    ensures DecodeChar(bs) == Some((c, 4))
  {
    var m := n / 0x40;
    assert bs[..4] == EncodeChar(c);
    assert bs[0] == 0xF0 + m / 0x40 / 0x40 && bs[1] == Tail(m / 0x40) && bs[2] == Tail(m) && bs[3] == Tail(n);
    Point3(bs, m / 0x40 / 0x40);
    ExtendTail(n);
    ExtendTail(m);
    ExtendTail(m / 0x40);
  }

  lemma {:induction false} DecodeSound(bs: seq<byte>)
    requires Decode(bs).Some?
    ensures Encode(Decode(bs).value) == bs
    decreases |bs|
  {
    if bs != [] {
      DecodeCharSound(bs);
      var (c, n) := DecodeChar(bs).value;
      DecodeSound(bs[n..]);
      EncodeCons(c, Decode(bs[n..]).value);
      assert bs == bs[..n] + bs[n..];
    }
  }

  lemma EncodeCons(c: char, rest: string)
    ensures Encode([c] + rest) == EncodeChar(c) + Encode(rest)
  {
    assert ([c] + rest)[1..] == rest;
  }

  lemma {:induction false} DecodeComplete(text: string)
    ensures Decode(Encode(text)).Some?
    ensures Decode(Encode(text)).value == text
  {
    if text != [] {
      var e, rest := EncodeChar(text[0]), Encode(text[1..]);
      DecodeCharComplete(text[0], rest);
      assert (e + rest)[|e|..] == rest;
      DecodeComplete(text[1..]);
      assert [text[0]] + text[1..] == text;
    }
  }

  /** The decoder is exactly the inverse of the encoder: it accepts precisely the encodings of
      texts and returns the text that encodes to the input. */
  lemma DecodeIff(bs: seq<byte>, text: string)
    ensures Decode(bs) == Some(text) <==> Encode(text) == bs
  {
    if Decode(bs) == Some(text) {
      DecodeSound(bs);
    }
    if Encode(text) == bs {
      DecodeComplete(text);
    }
  }

  /** Characters of the examples in section 7 of RFC 3629. */
  lemma Vectors()
    ensures EncodeChar('A') == [0x41] && EncodeChar(0x391 as char) == [0xCE, 0x91]
    ensures EncodeChar(0x2262 as char) == [0xE2, 0x89, 0xA2] && EncodeChar(0x233B4 as char) == [0xF0, 0xA3, 0x8E, 0xB4]
  {
  }
}
