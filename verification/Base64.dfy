/** Base64 (section 4 of RFC 4648), as `base64.b64encode(...).decode("ascii")` writes it, with the
    strict decoder that undoes it. */
module Base64 {
  import opened Common

  type sextet = n: int | 0 <= n < 64

  function SextetChar(n: sextet): char {
    if n < 26 then (n + 65) as char
    else if n < 52 then (n + 71) as char
    else if n < 62 then (n - 4) as char
    else if n == 62 then '+'
    else '/'
  }

  function CharSextet(c: char): Option<sextet> {
    if 'A' <= c <= 'Z' then Some(c as int - 65)
    else if 'a' <= c <= 'z' then Some(c as int - 71)
    else if '0' <= c <= '9' then Some(c as int + 4)
    else if c == '+' then Some(62)
    else if c == '/' then Some(63)
    else None
  }

  /** Four six-bit groups from three bytes. */
  function Group0(x: int): char requires 0 <= x < 256 { SextetChar(x / 4) }

  function Group1(x: int, y: int): char requires 0 <= x < 256 && 0 <= y < 256 { SextetChar(x % 4 * 16 + y / 16) }

  function Group2(y: int, z: int): char requires 0 <= y < 256 && 0 <= z < 256 { SextetChar(y % 16 * 4 + z / 64) }

  function Group3(z: int): char requires 0 <= z < 256 { SextetChar(z % 64) }

  /** Three bytes from four six-bit groups. */
  function Byte0(a: int, b: int): int { a * 4 + b / 16 }

  function Byte1(b: int, c: int): int { b % 16 * 16 + c / 4 }

  function Byte2(c: int, d: int): int { c % 4 * 64 + d }

  function EncodeBlock(bs: seq<byte>): (text: string)
    requires 1 <= |bs| <= 3
    ensures |text| == 4
  {
    if |bs| == 1 then [Group0(bs[0]), Group1(bs[0], 0), '=', '=']
    else if |bs| == 2 then [Group0(bs[0]), Group1(bs[0], bs[1]), Group2(bs[1], 0), '=']
    else [Group0(bs[0]), Group1(bs[0], bs[1]), Group2(bs[1], bs[2]), Group3(bs[2])]
  }

  function Encode(bs: seq<byte>): (text: string) {
    if bs == [] then ""
    else if |bs| <= 3 then EncodeBlock(bs)
    else EncodeBlock(bs[..3]) + Encode(bs[3..])
  }

  function DecodeBlock(text: string): Option<seq<byte>>
    requires |text| == 4
  {
    Join(CharSextet(text[0]), CharSextet(text[1]), CharSextet(text[2]), CharSextet(text[3]),
         text[2] == '=', text[3] == '=')
  }

  /** The bytes of a block; the flags say which of its last two places hold padding. */
  function Join(a: Option<sextet>, b: Option<sextet>, c: Option<sextet>, d: Option<sextet>, pad2: bool, pad3: bool)
    : Option<seq<byte>>
  {
    if a.None? || b.None? then None
    else if pad2 && pad3 then Some([Byte0(a.value, b.value)])
    else if c.None? then None
    else if pad3 then Some([Byte0(a.value, b.value), Byte1(b.value, c.value)])
    else if d.None? then None
    else Some([Byte0(a.value, b.value), Byte1(b.value, c.value), Byte2(c.value, d.value)])
  }

  function Decode(text: string): Option<seq<byte>> {
    if text == "" then Some([])
    else if |text| < 4 then None
    else
      match DecodeBlock(text[..4])
      case None => None
      case Some(block) =>
        match Decode(text[4..])
        case None => None
        case Some(rest) => if |block| < 3 && rest != [] then None else Some(block + rest)
  }

  lemma SextetRoundTrip(n: sextet)
    ensures CharSextet(SextetChar(n)) == Some(n)
    ensures SextetChar(n) != '='
  {
  }

  lemma Digits16(p: nat, q: nat)
    requires q < 16
    ensures (p * 16 + q) / 16 == p && (p * 16 + q) % 16 == q
  {
  }

  lemma Digits4(p: nat, q: nat)
    requires q < 4
    ensures (p * 4 + q) / 4 == p && (p * 4 + q) % 4 == q
  {
  }

  lemma JoinOne(x: byte, c: Option<sextet>, d: Option<sextet>)
    ensures Join(Some(x / 4), Some(x % 4 * 16), c, d, true, true) == Some([x])
  {
    Digits16(x % 4, 0);
  }

  lemma JoinTwo(x: byte, y: byte, d: Option<sextet>)
    ensures Join(Some(x / 4), Some(x % 4 * 16 + y / 16), Some(y % 16 * 4), d, false, true) == Some([x, y])
  {
    Digits16(x % 4, y / 16);
    Digits4(y % 16, 0);
  }

  lemma JoinThree(x: byte, y: byte, z: byte)
    ensures Join(Some(x / 4), Some(x % 4 * 16 + y / 16), Some(y % 16 * 4 + z / 64), Some(z % 64), false, false)
         == Some([x, y, z])
  {
    Digits16(x % 4, y / 16);
    Digits4(y % 16, z / 64);
  }

  lemma OneByte(bs: seq<byte>)
    requires |bs| == 1
    ensures DecodeBlock(EncodeBlock(bs)) == Some(bs)
  {
    var x := bs[0];
    SextetRoundTrip(x / 4);
    SextetRoundTrip(x % 4 * 16);
    JoinOne(x, CharSextet('='), CharSextet('='));
    assert bs == [x];
  }

  lemma TwoBytes(bs: seq<byte>)
    requires |bs| == 2
    ensures DecodeBlock(EncodeBlock(bs)) == Some(bs)
  {
    var x, y := bs[0], bs[1];
    SextetRoundTrip(x / 4);
    SextetRoundTrip(x % 4 * 16 + y / 16);
    SextetRoundTrip(y % 16 * 4);
    JoinTwo(x, y, CharSextet('='));
    assert bs == [x, y];
  }

  lemma ThreeBytes(bs: seq<byte>)
    requires |bs| == 3
    ensures DecodeBlock(EncodeBlock(bs)) == Some(bs)
  {
    var x, y, z := bs[0], bs[1], bs[2];
    SextetRoundTrip(x / 4);
    SextetRoundTrip(x % 4 * 16 + y / 16);
    SextetRoundTrip(y % 16 * 4 + z / 64);
    SextetRoundTrip(z % 64);
    JoinThree(x, y, z);
    assert bs == [x, y, z];
  }

  /** One to three bytes survive being cut into four groups and joined again. */
  lemma BlockRoundTrip(bs: seq<byte>)
    requires 1 <= |bs| <= 3
    ensures DecodeBlock(EncodeBlock(bs)) == Some(bs)
  {
    if |bs| == 1 {
      OneByte(bs);
    } else if |bs| == 2 {
      TwoBytes(bs);
    } else {
      ThreeBytes(bs);
    }
  }

  /** Nothing is lost in base64. */
  lemma {:induction false} RoundTrip(bs: seq<byte>)
    ensures Decode(Encode(bs)).Some?
    ensures Decode(Encode(bs)).value == bs
  {
    if 0 < |bs| <= 3 {
      BlockRoundTrip(bs);
      var text := EncodeBlock(bs);
      assert text[..4] == text && text[4..] == "" && bs + [] == bs;
    } else if |bs| > 3 {
      var block, rest := EncodeBlock(bs[..3]), Encode(bs[3..]);
      BlockRoundTrip(bs[..3]);
      RoundTrip(bs[3..]);
      assert (block + rest)[..4] == block && (block + rest)[4..] == rest;
      assert bs == bs[..3] + bs[3..];
    }
  }

  /** Test vectors of section 10 of RFC 4648, and the two characters they do not use. */
  lemma Vectors()
    ensures Encode([102]) == "Zg==" && Encode([102, 111]) == "Zm8=" && Encode([102, 111, 111]) == "Zm9v"
    ensures Encode([102, 111, 111, 98, 97, 114]) == "Zm9vYmFy" && Encode([251, 255]) == "+/8="
  {
    var foobar: seq<byte> := [102, 111, 111, 98, 97, 114];
    assert foobar[..3] == [102, 111, 111] && foobar[3..] == [98, 97, 114];
    assert EncodeBlock(foobar[3..]) == "YmFy";
  }
}
