/** UTF-8 (RFC 3629, section 3): one encoding for each Unicode scalar value, and nothing else accepted. */
module Utf8 {
  import opened Outcome
  import opened Bytes

  type scalar = c: int | 0 <= c < 0x11_0000 && !(0xD800 <= c < 0xE000)

  function Encode(c: scalar): (r: seq<byte>)
    ensures 1 <= |r| <= 4
  {
    if c < 0x80 then [c]
    else if c < 0x800 then [0xC0 + c / 0x40, 0x80 + c % 0x40]
    else if c < 0x1_0000 then [0xE0 + c / 0x1000, 0x80 + c / 0x40 % 0x40, 0x80 + c % 0x40]
    else [0xF0 + c / 0x4_0000, 0x80 + c / 0x1000 % 0x40, 0x80 + c / 0x40 % 0x40, 0x80 + c % 0x40]
  }

  /** How many bytes follow the lead byte. */
  function Extra(lead: byte): Option<nat> {
    if lead < 0x80 then Some(0)
    else if lead / 0x20 == 6 then Some(1)
    else if lead / 0x10 == 14 then Some(2)
    else if lead / 8 == 30 then Some(3)
    else None
  }

  predicate IsTail(b: byte) {
    0x80 <= b < 0xC0
  }

  /** The scalar value whose whole encoding is `s`. */
  function Decode(s: seq<byte>): Option<scalar> {
    if |s| == 1 && s[0] < 0x80 then Some(s[0])
    else if |s| == 2 && 0xC2 <= s[0] < 0xE0 && IsTail(s[1]) then
      Some((s[0] as int - 0xC0) * 0x40 + (s[1] as int - 0x80))
    else if |s| == 3 && 0xE0 <= s[0] < 0xF0 && IsTail(s[1]) && IsTail(s[2]) then
      var c := (s[0] as int - 0xE0) * 0x1000 + (s[1] as int - 0x80) * 0x40 + (s[2] as int - 0x80);
      if c < 0x800 || 0xD800 <= c < 0xE000 then None else Some(c)
    else if |s| == 4 && 0xF0 <= s[0] < 0xF5 && IsTail(s[1]) && IsTail(s[2]) && IsTail(s[3]) then
      var c := (s[0] as int - 0xF0) * 0x4_0000 + (s[1] as int - 0x80) * 0x1000
               + (s[2] as int - 0x80) * 0x40 + (s[3] as int - 0x80);
      if c < 0x1_0000 || c >= 0x11_0000 then None else Some(c)
    else None
  }

  /** A scalar value's encoding decodes to it, and its lead byte tells the length. */
  lemma {:induction false} DecodeEncode(c: scalar)
    ensures Decode(Encode(c)) == Some(c)
    ensures Extra(Encode(c)[0]) == Some(|Encode(c)| - 1)
  {
    if 0x80 <= c {
      var low, mid, high := c % 0x40, c / 0x40 % 0x40, c / 0x1000 % 0x40;
      assert c / 0x1000 == c / 0x40 / 0x40 && c / 0x4_0000 == c / 0x1000 / 0x40;
      assert c == c / 0x40 * 0x40 + low;
      assert c / 0x40 == c / 0x1000 * 0x40 + mid;
      assert c / 0x1000 == c / 0x4_0000 * 0x40 + high;
    }
  }

  /** Only a scalar value's own encoding decodes to it. */
  lemma {:induction false} EncodeDecode(s: seq<byte>)
    requires Decode(s).Some?
    ensures Encode(Decode(s).value) == s
  {
    var c := Decode(s).value;
    if |s| == 2 {
      Places(c, s[0] - 0xC0, s[1] - 0x80);
    } else if |s| == 3 {
      Places(c, (s[0] as int - 0xE0) * 0x40 + (s[1] as int - 0x80), s[2] - 0x80);
      Places(c / 0x40, s[0] - 0xE0, s[1] - 0x80);
      assert c / 0x1000 == c / 0x40 / 0x40;
    } else if |s| == 4 {
      var high := (s[0] as int - 0xF0) * 0x40 + (s[1] as int - 0x80);
      Places(c, high * 0x40 + (s[2] as int - 0x80), s[3] - 0x80);
      Places(c / 0x40, high, s[2] - 0x80);
      Places(high, s[0] - 0xF0, s[1] - 0x80);
      assert c / 0x1000 == c / 0x40 / 0x40;
      assert c / 0x4_0000 == c / 0x40 / 0x40 / 0x40;
    }
  }

  lemma {:induction false} Places(c: int, high: int, low: int)
    requires c == high * 0x40 + low && 0 <= low < 0x40
    ensures c / 0x40 == high && c % 0x40 == low
  {
  }

  /** A whole text decoded, one scalar value after another. */
  function DecodeAll(s: seq<byte>): Option<seq<scalar>> {
    if s == [] then Some([])
    else match Extra(s[0])
      case None => None
      case Some(extra) =>
        if |s| < extra + 1 then None
        else match Decode(s[..extra + 1])
          case None => None
          case Some(c) =>
            match DecodeAll(s[extra + 1..])
            case None => None
            case Some(rest) => Some([c] + rest)
  }

  function EncodeAll(text: seq<scalar>): seq<byte> {
    if text == [] then [] else Encode(text[0]) + EncodeAll(text[1..])
  }

  /** Exactly the encodings of texts decode, each to its text. */
  lemma {:induction false} DecodeAllExactly(s: seq<byte>, text: seq<scalar>)
    ensures DecodeAll(s) == Some(text) <==> s == EncodeAll(text)
  {
    if DecodeAll(s) == Some(text) {
      EncodeAllDecodeAll(s);
    }
    if s == EncodeAll(text) {
      DecodeAllEncodeAll(text);
    }
  }

  lemma {:induction false} DecodeAllEncodeAll(text: seq<scalar>)
    ensures DecodeAll(EncodeAll(text)) == Some(text)
  {
    hide Encode, Decode, Extra;
    if text != [] {
      var first, s := Encode(text[0]), EncodeAll(text);
      DecodeEncode(text[0]);
      assert s[..|first|] == first && s[|first|..] == EncodeAll(text[1..]) && s[0] == first[0];
      assert [text[0]] + text[1..] == text;
      DecodeAllEncodeAll(text[1..]);
    }
  }

  lemma {:induction false} EncodeAllDecodeAll(s: seq<byte>)
    requires DecodeAll(s).Some?
    ensures EncodeAll(DecodeAll(s).value) == s
  {
    hide Encode, Decode, Extra;
    if s != [] {
      var n := Extra(s[0]).value + 1;
      EncodeDecode(s[..n]);
      EncodeAllDecodeAll(s[n..]);
      assert s[..n] + s[n..] == s;
    }
  }
}
