/** Bytes, little-endian words and the operations on byte buffers the engine uses. */
module Bytes {
  import opened Outcome

  type byte = x: int | 0 <= x < 0x100

  const WORD32 := 0x1_0000_0000
  const WORD64 := 0x1_0000_0000_0000_0000

  /** The four little-endian bytes of `v` modulo 2^32. */
  function Le32(v: int): (r: seq<byte>)
    ensures |r| == 4
  {
    var u := v % WORD32;
    [u % 0x100, u / 0x100 % 0x100, u / 0x1_0000 % 0x100, u / 0x100_0000]
  }

  /** The eight little-endian bytes of `v` modulo 2^64. */
  function Le64(v: int): (r: seq<byte>)
    ensures |r| == 8
  {
    var u := v % WORD64;
    Le32(u % WORD32) + Le32(u / WORD32)
  }

  function U32(b: seq<byte>): (r: nat)
    requires |b| == 4
    ensures r < WORD32
  {
    var b0: int, b1: int, b2: int, b3: int := b[0], b[1], b[2], b[3];
    b0 + 0x100 * b1 + 0x1_0000 * b2 + 0x100_0000 * b3
  }

  function U64(b: seq<byte>): nat
    requires |b| == 8
  {
    U32(b[..4]) + WORD32 * U32(b[4..])
  }

  /** The two's-complement reading of four little-endian bytes. */
  function I32(b: seq<byte>): (r: int)
    requires |b| == 4
    ensures -0x8000_0000 <= r < 0x8000_0000
  {
    var u := U32(b);
    if u < 0x8000_0000 then u else u - WORD32
  }

  predicate IsI32(v: int) {
    -0x8000_0000 <= v < 0x8000_0000
  }

  lemma {:induction false} U32OfLe32(v: int)
    ensures U32(Le32(v)) == v % WORD32
  {
    var u := v % WORD32;
    var a, b := u / 0x100, u / 0x1_0000;
    assert b == a / 0x100 && u / 0x100_0000 == b / 0x100;
    assert u == 0x100 * a + u % 0x100 && a == 0x100 * b + a % 0x100 && b == 0x100 * (b / 0x100) + b % 0x100;
  }

  lemma {:induction false} I32OfLe32(v: int)
    requires IsI32(v)
    ensures I32(Le32(v)) == v
  {
    U32OfLe32(v);
  }

  lemma {:induction false} U64OfLe64(v: int)
    ensures U64(Le64(v)) == v % WORD64
  {
    hide Le32, U32;
    var u := v % WORD64;
    var low, high := u % WORD32, u / WORD32;
    U32OfLe32(low);
    U32OfLe32(high);
    assert Le64(v)[..4] == Le32(low) && Le64(v)[4..] == Le32(high);
    assert low % WORD32 == low && high % WORD32 == high && u == low + WORD32 * high;
  }

  lemma {:induction false} Digits(low: int, high: int)
    requires 0 <= low < 0x100
    ensures (low + 0x100 * high) % 0x100 == low && (low + 0x100 * high) / 0x100 == high
  {
  }

  lemma {:induction false} Quotients(u: nat)
    ensures u / 0x1_0000 == u / 0x100 / 0x100 && u / 0x100_0000 == u / 0x1_0000 / 0x100
  {
  }

  /** Four bytes are the encoding of the number they read as. */
  lemma {:induction false} Le32OfU32(b: seq<byte>)
    requires |b| == 4
    ensures Le32(U32(b)) == b
  {
    var u := U32(b);
    var b0: int, b1: int, b2: int, b3: int := b[0], b[1], b[2], b[3];
    var high := b2 + 0x100 * b3;
    var rest := b1 + 0x100 * high;
    assert u == b0 + 0x100 * rest;
    Digits(b0, rest);
    Digits(b1, high);
    Digits(b2, b3);
    Quotients(u);
  }

  /** The words are little-endian: the lowest byte comes first; and signed ones are in two's complement. */
  lemma {:induction false} LowByteFirst(b: seq<byte>)
    requires |b| == 4
    ensures var u, i := U32(b), I32(b);
      && b[0] == u % 0x100 && b[1] == u / 0x100 % 0x100 && b[2] == u / 0x1_0000 % 0x100 && b[3] == u / 0x100_0000
      && (i == u || i == u - 0x1_0000_0000)
  {
    Le32OfU32(b);
    assert U32(b) % 0x1_0000_0000 == U32(b);
  }

  lemma {:induction false} LowWordFirst(b: seq<byte>)
    requires |b| == 8
    ensures U64(b) % 0x1_0000_0000 == U32(b[..4]) && U64(b) / 0x1_0000_0000 == U32(b[4..])
  {
  }

  lemma {:induction false} Le32OfI32(b: seq<byte>)
    requires |b| == 4
    ensures Le32(I32(b)) == b
  {
    Le32OfU32(b);
    var u := U32(b);
    assert (u - WORD32) % WORD32 == u % WORD32 == u;
  }

  /** The displacement of a branch whose instruction ends at `end`, refused outside 32 bits. */
  function Rel32(end: int, to: int): (r: Result<seq<byte>>)
    ensures r.Ok? <==> -0x8000_0000 <= to - end < 0x8000_0000
    ensures r.Ok? ==> |r.value| == 4 && end + I32(r.value) == to
  {
    if IsI32(to - end) then
      I32OfLe32(to - end);
      Ok(Le32(to - end))
    else
      Err(OutOfReach)
  }

  /** `code` with `value` copied over the bytes at `offset`. */
  function Put(code: seq<byte>, offset: nat, value: seq<byte>): (r: seq<byte>)
    requires offset + |value| <= |code|
    ensures |r| == |code|
    ensures r[offset..offset + |value|] == value
    ensures forall k :: 0 <= k < |code| && !(offset <= k < offset + |value|) ==> r[k] == code[k]
  {
    code[..offset] + value + code[offset + |value|..]
  }
}
