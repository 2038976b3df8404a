/** Streaming SHA-256 (crates/core/src/sha256.rs) against the one-shot definition of FIPS 180-4. */
module Sha256 {
  import opened Bytes

  type Word = x: int | 0 <= x < WORD32

  type Bits = bv32

  /** The round constants. */
  function K(): (k: seq<Word>)
    ensures |k| == 64
  {
    K0() + K1() + K2() + K3()
  }

  function K0(): (k: seq<Word>)
    ensures |k| == 16
  {
    [0x428a2f98, 0x71374491, 0xb5c0fbcf, 0xe9b5dba5, 0x3956c25b, 0x59f111f1, 0x923f82a4, 0xab1c5ed5,
     0xd807aa98, 0x12835b01, 0x243185be, 0x550c7dc3, 0x72be5d74, 0x80deb1fe, 0x9bdc06a7, 0xc19bf174]
  }

  function K1(): (k: seq<Word>)
    ensures |k| == 16
  {
    [0xe49b69c1, 0xefbe4786, 0x0fc19dc6, 0x240ca1cc, 0x2de92c6f, 0x4a7484aa, 0x5cb0a9dc, 0x76f988da,
     0x983e5152, 0xa831c66d, 0xb00327c8, 0xbf597fc7, 0xc6e00bf3, 0xd5a79147, 0x06ca6351, 0x14292967]
  }

  function K2(): (k: seq<Word>)
    ensures |k| == 16
  {
    [0x27b70a85, 0x2e1b2138, 0x4d2c6dfc, 0x53380d13, 0x650a7354, 0x766a0abb, 0x81c2c92e, 0x92722c85,
     0xa2bfe8a1, 0xa81a664b, 0xc24b8b70, 0xc76c51a3, 0xd192e819, 0xd6990624, 0xf40e3585, 0x106aa070]
  }

  function K3(): (k: seq<Word>)
    ensures |k| == 16
  {
    [0x19a4c116, 0x1e376c08, 0x2748774c, 0x34b0bcb5, 0x391c0cb3, 0x4ed8aa4a, 0x5b9cca4f, 0x682e6ff3,
     0x748f82ee, 0x78a5636f, 0x84c87814, 0x8cc70208, 0x90befffa, 0xa4506ceb, 0xbef9a3f7, 0xc67178f2]
  }

  const H0: seq<Word> := [
    0x6a09e667, 0xbb67ae85, 0x3c6ef372, 0xa54ff53a, 0x510e527f, 0x9b05688c, 0x1f83d9ab, 0x5be0cd19
  ]

  // ----- FIPS 180-4, section 4.1.2

  /** Addition modulo 2^32. */
  function Add(x: Word, y: Word): Word {
    (x + y) % WORD32
  }

  function ChBits(x: Bits, y: Bits, z: Bits): Bits {
    (x & y) ^ (!x & z)
  }

  function MajBits(x: Bits, y: Bits, z: Bits): Bits {
    (x & y) ^ (x & z) ^ (y & z)
  }

  function BigSigma0Bits(x: Bits): Bits {
    ((x >> 2) | (x << 30)) ^ ((x >> 13) | (x << 19)) ^ ((x >> 22) | (x << 10))
  }

  function BigSigma1Bits(x: Bits): Bits {
    ((x >> 6) | (x << 26)) ^ ((x >> 11) | (x << 21)) ^ ((x >> 25) | (x << 7))
  }

  function SmallSigma0Bits(x: Bits): Bits {
    ((x >> 7) | (x << 25)) ^ ((x >> 18) | (x << 14)) ^ (x >> 3)
  }

  function SmallSigma1Bits(x: Bits): Bits {
    ((x >> 17) | (x << 15)) ^ ((x >> 19) | (x << 13)) ^ (x >> 10)
  }

  function Ch(x: Word, y: Word, z: Word): Word {
    ChBits(x as Bits, y as Bits, z as Bits) as int
  }

  function Maj(x: Word, y: Word, z: Word): Word {
    MajBits(x as Bits, y as Bits, z as Bits) as int
  }

  function BigSigma0(x: Word): Word {
    BigSigma0Bits(x as Bits) as int
  }

  function BigSigma1(x: Word): Word {
    BigSigma1Bits(x as Bits) as int
  }

  function SmallSigma0(x: Word): Word {
    SmallSigma0Bits(x as Bits) as int
  }

  function SmallSigma1(x: Word): Word {
    SmallSigma1Bits(x as Bits) as int
  }

  /** The same mixers as the code writes them, with the processor's rotation. */
  function RotatedBig0(x: Bits): (r: Bits)
    ensures r == BigSigma0Bits(x)
  {
    x.RotateRight(2) ^ x.RotateRight(13) ^ x.RotateRight(22)
  }

  function RotatedBig1(x: Bits): (r: Bits)
    ensures r == BigSigma1Bits(x)
  {
    x.RotateRight(6) ^ x.RotateRight(11) ^ x.RotateRight(25)
  }

  function RotatedSmall0(x: Bits): (r: Bits)
    ensures r == SmallSigma0Bits(x)
  {
    x.RotateRight(7) ^ x.RotateRight(18) ^ (x >> 3)
  }

  function RotatedSmall1(x: Bits): (r: Bits)
    ensures r == SmallSigma1Bits(x)
  {
    x.RotateRight(17) ^ x.RotateRight(19) ^ (x >> 10)
  }

  function CodedBig0(x: Word): (r: Word)
    ensures r == BigSigma0(x)
  {
    RotatedBig0(x as Bits) as int
  }

  function CodedBig1(x: Word): (r: Word)
    ensures r == BigSigma1(x)
  {
    RotatedBig1(x as Bits) as int
  }

  function CodedSmall0(x: Word): (r: Word)
    ensures r == SmallSigma0(x)
  {
    RotatedSmall0(x as Bits) as int
  }

  function CodedSmall1(x: Word): (r: Word)
    ensures r == SmallSigma1(x)
  {
    RotatedSmall1(x as Bits) as int
  }

  // ----- FIPS 180-4, section 6.2.2

  function BigEndian(b: seq<byte>): Word
    requires |b| == 4
  {
    var b0: int, b1: int, b2: int, b3: int := b[0], b[1], b[2], b[3];
    b0 * 0x100_0000 + b1 * 0x1_0000 + b2 * 0x100 + b3
  }

  /** The first `n` words of the message schedule. */
  function Schedule(block: seq<byte>, n: nat): (w: seq<Word>)
    requires |block| == 64
    ensures |w| == n
  {
    if n == 0 then []
    else
      var w := Schedule(block, n - 1);
      var t := n - 1;
      if t < 16 then w + [BigEndian(block[4 * t..4 * t + 4])]
      else w + [Add(Add(Add(SmallSigma1(w[t - 2]), w[t - 7]), SmallSigma0(w[t - 15])), w[t - 16])]
  }

  /** The eight working variables. */
  datatype Vars = Vars(a: Word, b: Word, c: Word, d: Word, e: Word, f: Word, g: Word, h: Word)

  function Round(v: Vars, k: Word, w: Word): Vars {
    var t1 := Add(Add(Add(Add(v.h, BigSigma1(v.e)), Ch(v.e, v.f, v.g)), k), w);
    var t2 := Add(BigSigma0(v.a), Maj(v.a, v.b, v.c));
    Vars(Add(t1, t2), v.a, v.b, v.c, Add(v.d, t1), v.e, v.f, v.g)
  }

  /** The working variables after `t` rounds. */
  function Rounds(v: Vars, w: seq<Word>, t: nat): Vars
    requires t <= 64 == |w|
  {
    if t == 0 then v else Round(Rounds(v, w, t - 1), K()[t - 1], w[t - 1])
  }

  function Load(h: seq<Word>): Vars
    requires |h| == 8
  {
    Vars(h[0], h[1], h[2], h[3], h[4], h[5], h[6], h[7])
  }

  /** One block absorbed into the intermediate hash value. */
  function Compress(h: seq<Word>, block: seq<byte>): (r: seq<Word>)
    requires |h| == 8 && |block| == 64
    ensures |r| == 8
  {
    var v := Rounds(Load(h), Schedule(block, 64), 64);
    [Add(h[0], v.a), Add(h[1], v.b), Add(h[2], v.c), Add(h[3], v.d),
     Add(h[4], v.e), Add(h[5], v.f), Add(h[6], v.g), Add(h[7], v.h)]
  }

  /** Every whole block of `m`, in order. */
  function Absorb(h: seq<Word>, m: seq<byte>): (r: seq<Word>)
    requires |h| == 8
    ensures |r| == 8
    decreases |m|
  {
    if |m| < 64 then h else Absorb(Compress(h, m[..64]), m[64..])
  }

  // ----- FIPS 180-4, section 5.1.1, and the digest

  function Zeros(n: nat): (r: seq<byte>)
    ensures |r| == n
  {
    seq(n, _ => 0)
  }

  function BigDigits(u: nat): (r: seq<byte>)
    requires u < WORD64
    ensures |r| == 8
  {
    [u / 0x100_0000_0000_0000 % 0x100, u / 0x1_0000_0000_0000 % 0x100, u / 0x100_0000_0000 % 0x100,
     u / 0x1_0000_0000 % 0x100, u / 0x100_0000 % 0x100, u / 0x1_0000 % 0x100, u / 0x100 % 0x100, u % 0x100]
  }

  /** The eight big-endian bytes of `v` modulo 2^64. */
  function Be64(v: nat): (r: seq<byte>)
    ensures |r| == 8
  {
    BigDigits(v % WORD64)
  }

  /** How many zero bytes follow the 0x80 byte. */
  function ZeroCount(length: nat): nat {
    (55 - length) % 64
  }

  function Pad(m: seq<byte>): seq<byte> {
    m + [0x80] + Zeros(ZeroCount(|m|)) + Be64(8 * |m|)
  }

  function BigEndianBytes(w: Word): (r: seq<byte>)
    ensures |r| == 4
  {
    var u: int := w;
    [u / 0x100_0000, u / 0x1_0000 % 0x100, u / 0x100 % 0x100, u % 0x100]
  }

  function Serialize(h: seq<Word>): (r: seq<byte>)
    ensures |r| == 4 * |h|
  {
    if h == [] then [] else BigEndianBytes(h[0]) + Serialize(h[1..])
  }

  function Digest(m: seq<byte>): (r: seq<byte>)
    ensures |r| == 32
  {
    Serialize(Absorb(H0, Pad(m)))
  }

  /** `zeroBits` zero bits after the one bit leave 64 bits of the last 512-bit block. */
  predicate LeavesRoom(bits: nat, zeroBits: nat) {
    (bits + 1 + zeroBits) % 512 == 448
  }

  /** The padding is the standard's: the appended zero bits are the fewest that leave 64 bits of the
      last 512-bit block, which then holds the message length in bits. */
  lemma {:induction false} PaddingIsStandard(m: seq<byte>)
    ensures var bits, zeroBits := 8 * |m|, 7 + 8 * ZeroCount(|m|);
      && LeavesRoom(bits, zeroBits)
      && (forall k: nat :: LeavesRoom(bits, k) ==> zeroBits <= k)
      && |Pad(m)| * 8 == bits + 1 + zeroBits + 64
      && |Pad(m)| % 64 == 0
  {
    hide Be64;
    var n := |m|;
    var z := ZeroCount(n);
    var p := (55 - n) / 64;
    assert 55 - n == 64 * p + z;
    assert 8 * n + 1 + (7 + 8 * z) == 512 * (-p) + 448;
    forall k: nat | LeavesRoom(8 * n, k)
      ensures 7 + 8 * z <= k
    {
      var q := (8 * n + 1 + k) / 512;
      assert 8 * n + 1 + k == 512 * q + 448;
      assert k - (7 + 8 * z) == 512 * (q + p);
    }
    assert |m| + 1 + z + 8 == 64 * (1 - p);
  }

  lemma {:induction false} AbsorbAppend(h: seq<Word>, a: seq<byte>, b: seq<byte>)
    requires |h| == 8 && |a| % 64 == 0
    ensures Absorb(h, a + b) == Absorb(Absorb(h, a), b)
    decreases |a|
  {
    hide Compress;
    if |a| == 0 {
      assert a + b == b;
    } else {
      assert (a + b)[..64] == a[..64];
      assert (a + b)[64..] == a[64..] + b;
      AbsorbAppend(Compress(h, a[..64]), a[64..], b);
    }
  }

  lemma {:induction false} AbsorbBlock(h: seq<Word>, a: seq<byte>, block: seq<byte>)
    requires |h| == 8 && |a| % 64 == 0 && |block| == 64
    ensures Absorb(h, a + block) == Compress(Absorb(h, a), block)
  {
    AbsorbAppend(h, a, block);
    assert block[..64] == block && block[64..] == [];
  }

  /** One block absorbed into `state`. */
  method CompressBlock(state: array<Word>, block: seq<byte>)
    requires state.Length == 8 && |block| == 64
    modifies state
    ensures state[..] == Compress(old(state[..]), block)
  {
    hide K, Round, Rounds, Schedule, Add;
    ghost var entry := state[..];
    var w := BuildSchedule(block);
    ghost var words := w[..];
    var h := new Word[8];
    for i := 0 to 8
      invariant state[..] == entry && w[..] == words
      invariant forall j :: 0 <= j < i ==> h[j] == entry[j]
    {
      h[i] := state[i];
    }
    assert h[..] == entry;
    RunRounds(h, w);
    ghost var v := Rounds(Load(entry), Schedule(block, 64), 64);
    assert Load(h[..]) == v;
    for i := 0 to 8
      invariant forall j :: 0 <= j < i ==> state[j] == Add(entry[j], h[j])
      invariant forall j :: i <= j < 8 ==> state[j] == entry[j]
      invariant Load(h[..]) == v
    {
      state[i] := Add(state[i], h[i]);
    }
    assert state[..] == Compress(entry, block);
  }

  lemma {:induction false} CutOff(front: seq<byte>, rest: seq<byte>, n: nat)
    requires n <= |rest|
    ensures front + rest == front + rest[..n] + rest[n..]
  {
  }

  lemma {:induction false} WholePart(done: seq<byte>, rest: seq<byte>, before: seq<byte>, data: seq<byte>)
    requires done + rest == before + data && |rest| == |data| % 64
    ensures done == before + data[..|data| - |data| % 64]
  {
    assert done == (done + rest)[..|done|];
    assert done == (before + data)[..|done|];
  }

  class Hasher {
    const state: array<Word>
    const buffer: array<byte>
    var buffered: nat
    var length: nat
    ghost var done: seq<byte>  // the whole blocks already in `state`

    ghost predicate Valid()
      reads this, state, buffer
    {
      && state.Length == 8 && buffer.Length == 64
      && buffered < 64 && length < WORD64
      && |done| % 64 == 0
      && state[..] == Absorb(H0, done)
    }

    /** Every byte absorbed so far, padding included. */
    ghost function Fed(): (r: seq<byte>)
      requires Valid()
      reads this, state, buffer
    {
      done + buffer[..buffered]
    }

    /** No padding has been absorbed: the counted length is the message's. */
    ghost predicate Counting()
      requires Valid()
      reads this, state, buffer
    {
      length == |Fed()| % WORD64
    }

    constructor ()
      ensures Valid() && Counting() && Fed() == []
      ensures fresh(state) && fresh(buffer)
    {
      state := new Word[8](i requires 0 <= i < 8 => H0[i]);
      buffer := new byte[64](_ => 0);
      buffered := 0;
      length := 0;
      done := [];
      new;
      assert state[..] == H0;
    }

    /** Absorb the full buffer. */
    method Flush()
      requires state.Length == 8 && buffer.Length == 64
      requires |done| % 64 == 0 && state[..] == Absorb(H0, done)
      modifies state, `buffered, `done
      ensures buffered == 0 && done == old(done) + buffer[..]
      ensures |done| % 64 == 0 && state[..] == Absorb(H0, done)
    {
      hide K, Absorb, Compress;
      var block := buffer[..];
      AbsorbBlock(H0, done, block);
      CompressBlock(state, block);
      buffered := 0;
      done := done + block;
    }

    /** Bytes copied into the buffer after those already there. */
    method CopyIn(bytes: seq<byte>)
      requires buffer.Length == 64 && buffered + |bytes| <= 64
      modifies buffer, `buffered
      ensures buffered == old(buffered) + |bytes|
      ensures buffer[..buffered] == old(buffer[..buffered]) + bytes
    {
      for i := 0 to |bytes|
        invariant buffered == old(buffered)
        invariant buffer[..buffered + i] == old(buffer[..buffered]) + bytes[..i]
      {
        buffer[buffered + i] := bytes[i];
        assert buffer[..buffered + i + 1] == buffer[..buffered + i] + [bytes[i]];
      }
      buffered := buffered + |bytes|;
    }

    method Update(input: seq<byte>)
      requires Valid() && Counting()
      modifies this, state, buffer
      ensures Valid() && Counting()
      ensures Fed() == old(Fed()) + input
    {
      hide K, Absorb, Compress;
      LengthAdds(|Fed()|, |input|);
      length := (length + |input|) % WORD64;
      var data := input;
      if buffered > 0 {
        data := TopUp(input);
      }
      if |data| > 0 {
        Fill(data);
      }
    }

    /** The whole blocks of `data`, then its rest into the empty buffer. */
    method Fill(data: seq<byte>)
      requires Valid() && buffered == 0
      modifies `buffered, `done, state, buffer
      ensures Valid() && Fed() == old(Fed()) + data
    {
      hide K, Absorb, Compress;
      ghost var total := Fed() + data;
      var whole := |data| - |data| % 64;
      assert data == data[..whole] + data[whole..];
      AbsorbWhole(data);
      CopyIn(data[whole..]);
      assert Fed() == total;
    }

    /** As much of `data` as the started block takes; what is left starts a block of its own. */
    method TopUp(data: seq<byte>) returns (rest: seq<byte>)
      requires Valid() && buffered > 0
      modifies `buffered, `done, state, buffer
      ensures Valid() && Fed() + rest == old(Fed()) + data
      ensures rest == [] || buffered == 0
    {
      hide K, Absorb, Compress;
      var take := if 64 - buffered < |data| then 64 - buffered else |data|;
      CopyIn(data[..take]);
      rest := data[take..];
      assert data == data[..take] + rest;
      assert done + buffer[..buffered] == old(Fed()) + data[..take];
      if buffered == 64 {
        assert buffer[..64] == buffer[..];
        Flush();
      }
      assert Fed() == old(Fed()) + data[..take];
    }

    /** The whole blocks of `data`, absorbed without passing through the buffer. */
    method AbsorbWhole(data: seq<byte>)
      requires Valid() && buffered == 0
      modifies state, `done
      ensures Valid() && done == old(done) + data[..|data| - |data| % 64]
    {
      hide K, Absorb, Compress;
      var rest := data;
      while |rest| >= 64
        invariant Valid() && |rest| % 64 == |data| % 64
        invariant done + rest == old(done) + data
        decreases |rest|
      {
        AbsorbBlock(H0, done, rest[..64]);
        CompressBlock(state, rest[..64]);
        CutOff(done, rest, 64);
        done := done + rest[..64];
        rest := rest[64..];
      }
      WholePart(done, rest, old(done), data);
    }

    /** Bytes absorbed without counting towards the length, for the padding. */
    method UpdateRaw(data: seq<byte>)
      requires Valid()
      modifies this, state, buffer
      ensures Valid()
      ensures Fed() == old(Fed()) + data && length == old(length)
    {
      hide K, Absorb, Compress;
      for i := 0 to |data|
        invariant Valid()
        invariant Fed() == old(Fed()) + data[..i] && length == old(length)
      {
        ghost var before := Fed();
        CopyIn([data[i]]);
        assert done + buffer[..buffered] == before + [data[i]];
        if buffered == 64 {
          assert buffer[..64] == buffer[..];
          Flush();
        }
        assert Fed() == before + [data[i]];
      }
    }

    /** The digest of everything `Update` was given, however it was split. */
    method Finish() returns (out: seq<byte>)
      requires Valid() && Counting()
      modifies this, state, buffer
      ensures out == Digest(old(Fed()))
    {
      hide K, Absorb, Compress, Be64;
      ghost var m := Fed();
      var bits := length * 8 % WORD64;
      BitLength(m, length);
      UpdateRaw([0x80]);
      PadWithZeros(m);
      UpdateRaw(Be64(bits));
      assert Fed() == Pad(m);
      PaddingIsStandard(m);
      FilledTo(|Pad(m)|);
      assert Fed() == done;
      out := Bytes();
    }

    /** Zero bytes until eight are left in the block. */
    method PadWithZeros(ghost m: seq<byte>)
      requires Valid() && Fed() == m + [0x80]
      modifies this, state, buffer
      ensures Valid() && Fed() == m + [0x80] + Zeros(ZeroCount(|m|))
    {
      hide K, Absorb, Compress, Valid, Fed;
      ghost var zeros: nat := 0;
      while buffered != 56
        invariant Valid()
        invariant zeros <= ZeroCount(|m|)
        invariant Fed() == m + [0x80] + Zeros(zeros)
        decreases ZeroCount(|m|) - zeros
      {
        FilledTo(|m| + 1 + zeros);
        UpdateRaw([0]);
        zeros := zeros + 1;
        assert m + [0x80] + Zeros(zeros) == m + [0x80] + Zeros(zeros - 1) + [0];
      }
      FilledTo(|m| + 1 + zeros);
    }

    /** The buffer holds what the whole blocks leave. */
    lemma {:induction false} FilledTo(fed: nat)
      requires Valid() && |Fed()| == fed
      ensures fed % 64 == buffered
    {
      hide K, Absorb, Compress;
    }

    method Bytes() returns (out: seq<byte>)
      requires state.Length == 8
      ensures out == Serialize(state[..])
    {
      out := [];
      for i := 0 to 8
        invariant out == Serialize(state[..i])
      {
        SerializeAppend(state[..i], state[i]);
        assert state[..i] + [state[i]] == state[..i + 1];
        out := out + BigEndianBytes(state[i]);
      }
      assert state[..8] == state[..];
    }
  }

  lemma {:induction false} LengthAdds(fed: nat, more: nat)
    ensures (fed % WORD64 + more) % WORD64 == (fed + more) % WORD64
  {
  }

  lemma {:induction false} BitLength(m: seq<byte>, length: nat)
    requires length == |m| % WORD64
    ensures Be64(length * 8 % WORD64) == Be64(8 * |m|)
  {
    hide Be64;
    var q := |m| / WORD64;
    assert 8 * |m| == length * 8 + WORD64 * (8 * q);
    assert length * 8 % WORD64 == 8 * |m| % WORD64;
    BitLengthModulo(8 * |m|);
  }

  lemma {:induction false} BitLengthModulo(v: nat)
    ensures Be64(v % WORD64) == Be64(v)
  {
    hide BigDigits;
    assert v % WORD64 % WORD64 == v % WORD64;
  }

  method BuildSchedule(block: seq<byte>) returns (w: array<Word>)
    requires |block| == 64
    ensures fresh(w) && w[..] == Schedule(block, 64)
  {
    hide BigEndian, Add, SmallSigma0, SmallSigma1, CodedSmall0, CodedSmall1;
    w := new Word[64];
    for i := 0 to 16
      invariant w[..i] == Schedule(block, i)
    {
      w[i] := BigEndian(block[4 * i..4 * i + 4]);
      assert w[..i + 1] == w[..i] + [w[i]];
    }
    for i := 16 to 64
      invariant w[..i] == Schedule(block, i)
    {
      ghost var done := w[..i];
      var s0 := CodedSmall0(w[i - 15]);
      var s1 := CodedSmall1(w[i - 2]);
      AddInOrder(w[i - 16], s0, w[i - 7], s1);
      w[i] := Add(Add(Add(w[i - 16], s0), w[i - 7]), s1);
      assert w[..i + 1] == done + [w[i]];
    }
    assert w[..] == w[..64];
  }

  /** The sixty-four rounds, shifting the working variables through `h` in place. */
  method RunRounds(h: array<Word>, w: array<Word>)
    requires h.Length == 8 && w.Length == 64 && h != w
    modifies h
    ensures Load(h[..]) == Rounds(Load(old(h[..])), w[..], 64)
  {
    hide K, Round;
    ghost var v0 := Load(h[..]);
    ghost var words := w[..];
    for i := 0 to 64
      invariant w[..] == words
      invariant Load(h[..]) == Rounds(v0, words, i)
    {
      RunRound(h, K()[i], w[i]);
    }
  }

  method RunRound(h: array<Word>, k: Word, w: Word)
    requires h.Length == 8
    modifies h
    ensures Load(h[..]) == Round(Load(old(h[..])), k, w)
  {
    hide K, Add, Ch, Maj, BigSigma0, BigSigma1, CodedBig0, CodedBig1;
    var s1 := CodedBig1(h[4]);
    var ch := Ch(h[4], h[5], h[6]);
    var t1 := Add(Add(Add(Add(h[7], s1), ch), k), w);
    var s0 := CodedBig0(h[0]);
    var maj := Maj(h[0], h[1], h[2]);
    var t2 := Add(s0, maj);
    h[7] := h[6];
    h[6] := h[5];
    h[5] := h[4];
    h[4] := Add(h[3], t1);
    h[3] := h[2];
    h[2] := h[1];
    h[1] := h[0];
    h[0] := Add(t1, t2);
  }

  lemma {:induction false} AddInOrder(a: Word, b: Word, c: Word, d: Word)
    ensures Add(Add(Add(a, b), c), d) == Add(Add(Add(d, c), b), a)
  {
    AddFour(a, b, c, d);
    AddFour(d, c, b, a);
  }

  lemma {:induction false} AddFour(a: Word, b: Word, c: Word, d: Word)
    ensures Add(Add(Add(a, b), c), d) == (a as int + b + c + d) % WORD32
  {
  }

  lemma {:induction false} SerializeAppend(h: seq<Word>, w: Word)
    ensures Serialize(h + [w]) == Serialize(h) + BigEndianBytes(w)
  {
    if h == [] {
      assert h + [w] == [w];
    } else {
      assert (h + [w])[1..] == h[1..] + [w];
      SerializeAppend(h[1..], w);
    }
  }

  function Concat(chunks: seq<seq<byte>>): seq<byte> {
    if chunks == [] then [] else Concat(chunks[..|chunks| - 1]) + chunks[|chunks| - 1]
  }

  /** A chunk alone is itself, and two rows of chunks make their bytes one behind the other. */
  lemma {:induction false} ConcatJoins(chunk: seq<byte>, a: seq<seq<byte>>, b: seq<seq<byte>>)
    ensures Concat([chunk]) == chunk && Concat(a + b) == Concat(a) + Concat(b)
    decreases |b|
  {
    if b == [] {
      assert a + b == a;
    } else {
      var n := |b| - 1;
      ConcatJoins(chunk, a, b[..n]);
      assert (a + b)[..|a + b| - 1] == a + b[..n];
      assert Concat(a + b) == Concat(a) + Concat(b[..n]) + b[n];
    }
  }

  /** Hash a file read in chunks: the digest does not depend on where the reads fell. */
  method HashChunks(chunks: seq<seq<byte>>) returns (digest: seq<byte>)
    ensures digest == Digest(Concat(chunks))
  {
    var hasher := new Hasher();
    for i := 0 to |chunks|
      invariant hasher.Valid() && hasher.Counting()
      invariant fresh(hasher) && fresh(hasher.state) && fresh(hasher.buffer)
      invariant hasher.Fed() == Concat(chunks[..i])
    {
      assert chunks[..i + 1][..i] == chunks[..i];
      hasher.Update(chunks[i]);
    }
    assert chunks[..|chunks|] == chunks;
    digest := hasher.Finish();
  }
}
