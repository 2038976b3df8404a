/** SHA-256 (crates/core/src/sha256.rs) held against FIPS 180-4: its constants are the roots of the first primes
    (sections 4.2.2 and 5.3.3), its mixers do what section 4.1.2 says to each bit, and its digests are the ones that
    sections 5.1.1 and 6.2.2 describe. */
module Fips {
  import opened Bytes
  import opened Sha256

  // ----- the constants

  /** The first 32 bits behind the point of the square root of `n`, whose whole part is `whole`. */
  predicate IsSquareRoot(word: nat, whole: nat, n: nat) {
    var root := whole * 0x1_0000_0000 + word;
    word < 0x1_0000_0000 && root * root <= n * 0x1_0000_0000_0000_0000 < (root + 1) * (root + 1)
  }

  predicate IsCubeRoot(word: nat, whole: nat, n: nat) {
    var root := whole * 0x1_0000_0000 + word;
    word < 0x1_0000_0000
    && root * root * root <= n * 0x1_0000_0000_0000_0000_0000_0000 < (root + 1) * (root + 1) * (root + 1)
  }

  ghost predicate IsRoot(word: nat, n: nat) {
    exists whole: nat :: IsCubeRoot(word, whole, n)
  }

  ghost predicate RootsOf(k: seq<Word>, primes: seq<nat>) {
    |k| == |primes| == 16 && forall i :: 0 <= i < 16 ==> IsRoot(k[i], primes[i])
  }

  /** The initial hash value is the square roots of the first eight primes. */
  lemma {:induction false} InitialIsRoots()
    ensures IsSquareRoot(H0[0], 1, 2) && IsSquareRoot(H0[1], 1, 3) && IsSquareRoot(H0[2], 2, 5)
      && IsSquareRoot(H0[3], 2, 7) && IsSquareRoot(H0[4], 3, 11) && IsSquareRoot(H0[5], 3, 13)
      && IsSquareRoot(H0[6], 4, 17) && IsSquareRoot(H0[7], 4, 19)
  {
    assert IsSquareRoot(0x6a09e667, 1, 2) && IsSquareRoot(0xbb67ae85, 1, 3) && IsSquareRoot(0x3c6ef372, 2, 5)
      && IsSquareRoot(0xa54ff53a, 2, 7) && IsSquareRoot(0x510e527f, 3, 11) && IsSquareRoot(0x9b05688c, 3, 13)
      && IsSquareRoot(0x1f83d9ab, 4, 17) && IsSquareRoot(0x5be0cd19, 4, 19);
  }

  lemma {:induction false} Cubes0()
    ensures IsCubeRoot(0x428a2f98, 1, 2) && IsCubeRoot(0x71374491, 1, 3) && IsCubeRoot(0xb5c0fbcf, 1, 5)
      && IsCubeRoot(0xe9b5dba5, 1, 7) && IsCubeRoot(0x3956c25b, 2, 11) && IsCubeRoot(0x59f111f1, 2, 13)
      && IsCubeRoot(0x923f82a4, 2, 17) && IsCubeRoot(0xab1c5ed5, 2, 19)
  {
  }

  lemma {:induction false} Cubes1()
    ensures IsCubeRoot(0xd807aa98, 2, 23) && IsCubeRoot(0x12835b01, 3, 29) && IsCubeRoot(0x243185be, 3, 31)
      && IsCubeRoot(0x550c7dc3, 3, 37) && IsCubeRoot(0x72be5d74, 3, 41) && IsCubeRoot(0x80deb1fe, 3, 43)
      && IsCubeRoot(0x9bdc06a7, 3, 47) && IsCubeRoot(0xc19bf174, 3, 53)
  {
  }

  lemma {:induction false} Cubes2()
    ensures IsCubeRoot(0xe49b69c1, 3, 59) && IsCubeRoot(0xefbe4786, 3, 61) && IsCubeRoot(0x0fc19dc6, 4, 67)
      && IsCubeRoot(0x240ca1cc, 4, 71) && IsCubeRoot(0x2de92c6f, 4, 73) && IsCubeRoot(0x4a7484aa, 4, 79)
      && IsCubeRoot(0x5cb0a9dc, 4, 83) && IsCubeRoot(0x76f988da, 4, 89)
  {
  }

  lemma {:induction false} Cubes3()
    ensures IsCubeRoot(0x983e5152, 4, 97) && IsCubeRoot(0xa831c66d, 4, 101) && IsCubeRoot(0xb00327c8, 4, 103)
      && IsCubeRoot(0xbf597fc7, 4, 107) && IsCubeRoot(0xc6e00bf3, 4, 109) && IsCubeRoot(0xd5a79147, 4, 113)
      && IsCubeRoot(0x06ca6351, 5, 127) && IsCubeRoot(0x14292967, 5, 131)
  {
  }

  lemma {:induction false} Cubes4()
    ensures IsCubeRoot(0x27b70a85, 5, 137) && IsCubeRoot(0x2e1b2138, 5, 139) && IsCubeRoot(0x4d2c6dfc, 5, 149)
      && IsCubeRoot(0x53380d13, 5, 151) && IsCubeRoot(0x650a7354, 5, 157) && IsCubeRoot(0x766a0abb, 5, 163)
      && IsCubeRoot(0x81c2c92e, 5, 167) && IsCubeRoot(0x92722c85, 5, 173)
  {
  }

  lemma {:induction false} Cubes5()
    ensures IsCubeRoot(0xa2bfe8a1, 5, 179) && IsCubeRoot(0xa81a664b, 5, 181) && IsCubeRoot(0xc24b8b70, 5, 191)
      && IsCubeRoot(0xc76c51a3, 5, 193) && IsCubeRoot(0xd192e819, 5, 197) && IsCubeRoot(0xd6990624, 5, 199)
      && IsCubeRoot(0xf40e3585, 5, 211) && IsCubeRoot(0x106aa070, 6, 223)
  {
  }

  lemma {:induction false} Cubes6()
    ensures IsCubeRoot(0x19a4c116, 6, 227) && IsCubeRoot(0x1e376c08, 6, 229) && IsCubeRoot(0x2748774c, 6, 233)
      && IsCubeRoot(0x34b0bcb5, 6, 239) && IsCubeRoot(0x391c0cb3, 6, 241) && IsCubeRoot(0x4ed8aa4a, 6, 251)
      && IsCubeRoot(0x5b9cca4f, 6, 257) && IsCubeRoot(0x682e6ff3, 6, 263)
  {
  }

  lemma {:induction false} Cubes7()
    ensures IsCubeRoot(0x748f82ee, 6, 269) && IsCubeRoot(0x78a5636f, 6, 271) && IsCubeRoot(0x84c87814, 6, 277)
      && IsCubeRoot(0x8cc70208, 6, 281) && IsCubeRoot(0x90befffa, 6, 283) && IsCubeRoot(0xa4506ceb, 6, 293)
      && IsCubeRoot(0xbef9a3f7, 6, 307) && IsCubeRoot(0xc67178f2, 6, 311)
  {
  }

  lemma {:induction false} Roots0()
    ensures RootsOf(K0(), [2, 3, 5, 7, 11, 13, 17, 19, 23, 29, 31, 37, 41, 43, 47, 53])
  {
    hide IsCubeRoot;
    Cubes0();
    Cubes1();
  }

  lemma {:induction false} Roots1()
    ensures RootsOf(K1(), [59, 61, 67, 71, 73, 79, 83, 89, 97, 101, 103, 107, 109, 113, 127, 131])
  {
    hide IsCubeRoot;
    Cubes2();
    Cubes3();
  }

  lemma {:induction false} Roots2()
    ensures RootsOf(K2(), [137, 139, 149, 151, 157, 163, 167, 173, 179, 181, 191, 193, 197, 199, 211, 223])
  {
    hide IsCubeRoot;
    Cubes4();
    Cubes5();
  }

  lemma {:induction false} Roots3()
    ensures RootsOf(K3(), [227, 229, 233, 239, 241, 251, 257, 263, 269, 271, 277, 281, 283, 293, 307, 311])
  {
    hide IsCubeRoot;
    Cubes6();
    Cubes7();
  }

  /** The round constants are the cube roots of the first 64 primes. */
  lemma {:induction false} ConstantsAreRoots()
    ensures RootsOf(K()[..16], [2, 3, 5, 7, 11, 13, 17, 19, 23, 29, 31, 37, 41, 43, 47, 53])
    ensures RootsOf(K()[16..32], [59, 61, 67, 71, 73, 79, 83, 89, 97, 101, 103, 107, 109, 113, 127, 131])
    ensures RootsOf(K()[32..48], [137, 139, 149, 151, 157, 163, 167, 173, 179, 181, 191, 193, 197, 199, 211, 223])
    ensures RootsOf(K()[48..], [227, 229, 233, 239, 241, 251, 257, 263, 269, 271, 277, 281, 283, 293, 307, 311])
  {
    hide K0, K1, K2, K3, RootsOf;
    Roots0();
    Roots1();
    Roots2();
    Roots3();
    assert K()[..16] == K0() && K()[16..32] == K1() && K()[32..48] == K2() && K()[48..] == K3();
  }

  // ----- the mixers, bit by bit

  lemma {:induction false} Converted(b: Bits)
    ensures (b as int) as Bits == b
  {
  }

  /** The choice has the second's bits where the first has ones, and the third's elsewhere. */
  lemma {:induction false} Chooses(x: Bits, y: Bits, z: Bits)
    ensures ChBits(x, y, z) & x == y & x && ChBits(x, y, z) & !x == z & !x
  {
  }

  /** The majority has the bits the first two agree on, and the third's elsewhere. */
  lemma {:induction false} Outvotes(x: Bits, y: Bits, z: Bits)
    ensures MajBits(x, y, z) & !(x ^ y) == x & !(x ^ y) && MajBits(x, y, z) & (x ^ y) == z & (x ^ y)
  {
  }

  /** Where the mixers send the lowest and the highest bit: the rotating ones to three places each, the shifting ones
      too
      unless the bit is shifted out. */
  lemma {:induction false} SingleBits()
    ensures BigSigma0Bits(1) == 0x4008_0400 && BigSigma0Bits(0x8000_0000) == 0x2004_0200
    ensures BigSigma1Bits(1) == 0x0420_0080 && BigSigma1Bits(0x8000_0000) == 0x0210_0040
    ensures SmallSigma0Bits(1) == 0x0200_4000 && SmallSigma0Bits(0x8000_0000) == 0x1100_2000
    ensures SmallSigma1Bits(1) == 0xA000 && SmallSigma1Bits(0x8000_0000) == 0x20_5000
  {
  }

  /** The mixers of words are those of their bits. */
  lemma {:induction false} WordsMix(x: Bits, y: Bits, z: Bits)
    ensures Ch(x as int, y as int, z as int) == ChBits(x, y, z) as int
    ensures Maj(x as int, y as int, z as int) == MajBits(x, y, z) as int
    ensures BigSigma0(x as int) == BigSigma0Bits(x) as int && BigSigma1(x as int) == BigSigma1Bits(x) as int
    ensures SmallSigma0(x as int) == SmallSigma0Bits(x) as int && SmallSigma1(x as int) == SmallSigma1Bits(x) as int
  {
    hide ChBits, MajBits, BigSigma0Bits, BigSigma1Bits, SmallSigma0Bits, SmallSigma1Bits;
    Converted(x);
    Converted(y);
    Converted(z);
  }

  // ----- one block

  /** Four bytes, the most significant first. */
  function Big(a: int, b: int, c: int, d: int): int {
    a * 0x100_0000 + b * 0x1_0000 + c * 0x100 + d
  }

  /** The first sixteen words are the block's, and each later one is the sum of four before it. */
  predicate IsWord(w: seq<Word>, block: seq<byte>, t: nat)
    requires |w| == |block| == 64 && t < 64
  {
    if t < 16 then w[t] == Big(block[4 * t], block[4 * t + 1], block[4 * t + 2], block[4 * t + 3])
    else w[t] == (SmallSigma1(w[t - 2]) as int + w[t - 7] + SmallSigma0(w[t - 15]) + w[t - 16]) % 0x1_0000_0000
  }

  predicate IsSchedule(w: seq<Word>, block: seq<byte>)
    requires |block| == 64
  {
    |w| == 64 && forall t :: 0 <= t < 64 ==> IsWord(w, block, t)
  }

  /** One round: everything moves one place on, and two of the places get a sum on the way. */
  predicate Steps(v: Vars, k: Word, w: Word, next: Vars) {
    var t1 := v.h as int + BigSigma1(v.e) + Ch(v.e, v.f, v.g) + k + w;
    && next.b == v.a && next.c == v.b && next.d == v.c && next.f == v.e && next.g == v.f && next.h == v.g
    && next.e == (v.d as int + t1) % 0x1_0000_0000
    && next.a == (t1 + BigSigma0(v.a) + Maj(v.a, v.b, v.c)) % 0x1_0000_0000
  }

  predicate IsRun(s: seq<Vars>, w: seq<Word>)
    requires |w| == 64
  {
    |s| == 65 && forall t :: 0 <= t < 64 ==> Steps(s[t], K()[t], w[t], s[t + 1])
  }

  predicate Begins(v: Vars, h: seq<Word>)
    requires |h| == 8
  {
    v.a == h[0] && v.b == h[1] && v.c == h[2] && v.d == h[3] && v.e == h[4] && v.f == h[5] && v.g == h[6] && v.h == h[7]
  }

  /** Each word of the result is the word before the block and the variable after the last round. */
  predicate Adds(h: seq<Word>, v: Vars, r: seq<Word>)
    requires |h| == |r| == 8
  {
    && r[0] == (h[0] as int + v.a) % 0x1_0000_0000 && r[1] == (h[1] as int + v.b) % 0x1_0000_0000
    && r[2] == (h[2] as int + v.c) % 0x1_0000_0000 && r[3] == (h[3] as int + v.d) % 0x1_0000_0000
    && r[4] == (h[4] as int + v.e) % 0x1_0000_0000 && r[5] == (h[5] as int + v.f) % 0x1_0000_0000
    && r[6] == (h[6] as int + v.g) % 0x1_0000_0000 && r[7] == (h[7] as int + v.h) % 0x1_0000_0000
  }

  ghost predicate CompressesVia(h: seq<Word>, block: seq<byte>, r: seq<Word>, w: seq<Word>, s: seq<Vars>)
    requires |h| == |r| == 8 && |block| == 64
  {
    IsSchedule(w, block) && IsRun(s, w) && Begins(s[0], h) && Adds(h, s[64], r)
  }

  /** The steps of section 6.2.2 lead from `h` over the block to `r`. */
  ghost predicate Compresses(h: seq<Word>, block: seq<byte>, r: seq<Word>)
    requires |h| == |r| == 8 && |block| == 64
  {
    exists w, s :: CompressesVia(h, block, r, w, s)
  }

  lemma {:induction false} ScheduleAt(block: seq<byte>, n: nat, t: nat)
    requires |block| == 64 && t < n
    ensures var w := Schedule(block, n);
      w[t] == if t < 16 then BigEndian(block[4 * t..4 * t + 4])
              else Add(Add(Add(SmallSigma1(w[t - 2]), w[t - 7]), SmallSigma0(w[t - 15])), w[t - 16])
    decreases n
  {
    hide BigEndian, Add, SmallSigma0, SmallSigma1;
    if t < n - 1 {
      ScheduleAt(block, n - 1, t);
    }
  }

  lemma {:induction false} ReadBig(block: seq<byte>, t: nat)
    requires |block| == 64 && t < 16
    ensures BigEndian(block[4 * t..4 * t + 4])
         == Big(block[4 * t], block[4 * t + 1], block[4 * t + 2], block[4 * t + 3])
  {
  }

  lemma {:induction false} ScheduleWord(block: seq<byte>, t: nat)
    requires |block| == 64 && t < 64
    ensures IsWord(Schedule(block, 64), block, t)
  {
    hide Schedule, Add, SmallSigma0, SmallSigma1, Big, BigEndian;
    var w := Schedule(block, 64);
    ScheduleAt(block, 64, t);
    if t < 16 {
      ReadBig(block, t);
    } else {
      AddFour(SmallSigma1(w[t - 2]), w[t - 7], SmallSigma0(w[t - 15]), w[t - 16]);
    }
  }

  lemma {:induction false} ScheduleExactly(block: seq<byte>)
    requires |block| == 64
    ensures IsSchedule(Schedule(block, 64), block)
  {
    hide Schedule, IsWord;
    forall t | 0 <= t < 64
      ensures IsWord(Schedule(block, 64), block, t)
    {
      ScheduleWord(block, t);
    }
  }

  lemma {:induction false} AddTo(x: Word, y: Word, m: int, n: int)
    requires x == m % WORD32 && y == n % WORD32
    ensures Add(x, y) == (m + n) % WORD32
  {
  }

  lemma {:induction false} RoundSteps(v: Vars, k: Word, w: Word)
    ensures Steps(v, k, w, Round(v, k, w))
  {
    hide Add, BigSigma0, BigSigma1, Ch, Maj;
    var s, c, u, m := BigSigma1(v.e), Ch(v.e, v.f, v.g), BigSigma0(v.a), Maj(v.a, v.b, v.c);
    var h := v.h as int;
    AddTo(v.h, s, h, s);
    AddTo(Add(v.h, s), c, h + s, c);
    AddTo(Add(Add(v.h, s), c), k, h + s + c, k);
    AddTo(Add(Add(Add(v.h, s), c), k), w, h + s + c + k, w);
    var t1 := Add(Add(Add(Add(v.h, s), c), k), w);
    AddTo(v.d, t1, v.d, h + s + c + k + w);
    AddTo(u, m, u, m);
    AddTo(t1, Add(u, m), h + s + c + k + w, u as int + m);
  }

  /** One block absorbed is what the standard's steps lead to. */
  lemma {:induction false} CompressIsStandard(h: seq<Word>, block: seq<byte>)
    requires |h| == 8 && |block| == 64
    ensures Compresses(h, block, Compress(h, block))
  {
    hide Schedule, Round, IsSchedule, Steps, K, Add;
    var w := Schedule(block, 64);
    ScheduleExactly(block);
    var s := seq(65, t requires 0 <= t < 65 => Rounds(Load(h), w, t));
    forall t | 0 <= t < 64
      ensures Steps(s[t], K()[t], w[t], s[t + 1])
    {
      assert s[t + 1] == Round(s[t], K()[t], w[t]);
      RoundSteps(s[t], K()[t], w[t]);
    }
    AddsEach(h, s[64], Compress(h, block));
    assert CompressesVia(h, block, Compress(h, block), w, s);
  }

  lemma {:induction false} AddsEach(h: seq<Word>, v: Vars, r: seq<Word>)
    requires |h| == |r| == 8
    requires r == [Add(h[0], v.a), Add(h[1], v.b), Add(h[2], v.c), Add(h[3], v.d),
                   Add(h[4], v.e), Add(h[5], v.f), Add(h[6], v.g), Add(h[7], v.h)]
    ensures Adds(h, v, r)
  {
  }

  // ----- the whole message

  /** The message, a one bit, zeros up to the last eight bytes, and there its length in bits. */
  ghost predicate IsPadded(padded: seq<byte>, m: seq<byte>) {
    && |padded| % 64 == 0 && |m| + 9 <= |padded| < |m| + 9 + 64
    && (forall i :: 0 <= i < |m| ==> padded[i] == m[i]) && padded[|m|] == 0x80
    && (forall i :: |m| < i < |padded| - 8 ==> padded[i] == 0)
    && LengthAt(padded[|padded| - 8..]) == 8 * |m| % 0x1_0000_0000_0000_0000
  }

  function LengthAt(b: seq<byte>): nat
    requires |b| == 8
  {
    Big(b[0], b[1], b[2], b[3]) * 0x1_0000_0000 + Big(b[4], b[5], b[6], b[7])
  }

  lemma {:induction false} Quotients(u: nat)
    ensures u / 0x1_0000 == u / 0x100 / 0x100 && u / 0x100_0000 == u / 0x1_0000 / 0x100
    ensures u / 0x1_0000_0000 == u / 0x100_0000 / 0x100
  {
  }

  lemma {:induction false} DigitsRead(u: nat)
    requires u < WORD64
    ensures LengthAt(BigDigits(u)) == u
  {
    var high := u / 0x1_0000_0000;
    Quotients(u);
    Quotients(high);
    assert u / 0x100_0000_0000 == high / 0x100;
    assert u / 0x1_0000_0000_0000 == high / 0x1_0000;
    assert u / 0x100_0000_0000_0000 == high / 0x100_0000;
    FourDigits(u);
    FourDigits(high);
    assert high / 0x1_0000_0000 == 0;
  }

  lemma {:induction false} FourDigits(u: nat)
    ensures Big(u / 0x100_0000 % 0x100, u / 0x1_0000 % 0x100, u / 0x100 % 0x100, u % 0x100)
         == u - u / 0x1_0000_0000 * 0x1_0000_0000
  {
    Quotients(u);
    var a, b, c := u / 0x100, u / 0x1_0000, u / 0x100_0000;
    assert u == 0x100 * a + u % 0x100 && a == 0x100 * b + a % 0x100 && b == 0x100 * c + b % 0x100;
    assert c == 0x100 * (c / 0x100) + c % 0x100;
  }

  lemma {:induction false} PadIsStandard(m: seq<byte>)
    ensures IsPadded(Pad(m), m)
  {
    hide BigDigits, LengthAt;
    PaddingIsStandard(m);
    DigitsRead(8 * |m| % WORD64);
    assert Pad(m)[|Pad(m)| - 8..] == Be64(8 * |m|);
  }

  /** `hs` are the hash values before the first block and after each. */
  ghost predicate Chains(hs: seq<seq<Word>>, padded: seq<byte>) {
    && |padded| % 64 == 0 && |hs| == |padded| / 64 + 1 && (forall i :: 0 <= i < |hs| ==> |hs[i]| == 8)
    && forall i :: 0 <= i < |hs| - 1 ==> Compresses(hs[i], padded[64 * i..64 * i + 64], hs[i + 1])
  }

  lemma {:induction false} AbsorbChains(h: seq<Word>, m: seq<byte>) returns (hs: seq<seq<Word>>)
    requires |h| == 8 && |m| % 64 == 0
    ensures Chains(hs, m) && hs[0] == h && hs[|hs| - 1] == Absorb(h, m)
    decreases |m|
  {
    hide Compress, Compresses;
    if |m| < 64 {
      hs := [h];
    } else {
      var rest := AbsorbChains(Compress(h, m[..64]), m[64..]);
      hs := [h] + rest;
      forall i | 0 <= i < |hs| - 1
        ensures Compresses(hs[i], m[64 * i..64 * i + 64], hs[i + 1])
      {
        if i == 0 {
          CompressIsStandard(h, m[..64]);
          assert m[64 * 0..64 * 0 + 64] == m[..64];
        } else {
          assert Compresses(rest[i - 1], m[64..][64 * (i - 1)..64 * (i - 1) + 64], rest[i - 1 + 1]);
          assert m[64..][64 * (i - 1)..64 * (i - 1) + 64] == m[64 * i..64 * i + 64];
        }
      }
    }
  }

  /** The words, most significant byte first. */
  predicate Spells(d: seq<byte>, h: seq<Word>) {
    && |d| == 4 * |h|
    && forall i :: 0 <= i < |h| ==>
         h[i] == Big(d[4 * i], d[4 * i + 1], d[4 * i + 2], d[4 * i + 3])
  }

  lemma {:induction false} SerializeSpells(h: seq<Word>)
    ensures Spells(Serialize(h), h)
  {
    hide Big, BigEndianBytes;
    if h != [] {
      SerializeSpells(h[1..]);
      BytesRead(h[0]);
      var d, rest := Serialize(h), Serialize(h[1..]);
      forall i | 0 <= i < |h|
        ensures h[i] == Big(d[4 * i], d[4 * i + 1], d[4 * i + 2], d[4 * i + 3])
      {
        if i > 0 {
          var k := i - 1;
          assert d[4 * i] == rest[4 * k] && d[4 * i + 1] == rest[4 * k + 1];
          assert d[4 * i + 2] == rest[4 * k + 2] && d[4 * i + 3] == rest[4 * k + 3];
          assert h[1..][k] == Big(rest[4 * k], rest[4 * k + 1], rest[4 * k + 2], rest[4 * k + 3]);
        }
      }
    }
  }

  lemma {:induction false} BytesRead(w: Word)
    ensures var b := BigEndianBytes(w); w == Big(b[0], b[1], b[2], b[3])
  {
    var a := w / 0x100;
    var b := a / 0x100;
    assert w / 0x1_0000 == b && w / 0x100_0000 == b / 0x100;
  }

  ghost predicate DigestsVia(d: seq<byte>, m: seq<byte>, padded: seq<byte>, hs: seq<seq<Word>>) {
    IsPadded(padded, m) && Chains(hs, padded) && hs[0] == H0 && Spells(d, hs[|hs| - 1])
  }

  /** The digest is the standard's: the padded message's blocks, compressed one after the other. */
  lemma {:induction false} DigestIsStandard(m: seq<byte>)
    ensures exists padded, hs :: DigestsVia(Digest(m), m, padded, hs)
  {
    hide Chains, Absorb, Pad, Spells, IsPadded;
    PadIsStandard(m);
    PaddedWhole(Pad(m), m);
    var hs := AbsorbChains(H0, Pad(m));
    SerializeSpells(Absorb(H0, Pad(m)));
    assert DigestsVia(Digest(m), m, Pad(m), hs);
  }

  lemma {:induction false} PaddedWhole(padded: seq<byte>, m: seq<byte>)
    requires IsPadded(padded, m)
    ensures |padded| % 64 == 0
  {
  }
}
