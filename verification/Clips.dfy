/**
 * Which clips can be stored, as what bytes, and what the inspector reports of them
 * (tools/inspect_infantry_animation.py, tools/compose_infantry_animation.py), said of the clip and of addresses alone.
 */
module Clips {
  import opened Outcome
  import opened Bytes
  import opened Anim
  import opened AnimCodec

  import Sha256
  import Utf8

  // ----- the numbers

  lemma {:induction false} WeightTimes(a: nat, b: nat)
    ensures Weight(a + b) == Weight(a) * Weight(b)
  {
    if a > 0 {
      WeightTimes(a - 1, b);
      var x, y := Weight(a - 1), Weight(b);
      assert (2 * x) * y == 2 * (x * y);
    }
  }

  lemma {:induction false} WeightTwice(n: nat, w: int, v: int)
    requires Weight(n) == w && v == w * w
    ensures Weight(n + n) == v
  {
    WeightTimes(n, n);
  }

  lemma {:induction false} WeightAlso(n: nat, k: nat, w: int, x: int, v: int)
    requires Weight(n) == w && Weight(k) == x && v == w * x
    ensures Weight(n + k) == v
  {
    WeightTimes(n, k);
  }

  lemma {:induction false} WeightOfOne()
    ensures Weight(127) == 0x8000_0000_0000_0000_0000_0000_0000_0000
  {
    assert Weight(3) == 8;
    assert Weight(4) == 16;
    hide Weight;
    WeightTwice(4, 16, 0x100);
    WeightTwice(8, 0x100, 0x1_0000);
    WeightTwice(16, 0x1_0000, 0x1_0000_0000);
    WeightTwice(32, 0x1_0000_0000, 0x1_0000_0000_0000_0000);
    WeightAlso(64, 32, 0x1_0000_0000_0000_0000, 0x1_0000_0000, 0x1_0000_0000_0000_0000_0000_0000);
    WeightAlso(96, 16, 0x1_0000_0000_0000_0000_0000_0000, 0x1_0000, 0x1_0000_0000_0000_0000_0000_0000_0000);
    WeightAlso(112, 8, 0x1_0000_0000_0000_0000_0000_0000_0000, 0x100, 0x100_0000_0000_0000_0000_0000_0000_0000);
    WeightAlso(120, 4, 0x100_0000_0000_0000_0000_0000_0000_0000, 16, 0x1000_0000_0000_0000_0000_0000_0000_0000);
    WeightAlso(124, 3, 0x1000_0000_0000_0000_0000_0000_0000_0000, 8, 0x8000_0000_0000_0000_0000_0000_0000_0000);
  }

  lemma {:induction false} OneToTwo(f: nat)
    requires 0x3F80_0000 <= f < 0x4000_0000
    ensures RealOf(f) == 1.0 + (f - 0x3F80_0000) as real / 8388608.0
  {
    hide Weight;
    WeightOfOne();
    assert Exponent(f) == 127 && f % 0x80_0000 == f - 0x3F80_0000;
  }

  lemma {:induction false} NextExponent(f: nat)
    requires 0x80_0000 <= f < 0x7F00_0000
    ensures RealOf(f + 0x80_0000) == 2.0 * RealOf(f)
  {
    hide Weight;
    var g := f + 0x80_0000;
    assert Exponent(g) == Exponent(f) + 1 && g % 0x80_0000 == f % 0x80_0000;
    WeightTimes(1, Exponent(f));
    WeightOne();
    Doubled(f % 0x80_0000 + 0x80_0000, Weight(Exponent(f)));
  }

  lemma {:induction false} Subnormal(f: nat)
    requires f <= 0x80_0000
    ensures RealOf(f) == f as real * RealOf(1)
  {
    hide Weight;
    WeightOne();
    assert Exponent(1) == 0 && RealOf(1) == 2.0 / UNIT;
    if f < 0x80_0000 {
      assert Exponent(f) == 0 && f % 0x80_0000 == f;
    } else {
      assert Exponent(f) == 1 && f % 0x80_0000 == 0;
    }
  }

  lemma {:induction false} Mirrored(f: nat)
    requires f < 0x8000_0000
    ensures RealOf(f + 0x8000_0000) == -RealOf(f)
  {
    hide Weight;
    assert Exponent(f + 0x8000_0000) == Exponent(f) && (f + 0x8000_0000) % 0x80_0000 == f % 0x80_0000;
  }

  /** The numbers of float32 (IEEE 754, binary32): from one to two in steps of 2^-23, doubled by each step of the
      exponent,
      evenly spaced where the exponent field is zero, and mirrored by the sign. */
  lemma {:induction false} RealOfIsIeee(f: nat)
    ensures 0x3F80_0000 <= f < 0x4000_0000 ==> RealOf(f) == 1.0 + (f - 0x3F80_0000) as real / 8388608.0
    ensures 0x80_0000 <= f < 0x7F00_0000 ==> RealOf(f + 0x80_0000) == 2.0 * RealOf(f)
    ensures f <= 0x80_0000 ==> RealOf(f) == f as real * RealOf(1)
    ensures f < 0x8000_0000 ==> RealOf(f + 0x8000_0000) == -RealOf(f)
  {
    hide RealOf;
    if 0x3F80_0000 <= f < 0x4000_0000 {
      OneToTwo(f);
    }
    if 0x80_0000 <= f < 0x7F00_0000 {
      NextExponent(f);
    }
    if f <= 0x80_0000 {
      Subnormal(f);
    }
    if f < 0x8000_0000 {
      Mirrored(f);
    }
  }

  lemma {:induction false} WeightOne()
    ensures Weight(1) == 2
  {
    assert Weight(0) == 1;
  }

  lemma {:induction false} Doubled(a: int, w: int)
    ensures a * (2 * w) == 2 * (a * w)
  {
  }

  /** A finite number without a sign, by its exponent's weight and its mantissa, in units of 2^-150. */
  lemma {:induction false} Scaled(f: nat, e: nat, n: nat)
    requires f == 0x80_0000 * e + n && n < 0x80_0000 && e < 0xFF
    ensures RealOf(f) == (if e == 0 then n * 2 else (n + 0x80_0000) * Weight(e)) as real / UNIT
  {
    hide Weight;
    assert Exponent(f) == e && f % 0x80_0000 == n;
  }

  lemma {:induction false} OneMore(a: int, w: int)
    ensures (a + 1) * w == a * w + w
  {
  }

  lemma {:induction false} NextIsLarger(f: nat)
    requires f + 1 < 0x7F80_0000
    ensures RealOf(f) < RealOf(f + 1)
  {
    hide Weight, RealOf;
    WeightOne();
    var e, n := f / 0x80_0000, f % 0x80_0000;
    var w := Weight(e);
    Scaled(f, e, n);
    if n + 1 < 0x80_0000 {
      Scaled(f + 1, e, n + 1);
      OneMore(n + 0x80_0000, w);
    } else {
      Scaled(f + 1, e + 1, 0);
      WeightTimes(1, e);
      Doubled(0x80_0000, w);
    }
  }

  /** Numbers without a sign are ordered like their bit patterns. */
  lemma {:induction false} FloatOrder(f: nat, g: nat)
    requires f < g < 0x7F80_0000
    ensures RealOf(f) < RealOf(g)
    decreases g - f
  {
    hide RealOf;
    NextIsLarger(f);
    if f + 1 < g {
      FloatOrder(f + 1, g);
    }
  }

  // ----- what can be stored

  /** A key of `n` finite components whose time lies in the clip, up to a ten thousandth. */
  ghost predicate KeyFits(key: Key, n: nat, end: real) {
    && |key| == n > 0 && (forall f :: f in key ==> f / 0x80_0000 % 0x100 != 0xFF)
    && -1.0 / 10000.0 <= RealOf(key[0]) <= end + 1.0 / 10000.0
  }

  /** No time is more than a ten thousandth before the one before it. */
  ghost predicate InOrder(keys: seq<Key>) {
    forall i :: 0 < i < |keys| && |keys[i - 1]| > 0 && |keys[i]| > 0
      ==> RealOf(keys[i - 1][0]) <= RealOf(keys[i][0]) + 1.0 / 10000.0
  }

  ghost predicate ChannelFits(keys: seq<Key>, n: nat, end: real) {
    && |keys| <= 2_000_000 && (forall key :: key in keys ==> KeyFits(key, n, end)) && InOrder(keys)
  }

  /** The bytes are the name's UTF-8 encoding, 1 to 4096 of them and none zero. */
  ghost predicate NameFits(track: Track) {
    && 1 <= |track.bytes| <= 4096 && 0 !in track.bytes
    && exists text :: Utf8.EncodeAll(text) == track.bytes && track.name == text
  }

  ghost predicate TrackFits(track: Track, end: real) {
    && NameFits(track) && ChannelFits(track.positions, 4, end) && ChannelFits(track.rotations, 5, end)
  }

  function PositionKeys(tracks: seq<Track>): nat {
    if tracks == [] then 0 else |tracks[0].positions| + PositionKeys(tracks[1..])
  }

  function RotationKeys(tracks: seq<Track>): nat {
    if tracks == [] then 0 else |tracks[0].rotations| + RotationKeys(tracks[1..])
  }

  /** A clip of version 1 that lasts a finite time, with at most 16384 tracks of different names and 8000000 keys. */
  ghost predicate Storable(clip: Clip) {
    && clip.version == 1
    && clip.duration / 0x80_0000 % 0x100 != 0xFF && RealOf(clip.duration) >= 0.0
    && |clip.tracks| <= 16384
    && (forall track :: track in clip.tracks ==> TrackFits(track, RealOf(clip.duration)))
    && (forall i, j :: 0 <= i < j < |clip.tracks| ==> clip.tracks[i].name != clip.tracks[j].name)
    && PositionKeys(clip.tracks) + RotationKeys(clip.tracks) <= 8_000_000
  }

  // ----- as what bytes

  /** The number at address `p`, least byte first. */
  function Word(raw: seq<byte>, p: nat): nat
    requires p + 4 <= |raw|
  {
    raw[p] as int + 0x100 * raw[p + 1] as int + 0x1_0000 * raw[p + 2] as int + 0x100_0000 * raw[p + 3] as int
  }

  /** From `at` on stand the keys, each as its `n` components. */
  predicate KeysAt(raw: seq<byte>, at: nat, keys: seq<Key>, n: nat)
    decreases keys
  {
    keys == []
    || (&& at + 4 * n <= |raw| && |keys[0]| == n && (forall c :: 0 <= c < n ==> Word(raw, at + 4 * c) == keys[0][c])
        && KeysAt(raw, at + 4 * n, keys[1..], n))
  }

  function SizeOf(track: Track): nat {
    |track.bytes| + 9 + 16 * |track.positions| + 20 * |track.rotations|
  }

  /** At `at` stand the name and a zero, the number of positions and the positions, the number of rotations and the
      rotations. */
  predicate TrackAt(raw: seq<byte>, at: nat, track: Track) {
    var counted := at + |track.bytes| + 1;
    var turned := counted + 4 + 16 * |track.positions|;
    && at + SizeOf(track) <= |raw|
    && raw[at..counted - 1] == track.bytes && raw[counted - 1] == 0
    && Word(raw, counted) == |track.positions| && KeysAt(raw, counted + 4, track.positions, 4)
    && Word(raw, turned) == |track.rotations| && KeysAt(raw, turned + 4, track.rotations, 5)
  }

  predicate TracksAt(raw: seq<byte>, at: nat, tracks: seq<Track>)
    decreases tracks
  {
    if tracks == [] then at == |raw|
    else TrackAt(raw, at, tracks[0]) && TracksAt(raw, at + SizeOf(tracks[0]), tracks[1..])
  }

  /** The file holds the clip: the letters ANIM, the version, the duration, the number of tracks, and the tracks. */
  predicate HoldsClip(raw: seq<byte>, clip: Clip) {
    && 16 <= |raw| <= 268_435_456
    && raw[0] == 0x41 && raw[1] == 0x4E && raw[2] == 0x49 && raw[3] == 0x4D
    && Word(raw, 4) == 1 && Word(raw, 8) == clip.duration && Word(raw, 12) == |clip.tracks|
    && TracksAt(raw, 16, clip.tracks)
  }

  // ----- the encoder's bytes

  function Packed(keys: seq<Key>): seq<byte> {
    if keys == [] then [] else Pack(keys[0]) + Packed(keys[1..])
  }

  lemma {:induction false} WordIsU32(raw: seq<byte>, p: nat)
    requires p + 4 <= |raw|
    ensures Word(raw, p) == U32(raw[p..p + 4])
  {
  }

  lemma {:induction false} WordsAt(raw: seq<byte>, p: nat, v: nat)
    requires p + 4 <= |raw| && v < WORD32
    ensures Word(raw, p) == v <==> raw[p..p + 4] == Le32(v)
  {
    hide Le32, U32, Word;
    WordIsU32(raw, p);
    U32OfLe32(v);
    Le32OfU32(raw[p..p + 4]);
  }

  predicate WordsStand(raw: seq<byte>, at: nat, key: seq<float>)
    requires at + 4 * |key| <= |raw|
  {
    forall c :: 0 <= c < |key| ==> Word(raw, at + 4 * c) == key[c]
  }

  lemma {:induction false} WordsStandCons(raw: seq<byte>, at: nat, key: seq<float>)
    requires key != [] && at + 4 * |key| <= |raw|
    ensures WordsStand(raw, at, key) <==> Word(raw, at) == key[0] && WordsStand(raw, at + 4, key[1..])
  {
    hide Word;
    if WordsStand(raw, at, key) {
      assert Word(raw, at + 4 * 0) == key[0];
      forall c | 0 <= c < |key[1..]| ensures Word(raw, at + 4 + 4 * c) == key[1..][c] {
        assert Word(raw, at + 4 * (c + 1)) == key[c + 1];
      }
    }
    if Word(raw, at) == key[0] && WordsStand(raw, at + 4, key[1..]) {
      forall c | 0 <= c < |key| ensures Word(raw, at + 4 * c) == key[c] {
        if c > 0 {
          assert Word(raw, at + 4 + 4 * (c - 1)) == key[1..][c - 1];
        }
      }
    }
  }

  lemma {:induction false} KeyStands(raw: seq<byte>, at: nat, key: seq<float>)
    requires at + 4 * |key| <= |raw|
    ensures WordsStand(raw, at, key) <==> raw[at..at + 4 * |key|] == Pack(key)
    decreases |key|
  {
    hide Le32, Word, WordsStand;
    if key == [] {
      assert WordsStand(raw, at, key) by {
        NoWords(raw, at);
      }
    } else {
      var end := at + 4 * |key|;
      KeyStands(raw, at + 4, key[1..]);
      WordsAt(raw, at, key[0]);
      WordsStandCons(raw, at, key);
      assert raw[at..end] == raw[at..at + 4] + raw[at + 4..end];
      Halves(raw[at..at + 4], raw[at + 4..end], Le32(key[0]), Pack(key[1..]));
    }
  }

  lemma {:induction false} NoWords(raw: seq<byte>, at: nat)
    requires at <= |raw|
    ensures WordsStand(raw, at, [])
  {
  }

  lemma {:induction false} KeyAt(raw: seq<byte>, at: nat, key: Key)
    requires at + 4 * |key| <= |raw|
    ensures (forall c :: 0 <= c < |key| ==> Word(raw, at + 4 * c) == key[c]) <==> raw[at..at + 4 * |key|] == Pack(key)
  {
    hide Pack, Word;
    KeyStands(raw, at, key);
  }

  lemma {:induction false} Halves(a: seq<byte>, b: seq<byte>, x: seq<byte>, y: seq<byte>)
    requires |a| == |x|
    ensures a + b == x + y <==> a == x && b == y
  {
    if a + b == x + y {
      assert a == (a + b)[..|a|] && b == (a + b)[|a|..] && x == (x + y)[..|x|] && y == (x + y)[|x|..];
    }
  }

  lemma {:induction false} PackedLength(keys: seq<Key>, n: nat)
    requires n == 4 || n == 5
    requires forall key :: key in keys ==> |key| == n
    ensures |Packed(keys)| == if n == 4 then 16 * |keys| else 20 * |keys|
  {
    if keys != [] {
      PackedLength(keys[1..], n);
    }
  }

  /** A slice cut in two holds two texts one after the other exactly when each part holds its own. */
  lemma {:induction false} Cut(raw: seq<byte>, at: nat, mid: nat, end: nat, x: seq<byte>, y: seq<byte>)
    requires at <= mid <= end <= |raw| && mid - at == |x|
    ensures raw[at..end] == x + y <==> raw[at..mid] == x && raw[mid..end] == y
  {
    assert raw[at..end] == raw[at..mid] + raw[mid..end];
    Halves(raw[at..mid], raw[mid..end], x, y);
  }

  lemma {:induction false} KeysAtExactly(raw: seq<byte>, at: nat, keys: seq<Key>, n: nat)
    requires n == 4 || n == 5
    requires forall key :: key in keys ==> |key| == n
    requires at + |Packed(keys)| <= |raw|
    ensures KeysAt(raw, at, keys, n) <==> raw[at..at + |Packed(keys)|] == Packed(keys)
    decreases keys
  {
    hide Word, Pack;
    if keys != [] {
      KeyAt(raw, at, keys[0]);
      KeysAtExactly(raw, at + 4 * n, keys[1..], n);
      Cut(raw, at, at + 4 * n, at + |Packed(keys)|, Pack(keys[0]), Packed(keys[1..]));
    }
  }

  function PackedTrack(track: Track): seq<byte> {
    track.bytes + [0] + (Le32(|track.positions|) + Packed(track.positions))
    + (Le32(|track.rotations|) + Packed(track.rotations))
  }

  function PackedTracks(tracks: seq<Track>): seq<byte> {
    if tracks == [] then [] else PackedTrack(tracks[0]) + PackedTracks(tracks[1..])
  }

  /** The widths and counts of a track that can be written at all. */
  ghost predicate Shaped(track: Track) {
    && (forall key :: key in track.positions ==> |key| == 4) && (forall key :: key in track.rotations ==> |key| == 5)
    && |track.positions| < WORD32 && |track.rotations| < WORD32
  }

  lemma {:induction false} TrackSize(track: Track)
    requires Shaped(track)
    ensures |PackedTrack(track)| == SizeOf(track)
    ensures |Packed(track.positions)| == 16 * |track.positions| && |Packed(track.rotations)| == 20 * |track.rotations|
  {
    hide Le32, Packed;
    PackedLength(track.positions, 4);
    PackedLength(track.rotations, 5);
  }

  lemma {:induction false} TrackAtExactly(raw: seq<byte>, at: nat, track: Track)
    requires Shaped(track) && at + SizeOf(track) <= |raw|
    ensures TrackAt(raw, at, track) <==> raw[at..at + SizeOf(track)] == PackedTrack(track)
  {
    hide Le32, Word, KeysAt, Packed, PackedTrack, TrackAt;
    TrackSize(track);
    var counted, end := at + |track.bytes| + 1, at + SizeOf(track);
    var turned := counted + 4 + |Packed(track.positions)|;
    assert end == turned + 4 + |Packed(track.rotations)|;
    TrackAtIs(raw, at, counted, turned, track);
    KeysAtExactly(raw, counted + 4, track.positions, 4);
    KeysAtExactly(raw, turned + 4, track.rotations, 5);
    hide SizeOf;
    WordsAt(raw, counted, |track.positions|);
    WordsAt(raw, turned, |track.rotations|);
    CutTrack(raw, at, counted, turned, end, track);
  }

  lemma {:induction false} TrackAtIs(raw: seq<byte>, at: nat, counted: nat, turned: nat, track: Track)
    requires counted == at + |track.bytes| + 1 && turned == counted + 4 + 16 * |track.positions|
    requires at + SizeOf(track) <= |raw|
    ensures TrackAt(raw, at, track)
       <==> && raw[at..counted - 1] == track.bytes && raw[counted - 1] == 0
            && Word(raw, counted) == |track.positions| && KeysAt(raw, counted + 4, track.positions, 4)
            && Word(raw, turned) == |track.rotations| && KeysAt(raw, turned + 4, track.rotations, 5)
  {
    hide Word, KeysAt;
  }

  lemma {:induction false} CutTrack(raw: seq<byte>, at: nat, counted: nat, turned: nat, end: nat, track: Track)
    requires counted == at + |track.bytes| + 1 && turned == counted + 4 + |Packed(track.positions)|
    requires end == turned + 4 + |Packed(track.rotations)| <= |raw|
    ensures raw[at..end] == PackedTrack(track)
       <==> && raw[at..counted - 1] == track.bytes && raw[counted - 1] == 0
            && raw[counted..counted + 4] == Le32(|track.positions|)
            && raw[counted + 4..turned] == Packed(track.positions)
            && raw[turned..turned + 4] == Le32(|track.rotations|) && raw[turned + 4..end] == Packed(track.rotations)
  {
    hide Le32, Packed;
    var name, first, second := track.bytes + [0], Le32(|track.positions|) + Packed(track.positions),
        Le32(|track.rotations|) + Packed(track.rotations);
    Cut(raw, at, turned, end, name + first, second);
    Cut(raw, at, counted, turned, name, first);
    Cut(raw, at, counted - 1, counted, track.bytes, [0]);
    Cut(raw, counted, counted + 4, turned, Le32(|track.positions|), Packed(track.positions));
    Cut(raw, turned, turned + 4, end, Le32(|track.rotations|), Packed(track.rotations));
  }

  lemma {:induction false} TracksAtExactly(raw: seq<byte>, at: nat, tracks: seq<Track>)
    requires at <= |raw| && forall track :: track in tracks ==> Shaped(track)
    ensures TracksAt(raw, at, tracks) <==> raw[at..] == PackedTracks(tracks)
    decreases tracks
  {
    hide TrackAt, PackedTrack, Shaped, SizeOf, PackedTracks;
    if tracks == [] {
      NoTracks(raw, at);
    } else {
      var size := SizeOf(tracks[0]);
      var first, rest := PackedTrack(tracks[0]), PackedTracks(tracks[1..]);
      TrackSize(tracks[0]);
      assert PackedTracks(tracks) == first + rest by {
        PackedTracksCons(tracks);
      }
      if at + size <= |raw| {
        TrackAtExactly(raw, at, tracks[0]);
        TracksAtExactly(raw, at + size, tracks[1..]);
        assert raw[at + size..] == raw[at + size..|raw|] && raw[at..] == raw[at..|raw|];
        Cut(raw, at, at + size, |raw|, first, rest);
      } else {
        TrackInside(raw, at, tracks[0]);
        assert |first + rest| > |raw[at..]|;
      }
    }
  }

  lemma {:induction false} NoTracks(raw: seq<byte>, at: nat)
    requires at <= |raw|
    ensures at == |raw| <==> raw[at..] == PackedTracks([])
  {
  }

  lemma {:induction false} PackedTracksCons(tracks: seq<Track>)
    requires tracks != []
    ensures PackedTracks(tracks) == PackedTrack(tracks[0]) + PackedTracks(tracks[1..])
  {
    hide PackedTrack;
  }

  lemma {:induction false} TrackInside(raw: seq<byte>, at: nat, track: Track)
    ensures TrackAt(raw, at, track) ==> at + SizeOf(track) <= |raw|
  {
  }

  // ----- the encoder's checks

  lemma {:induction false} FiniteExactly(key: Key)
    ensures AllFinite(key) <==> forall f :: f in key ==> f / 0x80_0000 % 0x100 != 0xFF
  {
    if AllFinite(key) {
      forall f | f in key
        ensures f / 0x80_0000 % 0x100 != 0xFF
      {
        var i :| 0 <= i < |key| && key[i] == f;
        assert IsFinite(key[i]);
      }
    }
    if forall f :: f in key ==> f / 0x80_0000 % 0x100 != 0xFF {
      forall i | 0 <= i < |key|
        ensures IsFinite(key[i])
      {
        assert key[i] in key;
      }
    }
  }

  lemma {:induction false} EncodeKeyExactly(key: Key, kind: Kind, duration: float, previous: Option<float>)
    ensures EncodeKey(key, kind, duration, previous).Ok?
       <==> && KeyFits(key, if kind.Position? then 4 else 5, RealOf(duration))
            && (previous.Some? ==> RealOf(previous.value) <= RealOf(key[0]) + 1.0 / 10000.0)
    ensures EncodeKey(key, kind, duration, previous).Ok? ==> EncodeKey(key, kind, duration, previous).value == Pack(key)
  {
    hide RealOf, Pack, AllFinite;
    FiniteExactly(key);
  }

  lemma {:induction false} InOrderCons(keys: seq<Key>)
    requires keys != [] && |keys[0]| > 0
    ensures InOrder(keys)
       <==> (|keys| > 1 && |keys[1]| > 0 ==> RealOf(keys[0][0]) <= RealOf(keys[1][0]) + 1.0 / 10000.0)
            && InOrder(keys[1..])
  {
    hide RealOf;
    var rest := keys[1..];
    if InOrder(keys) {
      forall i | 0 < i < |rest| && |rest[i - 1]| > 0 && |rest[i]| > 0
        ensures RealOf(rest[i - 1][0]) <= RealOf(rest[i][0]) + 1.0 / 10000.0
      {
        assert rest[i] == keys[i + 1] && rest[i - 1] == keys[i + 1 - 1];
      }
      if |keys| > 1 {
        assert keys[1 - 1] == keys[0];
      }
    }
    if InOrder(rest) {
      forall i | 1 < i < |keys| && |keys[i - 1]| > 0 && |keys[i]| > 0
        ensures RealOf(keys[i - 1][0]) <= RealOf(keys[i][0]) + 1.0 / 10000.0
      {
        assert rest[i - 1] == keys[i] && rest[i - 1 - 1] == keys[i - 1];
      }
    }
  }

  ghost predicate AllFit(keys: seq<Key>, n: nat, end: real) {
    forall key :: key in keys ==> KeyFits(key, n, end)
  }

  lemma {:induction false} AllFitCons(keys: seq<Key>, n: nat, end: real)
    requires keys != []
    ensures AllFit(keys, n, end) <==> KeyFits(keys[0], n, end) && AllFit(keys[1..], n, end)
    ensures AllFit(keys, n, end) && |keys| > 1 ==> |keys[1]| > 0
    ensures KeyFits(keys[0], n, end) ==> |keys[0]| > 0
  {
    hide RealOf;
    assert keys == [keys[0]] + keys[1..];
    assert |keys| > 1 ==> keys[1] in keys;
  }

  /** The first of the keys is not much before the key before them. */
  ghost predicate Continues(previous: Option<float>, keys: seq<Key>) {
    previous.Some? && keys != [] && |keys[0]| > 0 ==> RealOf(previous.value) <= RealOf(keys[0][0]) + 1.0 / 10000.0
  }

  lemma {:induction false} EncodeKeysExactly(keys: seq<Key>, kind: Kind, duration: float, previous: Option<float>)
    ensures EncodeKeys(keys, kind, duration, previous).Ok?
       <==> && AllFit(keys, if kind.Position? then 4 else 5, RealOf(duration)) && InOrder(keys)
            && Continues(previous, keys)
    ensures EncodeKeys(keys, kind, duration, previous).Ok? ==>
      EncodeKeys(keys, kind, duration, previous).value == Packed(keys)
  {
    hide RealOf, Pack, EncodeKey, KeyFits, InOrder, AllFit;
    if keys == [] {
      NoKeysFit(if kind.Position? then 4 else 5, RealOf(duration));
    } else {
      var n := if kind.Position? then 4 else 5;
      EncodeKeyExactly(keys[0], kind, duration, previous);
      AllFitCons(keys, n, RealOf(duration));
      if KeyFits(keys[0], n, RealOf(duration)) {
        EncodeKeysExactly(keys[1..], kind, duration, Some(keys[0][0]));
        InOrderCons(keys);
      }
    }
  }

  lemma {:induction false} NoKeysFit(n: nat, end: real)
    ensures AllFit([], n, end) && InOrder([])
  {
  }

  lemma {:induction false} EncodeChannelExactly(keys: seq<Key>, kind: Kind, duration: float)
    ensures EncodeChannel(keys, kind, duration).Ok?
       <==> ChannelFits(keys, if kind.Position? then 4 else 5, RealOf(duration))
    ensures EncodeChannel(keys, kind, duration).Ok? ==>
      EncodeChannel(keys, kind, duration).value == Le32(|keys|) + Packed(keys)
  {
    hide RealOf, EncodeKeys, KeyFits, InOrder, Packed;
    EncodeKeysExactly(keys, kind, duration, None);
  }

  lemma {:induction false} CheckNameExactly(track: Track, names: set<seq<int>>)
    ensures CheckName(track, names).Ok? <==> NameFits(track) && track.name !in names
  {
    hide Utf8.DecodeAll, Utf8.EncodeAll;
    var found := Utf8.DecodeAll(track.bytes);
    if found.Some? {
      Utf8.DecodeAllExactly(track.bytes, found.value);
    }
    forall text | Utf8.EncodeAll(text) == track.bytes && track.name == text
      ensures found == Some(text)
    {
      Utf8.DecodeAllExactly(track.bytes, text);
    }
  }

  lemma {:induction false} EncodeTrackExactly(track: Track, duration: float, names: set<seq<int>>, total: nat)
    ensures EncodeTrack(track, duration, names, total).Ok?
       <==> TrackFits(track, RealOf(duration)) && track.name !in names
            && total + |track.positions| + |track.rotations| <= 8_000_000
    ensures EncodeTrack(track, duration, names, total).Ok? ==>
      EncodeTrack(track, duration, names, total).value == PackedTrack(track)
  {
    hide RealOf, EncodeChannel, CheckName, NameFits, ChannelFits, Packed, Le32;
    CheckNameExactly(track, names);
    EncodeChannelExactly(track.positions, Position, duration);
    EncodeChannelExactly(track.rotations, Rotation, duration);
  }

  /** The tracks' names differ from one another and from `names`. */
  ghost predicate NamesApart(tracks: seq<Track>, names: set<seq<int>>) {
    && (forall track :: track in tracks ==> track.name !in names)
    && (forall i, j :: 0 <= i < j < |tracks| ==> tracks[i].name != tracks[j].name)
  }

  lemma {:induction false} NamesApartCons(tracks: seq<Track>, names: set<seq<int>>)
    requires tracks != []
    ensures NamesApart(tracks, names)
       <==> tracks[0].name !in names && NamesApart(tracks[1..], names + {tracks[0].name})
  {
    var rest, more := tracks[1..], names + {tracks[0].name};
    if NamesApart(tracks, names) {
      forall track | track in rest
        ensures track.name !in more
      {
        var i :| 0 <= i < |rest| && rest[i] == track;
        assert tracks[0].name != tracks[i + 1].name;
      }
      forall i, j | 0 <= i < j < |rest|
        ensures rest[i].name != rest[j].name
      {
        assert tracks[i + 1].name != tracks[j + 1].name;
      }
    }
    if tracks[0].name !in names && NamesApart(rest, more) {
      assert tracks == [tracks[0]] + rest;
      forall i, j | 0 <= i < j < |tracks|
        ensures tracks[i].name != tracks[j].name
      {
        assert tracks[j] == rest[j - 1];
        if i > 0 {
          assert rest[i - 1].name != rest[j - 1].name;
        } else {
          assert rest[j - 1] in rest;
        }
      }
    }
  }

  lemma {:induction false} EncodeTracksExactly(tracks: seq<Track>, duration: float, names: set<seq<int>>, total: nat)
    ensures EncodeTracks(tracks, duration, names, total).Ok?
       <==> && (forall track :: track in tracks ==> TrackFits(track, RealOf(duration))) && NamesApart(tracks, names)
            && (tracks != [] ==> total + PositionKeys(tracks) + RotationKeys(tracks) <= 8_000_000)
    ensures EncodeTracks(tracks, duration, names, total).Ok? ==>
      EncodeTracks(tracks, duration, names, total).value == PackedTracks(tracks)
  {
    hide RealOf, EncodeTrack, TrackFits, NamesApart, PackedTrack;
    if tracks != [] {
      var track := tracks[0];
      EncodeTrackExactly(track, duration, names, total);
      NamesApartCons(tracks, names);
      EncodeTracksExactly(tracks[1..], duration, names + {track.name}, total + Keys(track));
      assert tracks == [track] + tracks[1..];
    } else {
      NoNames(names);
    }
  }

  lemma {:induction false} NoNames(names: set<seq<int>>)
    ensures NamesApart([], names)
  {
  }

  // ----- the encoder, exactly

  lemma {:induction false} FitsIsShaped(track: Track, end: real)
    requires TrackFits(track, end)
    ensures Shaped(track)
  {
    hide RealOf;
  }

  lemma {:induction false} HoldsClipExactly(raw: seq<byte>, clip: Clip)
    requires |clip.tracks| < WORD32 && forall track :: track in clip.tracks ==> Shaped(track)
    ensures HoldsClip(raw, clip)
       <==> |raw| <= 268_435_456 && raw == Header(clip.duration, |clip.tracks|) + PackedTracks(clip.tracks)
  {
    hide Le32, Word, PackedTracks, Shaped, TracksAt;
    var body := PackedTracks(clip.tracks);
    var file := Header(clip.duration, |clip.tracks|) + body;
    if |raw| >= 16 {
      TracksAtExactly(raw, 16, clip.tracks);
      WordsAt(raw, 4, 1);
      WordsAt(raw, 8, clip.duration);
      WordsAt(raw, 12, |clip.tracks|);
      var a, b, c, d := raw[..4], raw[4..8], raw[8..12], raw[12..16];
      assert raw == a + b + c + d + raw[16..];
      Halves(a, b, MAGIC, Le32(1));
      Halves(a + b, c, MAGIC + Le32(1), Le32(clip.duration));
      Halves(a + b + c, d, MAGIC + Le32(1) + Le32(clip.duration), Le32(|clip.tracks|));
      Halves(a + b + c + d, raw[16..], Header(clip.duration, |clip.tracks|), body);
      assert a == MAGIC <==> raw[0] == 0x41 && raw[1] == 0x4E && raw[2] == 0x49 && raw[3] == 0x4D;
    }
  }

  /** A clip is encoded exactly when it can be stored in a file of at most 256 MiB, and as the file that holds it. */
  lemma {:induction false} EncodedExactly(clip: Clip, raw: seq<byte>)
    ensures Encode(clip) == Ok(raw) <==> Storable(clip) && HoldsClip(raw, clip)
  {
    hide RealOf, EncodeTracks, TrackFits, HoldsClip, Header, PackedTracks, Shaped;
    EncodeTracksExactly(clip.tracks, clip.duration, {}, 0);
    if |clip.tracks| <= 16384 && forall track :: track in clip.tracks ==> TrackFits(track, RealOf(clip.duration)) {
      forall track | track in clip.tracks
        ensures Shaped(track)
      {
        FitsIsShaped(track, RealOf(clip.duration));
      }
      HoldsClipExactly(raw, clip);
    }
  }

  // ----- the inspector's report

  predicate AnyHigh(bytes: seq<byte>) {
    exists b :: b in bytes && b >= 0x80
  }

  function HighNames(tracks: seq<Track>): nat {
    if tracks == [] then 0 else (if AnyHigh(tracks[0].bytes) then 1 else 0) + HighNames(tracks[1..])
  }

  /** What is listed of a track: its name, its bytes where one of them is not ASCII, how many keys each channel has and
      the last of each. */
  predicate Lists(info: TrackInfo, track: Track) {
    && info.name == track.name && info.nonAscii == (if AnyHigh(track.bytes) then Some(track.bytes) else None)
    && info.positionKeys == |track.positions| && info.rotationKeys == |track.rotations|
    && (if track.positions == [] then info.positionTail.None?
        else info.positionTail == Some(track.positions[|track.positions| - 1]))
    && (if track.rotations == [] then info.rotationTail.None?
        else info.rotationTail == Some(track.rotations[|track.rotations| - 1]))
  }

  predicate Reports(info: Info, clip: Clip, raw: seq<byte>) {
    && info.duration == clip.duration && info.trackCount == |clip.tracks| == |info.tally.tracks|
    && info.tally.positions == PositionKeys(clip.tracks) && info.tally.rotations == RotationKeys(clip.tracks)
    && info.tally.nonAscii == HighNames(clip.tracks)
    && (forall i :: 0 <= i < |clip.tracks| ==> Lists(info.tally.tracks[i], clip.tracks[i]))
    && info.sha == Sha256.Digest(raw)
  }

  lemma {:induction false} ListedExactly(track: Track)
    ensures Lists(InfoOf(track), track)
  {
    if AnyHigh(track.bytes) {
      var i :| 0 <= i < |track.bytes| && track.bytes[i] >= 0x80;
      assert NonAscii(track.bytes);
    }
    if NonAscii(track.bytes) {
      var i :| 0 <= i < |track.bytes| && track.bytes[i] >= 0x80;
      assert track.bytes[i] in track.bytes;
    }
  }

  lemma {:induction false} SummariseExactly(tracks: seq<Track>, tally: Tally)
    ensures var r := Summarise(tracks, tally);
      && r.positions == tally.positions + PositionKeys(tracks) && r.rotations == tally.rotations + RotationKeys(tracks)
      && r.nonAscii == tally.nonAscii + HighNames(tracks)
      && |r.tracks| == |tally.tracks| + |tracks| && r.tracks[..|tally.tracks|] == tally.tracks
      && forall i :: 0 <= i < |tracks| ==> Lists(r.tracks[|tally.tracks| + i], tracks[i])
    decreases tracks
  {
    hide Lists, InfoOf;
    if tracks != [] {
      ListedExactly(tracks[0]);
      CountsExactly(tracks[0], tally);
      var next := Count(tally, InfoOf(tracks[0]));
      SummariseExactly(tracks[1..], next);
      var r, n := Summarise(tracks, tally), |tally.tracks|;
      assert r.tracks[..n] == r.tracks[..n + 1][..n] && r.tracks[n] == r.tracks[..n + 1][n] == InfoOf(tracks[0]);
      forall i | 0 <= i < |tracks|
        ensures Lists(r.tracks[n + i], tracks[i])
      {
        if i > 0 {
          assert Lists(r.tracks[n + 1 + (i - 1)], tracks[1..][i - 1]);
        }
      }
    }
  }

  lemma {:induction false} CountsExactly(track: Track, tally: Tally)
    ensures var r := Count(tally, InfoOf(track));
      && r.positions == tally.positions + |track.positions| && r.rotations == tally.rotations + |track.rotations|
      && r.nonAscii == tally.nonAscii + (if AnyHigh(track.bytes) then 1 else 0)
      && r.tracks == tally.tracks + [InfoOf(track)]
  {
    ListedExactly(track);
  }

  lemma {:induction false} SummaryReports(clip: Clip, raw: seq<byte>)
    ensures Reports(Summary(clip, raw), clip, raw)
  {
    hide Lists, Sha256.Digest, Summarise;
    SummariseExactly(clip.tracks, NOTHING);
    forall i | 0 <= i < |clip.tracks|
      ensures Lists(Summarise(clip.tracks, NOTHING).tracks[i], clip.tracks[i])
    {
      assert Lists(Summarise(clip.tracks, NOTHING).tracks[|NOTHING.tracks| + i], clip.tracks[i]);
    }
  }

  /** A file is accepted exactly when it holds a clip that can be stored; the reader returns that clip, and the report
      is
      about it. */
  lemma {:induction false} AcceptedExactly(raw: seq<byte>, clip: Clip)
    ensures Inspect(raw).Ok? <==> exists c :: Storable(c) && HoldsClip(raw, c)
    ensures Read(raw) == Ok(clip) <==> Storable(clip) && HoldsClip(raw, clip)
    ensures Storable(clip) && HoldsClip(raw, clip) ==> Inspect(raw).Ok? && Reports(Inspect(raw).value, clip, raw)
  {
    hide Inspect, Read, Encode, Storable, HoldsClip, Reports, Summary;
    EncodedExactly(clip, raw);
    if Inspect(raw).Ok? {
      AcceptedIsReencoded(raw);
      EncodedExactly(Read(raw).value, raw);
    } else {
      RefusedIsNotRead(raw);
    }
    if Encode(clip) == Ok(raw) {
      EncodedIsAccepted(clip);
      SummaryReports(clip, raw);
    }
    forall c | Storable(c) && HoldsClip(raw, c)
      ensures Inspect(raw).Ok?
    {
      EncodedExactly(c, raw);
      EncodedIsAccepted(c);
    }
  }
}
