/**
 * The inspector, the reader and the encoder of ANIM v1 agree: what the inspector accepts is encoded again to the same
 * bytes, and what the encoder writes is accepted and read back as the same clip.
 */
module AnimCodec {
  import opened Outcome
  import opened Bytes
  import opened Anim

  // ----- records

  lemma {:induction false} UnpackPack(key: Key)
    ensures Unpack(Pack(key), |key|) == key
    decreases |key|
  {
    hide Le32, U32;
    if key != [] {
      U32OfLe32(key[0]);
      assert Pack(key)[..4] == Le32(key[0]);
      assert Pack(key)[4..] == Pack(key[1..]);
      UnpackPack(key[1..]);
    }
  }

  lemma {:induction false} PackUnpack(s: seq<byte>, width: nat)
    requires |s| == 4 * width
    ensures Pack(Unpack(s, width)) == s
    decreases width
  {
    hide Le32, U32;
    if width > 0 {
      Le32OfU32(s[..4]);
      PackUnpack(s[4..], width - 1);
      assert s[..4] + s[4..] == s;
      assert Unpack(s, width)[1..] == Unpack(s[4..], width - 1);
    }
  }

  // ----- names

  lemma {:induction false} InspectedName(s: seq<byte>, done: seq<byte>)
    requires InspectName(s, done).Ok?
    ensures var (name, rest) := InspectName(s, done).value;
            && FindNul(s).Some?
            && var k := FindNul(s).value;
               && name == done + s[..k] && rest == s[k + 1..]
               && 0 < |name| <= MAX_NAME_BYTES && 0 !in s[..k]
    decreases |s|
  {
    if s[0] == 0 {
      assert done + s[..0] == done;
    } else {
      InspectedName(s[1..], done + [s[0]]);
      var k := FindNul(s[1..]).value;
      assert s[..k + 1] == [s[0]] + s[1..][..k];
      assert done + [s[0]] + s[1..][..k] == done + s[..k + 1];
      assert s[1..][k + 1..] == s[k + 2..];
    }
  }

  lemma {:induction false} WrittenName(bytes: seq<byte>, rest: seq<byte>, done: seq<byte>)
    requires 0 !in bytes && 0 < |done + bytes| <= MAX_NAME_BYTES
    ensures InspectName(bytes + [0] + rest, done) == Ok((done + bytes, rest))
    ensures FindNul(bytes + [0] + rest) == Some(|bytes|)
    decreases |bytes|
  {
    var s := bytes + [0] + rest;
    if bytes == [] {
      assert s[1..] == rest;
      assert done + bytes == done;
    } else {
      assert s[1..] == bytes[1..] + [0] + rest;
      assert done + [bytes[0]] + bytes[1..] == done + bytes;
      WrittenName(bytes[1..], rest, done + [bytes[0]]);
    }
  }

  // ----- channels

  lemma {:induction false} CheckedKey(key: Key, kind: Kind, duration: float, previous: Option<float>)
    requires |key| == Width(kind)
    ensures CheckKey(key, duration, previous).Ok? <==> EncodeKey(key, kind, duration, previous).Ok?
    ensures EncodeKey(key, kind, duration, previous).Ok? ==> EncodeKey(key, kind, duration, previous).value == Pack(key)
  {
    hide AllFinite, Decreases, Outside, Pack;
  }

  lemma {:induction false} InspectedKeys(s: seq<byte>, count: nat, kind: Kind, duration: float, previous: Option<float>,
                                         tail: Option<Key>)
    requires KeyBytes(kind, count) <= |s|
    requires InspectKeys(s, count, kind, duration, previous, tail).Ok?
    ensures var body := s[..KeyBytes(kind, count)];
            var keys := Records(body, count, kind);
            && EncodeKeys(keys, kind, duration, previous) == Ok(body)
            && InspectKeys(s, count, kind, duration, previous, tail).value
            == (if count == 0 then tail else Tail(keys), s[KeyBytes(kind, count)..])
    decreases count
  {
    hide Unpack, CheckKey, EncodeKey, Pack;
    if count > 0 {
      var size := 4 * Width(kind);
      var body := s[..KeyBytes(kind, count)];
      var key := Unpack(s[..size], Width(kind));
      CheckedKey(key, kind, duration, previous);
      PackUnpack(s[..size], Width(kind));
      InspectedKeys(s[size..], count - 1, kind, duration, Some(key[0]), Some(key));
      assert body[..size] == s[..size];
      assert body[size..] == s[size..][..KeyBytes(kind, count - 1)];
      assert s[size..][KeyBytes(kind, count - 1)..] == s[KeyBytes(kind, count)..];
      assert s[..size] + body[size..] == body;
      var keys := Records(body, count, kind);
      assert keys[0] == key && keys[1..] == Records(body[size..], count - 1, kind);
    }
  }

  lemma {:induction false} Split(a: seq<byte>, b: seq<byte>, rest: seq<byte>)
    ensures (a + b)[..|a|] == a && (a + b)[|a|..] == b
    ensures (a + b + rest)[..|a|] == a && (a + b + rest)[|a|..] == b + rest
  {
  }

  lemma {:induction false} WrittenKeys(keys: seq<Key>, kind: Kind, duration: float, previous: Option<float>,
                                       tail: Option<Key>, rest: seq<byte>)
    requires EncodeKeys(keys, kind, duration, previous).Ok?
    ensures var body := EncodeKeys(keys, kind, duration, previous).value;
            && |body| == KeyBytes(kind, |keys|)
            && Records(body, |keys|, kind) == keys
            && InspectKeys(body + rest, |keys|, kind, duration, previous, tail)
            == Ok((if keys == [] then tail else Tail(keys), rest))
    decreases |keys|
  {
    hide Unpack, CheckKey, EncodeKey, Pack;
    if keys == [] {
      assert [] + rest == rest;
    } else {
      var key := keys[0];
      var body := EncodeKeys(keys, kind, duration, previous).value;
      var more := EncodeKeys(keys[1..], kind, duration, Some(key[0])).value;
      CheckedKey(key, kind, duration, previous);
      UnpackPack(key);
      WrittenKeys(keys[1..], kind, duration, Some(key[0]), Some(key), rest);
      Split(Pack(key), more, rest);
      assert [key] + keys[1..] == keys;
    }
  }

  lemma {:induction false} InspectedChannel(s: seq<byte>, kind: Kind, duration: float)
    requires InspectChannel(s, kind, duration).Ok?
    ensures ReadChannel(s, kind).Ok?
    ensures var (keys, rest) := ReadChannel(s, kind).value;
            && InspectChannel(s, kind, duration).value == (|keys|, Tail(keys), rest)
            && EncodeChannel(keys, kind, duration).Ok?
            && s == EncodeChannel(keys, kind, duration).value + rest
  {
    hide InspectKeys, Records, EncodeKeys, Le32, U32;
    var count := U32(s[..4]);
    var size := KeyBytes(kind, count);
    InspectedKeys(s[4..], count, kind, duration, None, None);
    Le32OfU32(s[..4]);
    var body := s[4..4 + size];
    assert s[4..][..size] == body;
    assert s[4..][size..] == s[4 + size..];
    assert s == s[..4] + body + s[4 + size..];
  }

  lemma {:induction false} WrittenChannel(keys: seq<Key>, kind: Kind, duration: float, rest: seq<byte>)
    requires EncodeChannel(keys, kind, duration).Ok?
    ensures var s := EncodeChannel(keys, kind, duration).value + rest;
            && InspectChannel(s, kind, duration) == Ok((|keys|, Tail(keys), rest))
            && ReadChannel(s, kind) == Ok((keys, rest))
  {
    hide InspectKeys, Records, EncodeKeys, Le32, U32;
    var body := EncodeKeys(keys, kind, duration, None).value;
    var s := Le32(|keys|) + body + rest;
    WrittenKeys(keys, kind, duration, None, None, rest);
    U32OfLe32(|keys|);
    assert s[..4] == Le32(|keys|);
    assert s[4..] == body + rest;
    assert s[4..4 + |body|] == body;
    assert s[4 + |body|..] == rest;
  }

  // ----- tracks

  lemma {:induction false} InspectedTrack(s: seq<byte>, duration: float, names: set<seq<int>>, total: nat)
    requires InspectTrack(s, duration, names).Ok?
    ensures ReadTrack(s).Ok?
    ensures var (track, rest) := ReadTrack(s).value;
            && InspectTrack(s, duration, names).value == (InfoOf(track), rest)
            && (total + Keys(track) <= MAX_TOTAL_KEYS ==>
              && EncodeTrack(track, duration, names, total).Ok?
              && s == EncodeTrack(track, duration, names, total).value + rest)
  {
    hide InspectName, FindNul, InspectChannel, ReadChannel, EncodeChannel, Utf8.DecodeAll, NonAscii, Tail;
    InspectedName(s, []);
    var nul := FindNul(s).value;
    var bytes := s[..nul];
    assert [] + bytes == bytes;
    InspectedChannel(s[nul + 1..], Position, duration);
    var between := ReadChannel(s[nul + 1..], Position).value.1;
    InspectedChannel(between, Rotation, duration);
    assert s == bytes + [0] + s[nul + 1..];
  }

  lemma {:induction false} WrittenTrack(track: Track, duration: float, names: set<seq<int>>, total: nat,
                                        rest: seq<byte>)
    requires EncodeTrack(track, duration, names, total).Ok?
    ensures var s := EncodeTrack(track, duration, names, total).value + rest;
            && InspectTrack(s, duration, names) == Ok((InfoOf(track), rest))
            && ReadTrack(s) == Ok((track, rest))
  {
    hide InspectName, FindNul, InspectChannel, ReadChannel, EncodeChannel, Utf8.DecodeAll, NonAscii, Tail;
    var positions := EncodeChannel(track.positions, Position, duration).value;
    var rotations := EncodeChannel(track.rotations, Rotation, duration).value;
    var s := track.bytes + [0] + positions + rotations + rest;
    var afterName := positions + (rotations + rest);
    assert s == track.bytes + [0] + afterName;
    assert [] + track.bytes == track.bytes;
    WrittenName(track.bytes, afterName, []);
    assert s[..|track.bytes|] == track.bytes;
    assert s[|track.bytes| + 1..] == afterName;
    WrittenChannel(track.positions, Position, duration, rotations + rest);
    WrittenChannel(track.rotations, Rotation, duration, rest);
    assert track == Track(track.name, track.bytes, track.positions, track.rotations);
  }

  lemma {:induction false} InspectedTracks(s: seq<byte>, n: nat, duration: float, names: set<seq<int>>, tally: Tally)
    requires InspectTracks(s, n, duration, names, tally).Ok?
    ensures ReadTracks(s, n).Ok?
    ensures var (tracks, rest) := ReadTracks(s, n).value;
            && |tracks| == n
            && InspectTracks(s, n, duration, names, tally).value == (Summarise(tracks, tally), rest)
            && EncodeTracks(tracks, duration, names, tally.positions + tally.rotations).Ok?
            && s == EncodeTracks(tracks, duration, names, tally.positions + tally.rotations).value + rest
    decreases n
  {
    hide InspectTrack, ReadTrack, EncodeTrack, NonAscii, Tail;
    if n == 0 {
      assert [] + s == s;
    } else {
      var total := tally.positions + tally.rotations;
      InspectedTrack(s, duration, names, total);
      var (track, between) := ReadTrack(s).value;
      InspectedTracks(between, n - 1, duration, names + {track.name}, Count(tally, InfoOf(track)));
      var (tracks, rest) := ReadTracks(between, n - 1).value;
      assert ([track] + tracks)[1..] == tracks;
      var more := EncodeTracks(tracks, duration, names + {track.name}, total + Keys(track)).value;
      var first := EncodeTrack(track, duration, names, total).value;
      assert first + (more + rest) == first + more + rest;
    }
  }

  lemma {:induction false} WrittenTracks(tracks: seq<Track>, duration: float, names: set<seq<int>>, tally: Tally,
                                         rest: seq<byte>)
    requires EncodeTracks(tracks, duration, names, tally.positions + tally.rotations).Ok?
    ensures var s := EncodeTracks(tracks, duration, names, tally.positions + tally.rotations).value + rest;
            && InspectTracks(s, |tracks|, duration, names, tally) == Ok((Summarise(tracks, tally), rest))
            && ReadTracks(s, |tracks|) == Ok((tracks, rest))
    decreases |tracks|
  {
    hide InspectTrack, ReadTrack, NonAscii, Tail, EncodeChannel, CheckName;
    if tracks == [] {
      assert [] + rest == rest;
    } else {
      var track := tracks[0];
      var total := tally.positions + tally.rotations;
      var first := EncodeTrack(track, duration, names, total).value;
      var more := EncodeTracks(tracks[1..], duration, names + {track.name}, total + Keys(track)).value;
      WrittenTrack(track, duration, names, total, more + rest);
      WrittenTracks(tracks[1..], duration, names + {track.name}, Count(tally, InfoOf(track)), rest);
      assert first + more + rest == first + (more + rest);
      assert [track] + tracks[1..] == tracks;
    }
  }

  // ----- files

  lemma {:induction false} HeaderReads(duration: float, tracks: nat, body: seq<byte>)
    requires tracks < WORD32
    ensures var raw := Header(duration, tracks) + body;
            && raw[..4] == MAGIC
            && U32(raw[4..8]) == VERSION
            && HeaderDuration(raw) == duration
            && HeaderTracks(raw) == tracks
            && raw[HEADER_BYTES..] == body
  {
    hide Le32, U32;
    var raw := Header(duration, tracks) + body;
    U32OfLe32(VERSION);
    U32OfLe32(duration);
    U32OfLe32(tracks);
    assert raw[4..8] == Le32(VERSION);
    assert raw[8..12] == Le32(duration);
    assert raw[12..16] == Le32(tracks);
  }

  lemma {:induction false} HeaderWrites(raw: seq<byte>)
    requires |raw| >= HEADER_BYTES && raw[..4] == MAGIC && U32(raw[4..8]) == VERSION
    ensures Header(HeaderDuration(raw), HeaderTracks(raw)) == raw[..HEADER_BYTES]
  {
    hide Le32, U32;
    Le32OfU32(raw[4..8]);
    Le32OfU32(raw[8..12]);
    Le32OfU32(raw[12..16]);
    assert raw[..HEADER_BYTES] == raw[..4] + raw[4..8] + raw[8..12] + raw[12..16];
  }

  /**
   * A file the inspector accepts is read without error, its clip is encoded to the very same bytes, and the
   * inspector's report is the summary of that clip.
   */
  lemma {:induction false} AcceptedIsReencoded(raw: seq<byte>)
    requires Inspect(raw).Ok?
    ensures Read(raw).Ok?
    ensures Encode(Read(raw).value) == Ok(raw)
    ensures Inspect(raw).value == Summary(Read(raw).value, raw)
  {
    hide InspectTracks, ReadTracks, EncodeTracks, Le32, U32, IsFinite, RealOf, Summarise, Header, Sha256.Digest;
    InspectedTracks(raw[HEADER_BYTES..], HeaderTracks(raw), HeaderDuration(raw), {}, NOTHING);
    HeaderWrites(raw);
    var tracks := ReadTracks(raw[HEADER_BYTES..], HeaderTracks(raw)).value.0;
    var body := EncodeTracks(tracks, HeaderDuration(raw), {}, 0).value;
    assert body + [] == body;
    assert raw == raw[..HEADER_BYTES] + body;
  }

  /** What the encoder writes, the inspector accepts and the reader returns as the clip it was. */
  lemma {:induction false} EncodedIsAccepted(clip: Clip)
    requires Encode(clip).Ok?
    ensures Inspect(Encode(clip).value) == Ok(Summary(clip, Encode(clip).value))
    ensures Read(Encode(clip).value) == Ok(clip)
  {
    hide InspectTracks, ReadTracks, EncodeTracks, Le32, U32, IsFinite, RealOf, Summarise, Header, Sha256.Digest;
    var body := EncodeTracks(clip.tracks, clip.duration, {}, 0).value;
    HeaderReads(clip.duration, |clip.tracks|, body);
    WrittenTracks(clip.tracks, clip.duration, {}, NOTHING, []);
    assert body + [] == body;
    assert clip == Clip(clip.duration, clip.tracks, VERSION);
  }

  /** The files the inspector accepts are exactly the encodings of clips. */
  lemma {:induction false} AcceptedIffEncoded(raw: seq<byte>)
    ensures Inspect(raw).Ok? <==> exists clip :: Encode(clip) == Ok(raw)
  {
    hide Inspect, Encode, Read, Summary;
    if Inspect(raw).Ok? {
      AcceptedIsReencoded(raw);
    }
    forall clip | Encode(clip) == Ok(raw) ensures Inspect(raw).Ok? {
      EncodedIsAccepted(clip);
    }
  }

  /** Two clips are never encoded to the same file. */
  lemma {:induction false} EncodingIsInjective(c: Clip, d: Clip)
    requires Encode(c).Ok? && Encode(c) == Encode(d)
    ensures c == d
  {
    hide Inspect, Encode, Read, Summary;
    EncodedIsAccepted(c);
    EncodedIsAccepted(d);
  }

  /** `write_clip`: encoded and then inspected; the inspection refuses nothing the encoder let through. */
  method WriteClip(clip: Clip) returns (r: Result<seq<byte>>)
    ensures r == Encode(clip)
  {
    hide Inspect, Encode, Read, Summary;
    r := EncodeClip(clip);
    if r.Ok? {
      EncodedIsAccepted(clip);
      var info := InspectFile(r.value);
      r := Unless(info, r);
    }
  }

  /** The value, unless the check before it refused. */
  function Unless<T, U>(check: Result<T>, value: Result<U>): Result<U> {
    match check
    case Ok(_) => value
    case Err(e) => Err(e)
  }

  /** The roundtrip command: every file it reads it writes again, byte for byte. */
  method RewriteFile(raw: seq<byte>) returns (exact: Result<bool>)
    ensures exact.Ok? ==> exact.value
    ensures exact.Ok? <==> Inspect(raw).Ok?
  {
    hide Inspect, Encode, Read, Summary;
    var clip := ReadClip(raw);
    if Inspect(raw).Ok? {
      AcceptedIsReencoded(raw);
    } else {
      RefusedIsNotRead(raw);
    }
    if clip.Err? {
      return Err(clip.error);
    }
    var written := WriteClip(clip.value);
    exact := Unless(written, Ok(written == Ok(raw)));
  }

  lemma {:induction false} RefusedIsNotRead(raw: seq<byte>)
    requires Inspect(raw).Err?
    ensures Read(raw).Err?
  {
    hide Inspect, Decoded;
  }
}
