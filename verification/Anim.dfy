/**
 * The ANIM v1 format: what the inspector accepts (tools/inspect_infantry_animation.py), what the reader returns and
 * what the encoder writes (tools/compose_infantry_animation.py).
 */
module Anim {
  import opened Outcome
  import opened Bytes
  import opened Utf8

  import Sha256

  /** A float32 by its bit pattern. */
  type float = w: int | 0 <= w < WORD32

  function Exponent(f: float): nat {
    f / 0x80_0000 % 0x100
  }

  predicate IsFinite(f: float) {
    Exponent(f) != 0xFF
  }

  /** The weight of the last mantissa bit at exponent field `e`, in units of 2^-150. */
  function Weight(e: nat): (r: int)
    ensures r > 0
  {
    if e == 0 then 1 else 2 * Weight(e - 1)
  }

  /** 2^150. */
  const UNIT := 1427247692705959881058285969449495136382746624.0

  /** The number a finite float32 stands for; a zero exponent field has no hidden bit and weighs like one. */
  function RealOf(f: float): real {
    var fraction := f % 0x80_0000;
    var scaled := if Exponent(f) == 0 then fraction * 2 else (fraction + 0x80_0000) * Weight(Exponent(f));
    var size := scaled as real / UNIT;
    if f >= 0x8000_0000 then -size else size
  }

  const TIME_EPSILON := 0.0001
  const MAX_TRACKS := 16_384
  const MAX_KEYS_PER_TRACK := 2_000_000
  const MAX_TOTAL_KEYS := 8_000_000
  const MAX_FILE_BYTES := 256 * 1024 * 1024
  const MAX_NAME_BYTES := 4096
  const HEADER_BYTES := 16
  const MAGIC: seq<byte> := [65, 78, 73, 77]
  const VERSION := 1

  datatype Kind = Position | Rotation

  /** Time and three coordinates, or time and four quaternion components. */
  function Width(kind: Kind): nat {
    match kind
    case Position => 4
    case Rotation => 5
  }

  function KeyBytes(kind: Kind, count: nat): nat {
    match kind
    case Position => 16 * count
    case Rotation => 20 * count
  }

  type Key = seq<float>

  /** `name` is the decoded text, `bytes` what the file holds. */
  datatype Track = Track(name: seq<int>, bytes: seq<byte>, positions: seq<Key>, rotations: seq<Key>)

  datatype Clip = Clip(duration: float, tracks: seq<Track>, version: int)

  // ----- records

  function Pack(key: Key): (r: seq<byte>)
    ensures |r| == 4 * |key|
  {
    if key == [] then [] else Le32(key[0]) + Pack(key[1..])
  }

  function Unpack(s: seq<byte>, width: nat): (r: Key)
    requires |s| == 4 * width
    ensures |r| == width
    decreases width
  {
    if width == 0 then [] else [U32(s[..4])] + Unpack(s[4..], width - 1)
  }

  predicate AllFinite(key: Key) {
    forall i :: 0 <= i < |key| ==> IsFinite(key[i])
  }

  predicate Outside(time: float, duration: float) {
    RealOf(time) < -TIME_EPSILON || RealOf(time) > RealOf(duration) + TIME_EPSILON
  }

  predicate Decreases(time: float, previous: Option<float>) {
    previous.Some? && RealOf(time) + TIME_EPSILON < RealOf(previous.value)
  }

  // ----- the inspector

  datatype TrackInfo = TrackInfo(
    name: seq<int>,
    nonAscii: Option<seq<byte>>,
    positionKeys: nat,
    rotationKeys: nat,
    positionTail: Option<Key>,
    rotationTail: Option<Key>)

  /** The running totals of the inspector and the tracks it has listed. */
  datatype Tally = Tally(positions: nat, rotations: nat, nonAscii: nat, tracks: seq<TrackInfo>)

  datatype Info = Info(duration: float, trackCount: nat, tally: Tally, sha: seq<byte>)

  const NOTHING := Tally(0, 0, 0, [])

  predicate NonAscii(bytes: seq<byte>) {
    exists i :: 0 <= i < |bytes| && bytes[i] >= 0x80
  }

  function Listed(name: seq<int>, bytes: seq<byte>, positionKeys: nat, rotationKeys: nat, positionTail: Option<Key>,
                  rotationTail: Option<Key>): TrackInfo
  {
    TrackInfo(name, if NonAscii(bytes) then Some(bytes) else None,
              positionKeys, rotationKeys, positionTail, rotationTail)
  }

  function Count(tally: Tally, info: TrackInfo): Tally {
    Tally(tally.positions + info.positionKeys, tally.rotations + info.rotationKeys,
          tally.nonAscii + (if info.nonAscii.Some? then 1 else 0), tally.tracks + [info])
  }

  /** A name read byte by byte up to its NUL; `name` is what has been read. */
  function InspectName(s: seq<byte>, name: seq<byte>): (r: Result<(seq<byte>, seq<byte>)>)
    decreases |s|
  {
    if |name| > MAX_NAME_BYTES then Err(NameTooLong)
    else if s == [] then Err(Truncated)
    else if s[0] == 0 then if name == [] then Err(EmptyName) else Ok((name, s[1..]))
    else InspectName(s[1..], name + [s[0]])
  }

  function CheckKey(key: Key, duration: float, previous: Option<float>): Result<()>
    requires |key| > 0
  {
    if !AllFinite(key) then Err(NotFinite)
    else if Decreases(key[0], previous) then Err(TimesDecrease)
    else if Outside(key[0], duration) then Err(TimeOutside)
    else Ok(())
  }

  /** The key loop: the last key, and the bytes behind it. */
  function InspectKeys(s: seq<byte>, count: nat, kind: Kind, duration: float, previous: Option<float>,
                       tail: Option<Key>)
      : Result<(Option<Key>, seq<byte>)>
    decreases count
  {
    if count == 0 then Ok((tail, s))
    else if |s| < 4 * Width(kind) then Err(Truncated)
    else
      var key := Unpack(s[..4 * Width(kind)], Width(kind));
      var _ :- CheckKey(key, duration, previous);
      InspectKeys(s[4 * Width(kind)..], count - 1, kind, duration, Some(key[0]), Some(key))
  }

  /** A count and its keys. */
  function InspectChannel(s: seq<byte>, kind: Kind, duration: float): Result<(nat, Option<Key>, seq<byte>)> {
    if |s| < 4 then Err(Truncated)
    else
      var count := U32(s[..4]);
      if count > MAX_KEYS_PER_TRACK then Err(TooManyKeys)
      else if KeyBytes(kind, count) > |s| - 4 then Err(Truncated)
      else
        var (tail, rest) :- InspectKeys(s[4..], count, kind, duration, None, None);
        Ok((count, tail, rest))
  }

  function InspectTrack(s: seq<byte>, duration: float, names: set<seq<int>>): Result<(TrackInfo, seq<byte>)> {
    var (bytes, afterName) :- InspectName(s, []);
    match DecodeAll(bytes)
    case None => Err(BadUtf8)
    case Some(name) =>
      if name in names then Err(DuplicateName)
      else
        var (positionKeys, positionTail, between) :- InspectChannel(afterName, Position, duration);
        var (rotationKeys, rotationTail, rest) :- InspectChannel(between, Rotation, duration);
        Ok((Listed(name, bytes, positionKeys, rotationKeys, positionTail, rotationTail), rest))
  }

  function InspectTracks(s: seq<byte>, n: nat, duration: float, names: set<seq<int>>, tally: Tally)
    : Result<(Tally, seq<byte>)>
    decreases n
  {
    if n == 0 then Ok((tally, s))
    else
      var (info, rest) :- InspectTrack(s, duration, names);
      var next := Count(tally, info);
      if next.positions + next.rotations > MAX_TOTAL_KEYS then Err(TooManyKeys)
      else InspectTracks(rest, n - 1, duration, names + {info.name}, next)
  }

  function HeaderDuration(raw: seq<byte>): float
    requires |raw| >= HEADER_BYTES
  {
    U32(raw[8..12])
  }

  function HeaderTracks(raw: seq<byte>): nat
    requires |raw| >= HEADER_BYTES
  {
    U32(raw[12..16])
  }

  function CheckHeader(raw: seq<byte>): Result<()> {
    if |raw| > MAX_FILE_BYTES then Err(FileTooLarge)
    else if |raw| < HEADER_BYTES then Err(Truncated)
    else if raw[..4] != MAGIC then Err(BadMagic)
    else if U32(raw[4..8]) != VERSION then Err(BadVersion)
    else if !IsFinite(HeaderDuration(raw)) || RealOf(HeaderDuration(raw)) < 0.0 then Err(BadDuration)
    else if HeaderTracks(raw) > MAX_TRACKS then Err(TooManyTracks)
    else Ok(())
  }

  function Inspect(raw: seq<byte>): Result<Info> {
    var _ :- CheckHeader(raw);
    var (tally, rest) :- InspectTracks(raw[HEADER_BYTES..], HeaderTracks(raw), HeaderDuration(raw), {}, NOTHING);
    if rest != [] then Err(TrailingData)
    else Ok(Info(HeaderDuration(raw), HeaderTracks(raw), tally, Sha256.Digest(raw)))
  }

  // ----- the reader

  /** Where the first NUL stands. */
  function FindNul(s: seq<byte>): (r: Option<nat>)
    ensures r.Some? ==> r.value < |s| && s[r.value] == 0
  {
    if s == [] then None
    else if s[0] == 0 then Some(0)
    else match FindNul(s[1..])
      case None => None
      case Some(k) => Some(k + 1)
  }

  function Records(s: seq<byte>, count: nat, kind: Kind): (r: seq<Key>)
    requires |s| == KeyBytes(kind, count)
    ensures |r| == count
    decreases count
  {
    if count == 0 then []
    else [Unpack(s[..4 * Width(kind)], Width(kind))] + Records(s[4 * Width(kind)..], count - 1, kind)
  }

  function ReadChannel(s: seq<byte>, kind: Kind): Result<(seq<Key>, seq<byte>)> {
    if |s| < 4 then Err(Truncated)
    else
      var size := KeyBytes(kind, U32(s[..4]));
      if 4 + size > |s| then Err(Truncated)
      else Ok((Records(s[4..4 + size], U32(s[..4]), kind), s[4 + size..]))
  }

  function ReadTrack(s: seq<byte>): Result<(Track, seq<byte>)> {
    match FindNul(s)
    case None => Err(Truncated)
    case Some(nul) =>
      match DecodeAll(s[..nul])
      case None => Err(BadUtf8)
      case Some(name) =>
        var (positions, between) :- ReadChannel(s[nul + 1..], Position);
        var (rotations, rest) :- ReadChannel(between, Rotation);
        Ok((Track(name, s[..nul], positions, rotations), rest))
  }

  function ReadTracks(s: seq<byte>, n: nat): Result<(seq<Track>, seq<byte>)>
    decreases n
  {
    if n == 0 then Ok(([], s))
    else
      var (track, between) :- ReadTrack(s);
      var (tracks, rest) :- ReadTracks(between, n - 1);
      Ok(([track] + tracks, rest))
  }

  /** `read_clip` after the inspector has accepted the file. */
  function Decoded(raw: seq<byte>): Result<Clip> {
    if |raw| > MAX_FILE_BYTES then Err(FileTooLarge)
    else if |raw| < HEADER_BYTES then Err(Truncated)
    else if raw[..4] != MAGIC || U32(raw[4..8]) != VERSION then Err(BadVersion)
    else
      var (tracks, rest) :- ReadTracks(raw[HEADER_BYTES..], HeaderTracks(raw));
      if rest != [] then Err(TrailingData) else Ok(Clip(HeaderDuration(raw), tracks, U32(raw[4..8])))
  }

  function Read(raw: seq<byte>): Result<Clip> {
    var _ :- Inspect(raw);
    Decoded(raw)
  }

  // ----- the encoder

  function EncodeKey(key: Key, kind: Kind, duration: float, previous: Option<float>): (r: Result<seq<byte>>)
    ensures r.Ok? ==> |key| == Width(kind)
  {
    if |key| != Width(kind) then Err(WrongComponents)
    else if !AllFinite(key) then Err(NotFinite)
    else if Outside(key[0], duration) then Err(TimeOutside)
    else if Decreases(key[0], previous) then Err(TimesDecrease)
    else Ok(Pack(key))
  }

  function EncodeKeys(keys: seq<Key>, kind: Kind, duration: float, previous: Option<float>): Result<seq<byte>> {
    if keys == [] then Ok([])
    else
      var first :- EncodeKey(keys[0], kind, duration, previous);
      var rest :- EncodeKeys(keys[1..], kind, duration, Some(keys[0][0]));
      Ok(first + rest)
  }

  function EncodeChannel(keys: seq<Key>, kind: Kind, duration: float): Result<seq<byte>> {
    if |keys| > MAX_KEYS_PER_TRACK then Err(TooManyKeys)
    else
      var body :- EncodeKeys(keys, kind, duration, None);
      Ok(Le32(|keys|) + body)
  }

  /** The checks on a track before its channels. */
  function CheckName(track: Track, names: set<seq<int>>): Result<()> {
    match DecodeAll(track.bytes)
    case None => Err(BadUtf8)
    case Some(name) =>
      if |track.bytes| > MAX_NAME_BYTES then Err(NameTooLong)
      else if name != track.name || track.bytes == [] || 0 in track.bytes then Err(NameDiffers)
      else if name in names then Err(DuplicateName)
      else Ok(())
  }

  function Keys(track: Track): nat {
    |track.positions| + |track.rotations|
  }

  function EncodeTrack(track: Track, duration: float, names: set<seq<int>>, total: nat): Result<seq<byte>> {
    var _ :- CheckName(track, names);
    if total + Keys(track) > MAX_TOTAL_KEYS then Err(TooManyKeys)
    else
      var positions :- EncodeChannel(track.positions, Position, duration);
      var rotations :- EncodeChannel(track.rotations, Rotation, duration);
      Ok(track.bytes + [0] + positions + rotations)
  }

  function EncodeTracks(tracks: seq<Track>, duration: float, names: set<seq<int>>, total: nat): Result<seq<byte>> {
    if tracks == [] then Ok([])
    else
      var first :- EncodeTrack(tracks[0], duration, names, total);
      var rest :- EncodeTracks(tracks[1..], duration, names + {tracks[0].name}, total + Keys(tracks[0]));
      Ok(first + rest)
  }

  function Header(duration: float, tracks: nat): (r: seq<byte>)
    ensures |r| == HEADER_BYTES
  {
    MAGIC + Le32(VERSION) + Le32(duration) + Le32(tracks)
  }

  function Encode(clip: Clip): Result<seq<byte>> {
    if clip.version != VERSION then Err(BadVersion)
    else if !IsFinite(clip.duration) || RealOf(clip.duration) < 0.0 then Err(BadDuration)
    else if |clip.tracks| > MAX_TRACKS then Err(TooManyTracks)
    else
      var body :- EncodeTracks(clip.tracks, clip.duration, {}, 0);
      var out := Header(clip.duration, |clip.tracks|) + body;
      if |out| > MAX_FILE_BYTES then Err(FileTooLarge) else Ok(out)
  }

  // ----- what the inspector's report says about a clip

  function Tail(keys: seq<Key>): Option<Key> {
    if keys == [] then None else Some(keys[|keys| - 1])
  }

  function InfoOf(track: Track): TrackInfo {
    Listed(track.name, track.bytes, |track.positions|, |track.rotations|, Tail(track.positions), Tail(track.rotations))
  }

  function Summarise(tracks: seq<Track>, tally: Tally): Tally {
    if tracks == [] then tally else Summarise(tracks[1..], Count(tally, InfoOf(tracks[0])))
  }

  /** The report on the clip, stored in a file of these bytes. */
  function Summary(clip: Clip, raw: seq<byte>): Info {
    Info(clip.duration, |clip.tracks|, Summarise(clip.tracks, NOTHING), Sha256.Digest(raw))
  }

  // ----- the loops

  method PackKey(key: Key) returns (out: seq<byte>)
    ensures out == Pack(key)
  {
    hide Le32;
    out := [];
    for i := 0 to |key|
      invariant out + Pack(key[i..]) == Pack(key)
    {
      assert key[i..][1..] == key[i + 1..];
      assert out + Le32(key[i]) + Pack(key[i + 1..]) == out + Pack(key[i..]);
      out := out + Le32(key[i]);
    }
    assert out + Pack(key[|key|..]) == out;
  }

  /** The answer of a loop: what it has written, then what is left to write. */
  function Then(out: seq<byte>, more: Result<seq<byte>>): Result<seq<byte>> {
    match more
    case Ok(rest) => Ok(out + rest)
    case Err(e) => Err(e)
  }

  lemma {:induction false} ThenTwice(out: seq<byte>, more: seq<byte>, last: Result<seq<byte>>)
    ensures Then(out, Then(more, last)) == Then(out + more, last)
  {
    if last.Ok? {
      assert out + (more + last.value) == (out + more) + last.value;
    }
  }

  lemma {:induction false} ThenNothing(more: Result<seq<byte>>)
    ensures Then([], more) == more
  {
    if more.Ok? {
      assert [] + more.value == more.value;
    }
  }

  method WriteKeys(keys: seq<Key>, kind: Kind, duration: float) returns (r: Result<seq<byte>>)
    ensures r == EncodeKeys(keys, kind, duration, None)
  {
    hide AllFinite, Outside, Decreases, Pack;
    var out: seq<byte> := [];
    var previous: Option<float> := None;
    assert keys[0..] == keys;
    ThenNothing(EncodeKeys(keys, kind, duration, None));
    for i := 0 to |keys|
      invariant Then(out, EncodeKeys(keys[i..], kind, duration, previous)) == EncodeKeys(keys, kind, duration, None)
    {
      assert keys[i..][0] == keys[i] && keys[i..][1..] == keys[i + 1..];
      var key := keys[i];
      if |key| != Width(kind) {
        return Err(WrongComponents);
      }
      if !AllFinite(key) {
        return Err(NotFinite);
      }
      if Outside(key[0], duration) {
        return Err(TimeOutside);
      }
      if Decreases(key[0], previous) {
        return Err(TimesDecrease);
      }
      var packed := PackKey(key);
      ThenTwice(out, packed, EncodeKeys(keys[i + 1..], kind, duration, Some(key[0])));
      out := out + packed;
      previous := Some(key[0]);
    }
    assert out + [] == out;
    return Ok(out);
  }

  /** One turn of the encoder's track loop. */
  method WriteTrack(start: seq<byte>, track: Track, duration: float, names: set<seq<int>>, total: nat)
    returns (r: Result<seq<byte>>)
    ensures r == Then(start, EncodeTrack(track, duration, names, total))
  {
    hide EncodeKeys, CheckName;
    var name := CheckName(track, names);
    if name.Err? {
      return Err(name.error);
    }
    var out := start + track.bytes;
    out := out + [0];
    if total + |track.positions| + |track.rotations| > MAX_TOTAL_KEYS {
      return Err(TooManyKeys);
    }
    if |track.positions| > MAX_KEYS_PER_TRACK {
      return Err(TooManyKeys);
    }
    out := out + Le32(|track.positions|);
    var positions := WriteKeys(track.positions, Position, duration);
    if positions.Err? {
      return Err(positions.error);
    }
    out := out + positions.value;
    if |track.rotations| > MAX_KEYS_PER_TRACK {
      return Err(TooManyKeys);
    }
    out := out + Le32(|track.rotations|);
    var rotations := WriteKeys(track.rotations, Rotation, duration);
    if rotations.Err? {
      return Err(rotations.error);
    }
    out := out + rotations.value;
    assert out == start + (track.bytes + [0] + (Le32(|track.positions|) + positions.value)
                           + (Le32(|track.rotations|) + rotations.value));
    return Ok(out);
  }

  /** `encode_clip` (tools/compose_infantry_animation.py:93-142). */
  method EncodeClip(clip: Clip) returns (r: Result<seq<byte>>)
    ensures r == Encode(clip)
  {
    hide RealOf, IsFinite, EncodeTrack, Header;
    if clip.version != VERSION {
      return Err(BadVersion);
    }
    if !IsFinite(clip.duration) || RealOf(clip.duration) < 0.0 {
      return Err(BadDuration);
    }
    if |clip.tracks| > MAX_TRACKS {
      return Err(TooManyTracks);
    }
    ghost var header := Header(clip.duration, |clip.tracks|);
    var out := Header(clip.duration, |clip.tracks|);
    var names: set<seq<int>> := {};
    var total: nat := 0;
    assert clip.tracks[0..] == clip.tracks;
    for i := 0 to |clip.tracks|
      invariant Then(out, EncodeTracks(clip.tracks[i..], clip.duration, names, total))
             == Then(header, EncodeTracks(clip.tracks, clip.duration, {}, 0))
    {
      var track := clip.tracks[i];
      assert clip.tracks[i..][0] == track && clip.tracks[i..][1..] == clip.tracks[i + 1..];
      ghost var first := EncodeTrack(track, clip.duration, names, total);
      ghost var rest := EncodeTracks(clip.tracks[i + 1..], clip.duration, names + {track.name}, total + Keys(track));
      ghost var before := out;
      var written := WriteTrack(out, track, clip.duration, names, total);
      if written.Err? {
        return Err(written.error);
      }
      ThenTwice(before, first.value, rest);
      out := written.value;
      names := names + {track.name};
      total := total + |track.positions| + |track.rotations|;
    }
    assert out + [] == out;
    if |out| > MAX_FILE_BYTES {
      return Err(FileTooLarge);
    }
    return Ok(out);
  }

  /** The inspector's stream. */
  class Stream {
    const raw: seq<byte>
    var at: nat

    constructor (raw: seq<byte>, at: nat)
      requires at <= |raw|
      ensures this.raw == raw && this.at == at
    {
      this.raw := raw;
      this.at := at;
    }

    predicate Valid()
      reads this
    {
      at <= |raw|
    }

    /** What has not been read yet. */
    function Rest(): seq<byte>
      requires Valid()
      reads this
    {
      raw[at..]
    }

    method ReadExact(size: nat) returns (r: Result<seq<byte>>)
      requires Valid()
      modifies this
      ensures Valid()
      ensures r == if size <= |old(Rest())| then Ok(old(Rest())[..size]) else Err(Truncated)
      ensures r.Ok? ==> Rest() == old(Rest())[size..]
    {
      if at + size > |raw| {
        at := |raw|;
        return Err(Truncated);
      }
      assert Rest()[..size] == raw[at..at + size] && Rest()[size..] == raw[at + size..];
      r := Ok(raw[at..at + size]);
      at := at + size;
    }

    method TrackName() returns (r: Result<seq<byte>>)
      requires Valid()
      modifies this
      ensures Valid()
      ensures match InspectName(old(Rest()), [])
              case Ok((name, rest)) => r == Ok(name) && Rest() == rest
              case Err(e) => r == Err(e)
    {
      var name: seq<byte> := [];
      ghost var start := Rest();
      for i := 0 to MAX_NAME_BYTES + 1
        invariant Valid() && |name| == i
        invariant InspectName(start, []) == InspectName(Rest(), name)
      {
        if at == |raw| {
          return Err(Truncated);
        }
        assert Rest()[0] == raw[at] && Rest()[1..] == raw[at + 1..];
        var b := raw[at];
        at := at + 1;
        if b == 0 {
          if name == [] {
            return Err(EmptyName);
          }
          return Ok(name);
        }
        name := name + [b];
      }
      return Err(NameTooLong);
    }

    method Keys(count: nat, kind: Kind, duration: float) returns (r: Result<Option<Key>>)
      requires Valid()
      modifies this
      ensures Valid()
      ensures match InspectKeys(old(Rest()), count, kind, duration, None, None)
              case Ok((tail, rest)) => r == Ok(tail) && Rest() == rest
              case Err(e) => r == Err(e)
    {
      hide AllFinite, Outside, Decreases, Unpack;
      var tail: Option<Key> := None;
      var previous: Option<float> := None;
      ghost var start := Rest();
      for i := 0 to count
        invariant Valid()
        invariant InspectKeys(start, count, kind, duration, None, None)
               == InspectKeys(Rest(), count - i, kind, duration, previous, tail)
      {
        var data := ReadExact(4 * Width(kind));
        if data.Err? {
          return Err(data.error);
        }
        var values := Unpack(data.value, Width(kind));
        if !AllFinite(values) {
          return Err(NotFinite);
        }
        var time := values[0];
        if Decreases(time, previous) {
          return Err(TimesDecrease);
        }
        if Outside(time, duration) {
          return Err(TimeOutside);
        }
        previous := Some(time);
        tail := Some(values);
      }
      return Ok(tail);
    }

    method Channel(kind: Kind, duration: float) returns (r: Result<(nat, Option<Key>)>)
      requires Valid()
      modifies this
      ensures Valid()
      ensures match InspectChannel(old(Rest()), kind, duration)
              case Ok((count, tail, rest)) => r == Ok((count, tail)) && Rest() == rest
              case Err(e) => r == Err(e)
    {
      hide InspectKeys;
      var word := ReadExact(4);
      if word.Err? {
        return Err(word.error);
      }
      var count := U32(word.value);
      if count > MAX_KEYS_PER_TRACK {
        return Err(TooManyKeys);
      }
      if KeyBytes(kind, count) > |raw| - at {
        return Err(Truncated);
      }
      var tail := Keys(count, kind, duration);
      if tail.Err? {
        return Err(tail.error);
      }
      return Ok((count, tail.value));
    }

    method OneTrack(duration: float, names: set<seq<int>>) returns (r: Result<TrackInfo>)
      requires Valid()
      modifies this
      ensures Valid()
      ensures match InspectTrack(old(Rest()), duration, names)
              case Ok((info, rest)) => r == Ok(info) && Rest() == rest
              case Err(e) => r == Err(e)
    {
      hide InspectName, InspectChannel, DecodeAll, Listed;
      var bytes := TrackName();
      if bytes.Err? {
        return Err(bytes.error);
      }
      var name := DecodeAll(bytes.value);
      if name.None? {
        return Err(BadUtf8);
      }
      if name.value in names {
        return Err(DuplicateName);
      }
      var positions := Channel(Position, duration);
      if positions.Err? {
        return Err(positions.error);
      }
      var rotations := Channel(Rotation, duration);
      if rotations.Err? {
        return Err(rotations.error);
      }
      return Ok(Listed(name.value, bytes.value, positions.value.0, rotations.value.0,
                       positions.value.1, rotations.value.1));
    }
  }

  /** `inspect_file` (tools/inspect_infantry_animation.py:128-207). */
  method InspectFile(raw: seq<byte>) returns (r: Result<Info>)
    ensures r == Inspect(raw)
  {
    hide CheckHeader, InspectTrack, Sha256.Digest;
    var header := CheckHeader(raw);
    if header.Err? {
      return Err(header.error);
    }
    HeaderFits(raw);
    var duration := HeaderDuration(raw);
    var count := HeaderTracks(raw);
    var stream := new Stream(raw, HEADER_BYTES);
    var names: set<seq<int>> := {};
    var tally := NOTHING;
    for i := 0 to count
      invariant stream.Valid() && stream.raw == raw
      invariant InspectTracks(raw[HEADER_BYTES..], count, duration, {}, NOTHING)
             == InspectTracks(stream.Rest(), count - i, duration, names, tally)
    {
      var info := stream.OneTrack(duration, names);
      if info.Err? {
        return Err(info.error);
      }
      names := names + {info.value.name};
      tally := Count(tally, info.value);
      if tally.positions + tally.rotations > MAX_TOTAL_KEYS {
        return Err(TooManyKeys);
      }
    }
    if stream.at != |raw| {
      return Err(TrailingData);
    }
    return Ok(Info(duration, count, tally, Sha256.Digest(raw)));
  }

  lemma {:induction false} HeaderFits(raw: seq<byte>)
    requires CheckHeader(raw).Ok?
    ensures |raw| >= HEADER_BYTES
  {
  }

  method ReadRecords(raw: seq<byte>, offset: nat, kind: Kind) returns (r: Result<seq<Key>>, end: nat)
    requires offset <= |raw|
    ensures match ReadChannel(raw[offset..], kind)
            case Ok((keys, rest)) => r == Ok(keys) && end <= |raw| && raw[end..] == rest
            case Err(e) => r == Err(e)
  {
    end := offset;
    if offset + 4 > |raw| {
      return Err(Truncated), end;
    }
    assert raw[offset..][..4] == raw[offset..offset + 4];
    var count := U32(raw[offset..offset + 4]);
    var start := offset + 4;
    end := start + KeyBytes(kind, count);
    if end > |raw| {
      return Err(Truncated), end;
    }
    var records := raw[start..end];
    assert raw[offset..][4..4 + KeyBytes(kind, count)] == records;
    var keys := SplitRecords(records, count, kind);
    assert raw[offset..][4 + KeyBytes(kind, count)..] == raw[end..];
    return Ok(keys), end;
  }

  method SplitRecords(s: seq<byte>, count: nat, kind: Kind) returns (keys: seq<Key>)
    requires |s| == KeyBytes(kind, count)
    ensures keys == Records(s, count, kind)
  {
    hide Unpack, Records;
    keys := [];
    var at := 0;
    assert s[0..] == s;
    assert [] + Records(s, count, kind) == Records(s, count, kind);
    for i := 0 to count
      invariant at == KeyBytes(kind, i) <= |s| && |s| - at == KeyBytes(kind, count - i)
      invariant keys + Records(s[at..], count - i, kind) == Records(s, count, kind)
    {
      RecordsStep(s, at, count - i, kind);
      var key := Unpack(s[at..at + 4 * Width(kind)], Width(kind));
      ghost var rest := Records(s[at + 4 * Width(kind)..], count - i - 1, kind);
      assert keys + ([key] + rest) == keys + [key] + rest;
      keys := keys + [key];
      at := at + 4 * Width(kind);
    }
    assert keys + [] == keys;
  }

  lemma {:induction false} RecordsStep(s: seq<byte>, at: nat, count: nat, kind: Kind)
    requires count > 0 && at <= |s| && |s| - at == KeyBytes(kind, count)
    ensures at + 4 * Width(kind) <= |s| && |s| - (at + 4 * Width(kind)) == KeyBytes(kind, count - 1)
    ensures Records(s[at..], count, kind)
         == [Unpack(s[at..at + 4 * Width(kind)], Width(kind))] + Records(s[at + 4 * Width(kind)..], count - 1, kind)
  {
    hide Unpack;
    assert s[at..][..4 * Width(kind)] == s[at..at + 4 * Width(kind)];
    assert s[at..][4 * Width(kind)..] == s[at + 4 * Width(kind)..];
  }

  /** `read_clip` (tools/compose_infantry_animation.py:52-90). */
  method ReadClip(raw: seq<byte>) returns (r: Result<Clip>)
    ensures r == Read(raw)
  {
    hide Inspect, DecodeAll, ReadChannel, FindNul;
    var info := InspectFile(raw);
    if info.Err? {
      return Err(info.error);
    }
    if |raw| > MAX_FILE_BYTES {
      return Err(FileTooLarge);
    }
    if |raw| < HEADER_BYTES {
      return Err(Truncated);
    }
    if raw[..4] != MAGIC || U32(raw[4..8]) != VERSION {
      return Err(BadVersion);
    }
    var count := HeaderTracks(raw);
    var offset: nat := HEADER_BYTES;
    var tracks: seq<Track> := [];
    PrependNothing(ReadTracks(raw[HEADER_BYTES..], count));
    for i := 0 to count
      invariant offset <= |raw|
      invariant ReadTracks(raw[HEADER_BYTES..], count) == Prepend(tracks, ReadTracks(raw[offset..], count - i))
    {
      var found := FindNul(raw[offset..]);
      if found.None? {
        return Err(Truncated);
      }
      var nul := offset + found.value;
      assert raw[offset..][..found.value] == raw[offset..nul];
      assert raw[offset..][found.value + 1..] == raw[nul + 1..];
      var name := DecodeAll(raw[offset..nul]);
      if name.None? {
        return Err(BadUtf8);
      }
      var positions, between := ReadRecords(raw, nul + 1, Position);
      if positions.Err? {
        return Err(positions.error);
      }
      var rotations, end := ReadRecords(raw, between, Rotation);
      if rotations.Err? {
        return Err(rotations.error);
      }
      var track := Track(name.value, raw[offset..nul], positions.value, rotations.value);
      ghost var rest := ReadTracks(raw[end..], count - i - 1);
      assert ReadTracks(raw[offset..], count - i) == Prepend([track], rest);
      PrependTwice(tracks, track, rest);
      tracks := tracks + [track];
      offset := end;
    }
    assert tracks + [] == tracks;
    if offset != |raw| {
      return Err(TrailingData);
    }
    return Ok(Clip(HeaderDuration(raw), tracks, U32(raw[4..8])));
  }

  function Prepend(tracks: seq<Track>, more: Result<(seq<Track>, seq<byte>)>): Result<(seq<Track>, seq<byte>)> {
    match more
    case Ok((rest, bytes)) => Ok((tracks + rest, bytes))
    case Err(e) => Err(e)
  }

  lemma {:induction false} PrependTwice(tracks: seq<Track>, track: Track, more: Result<(seq<Track>, seq<byte>)>)
    ensures Prepend(tracks, Prepend([track], more)) == Prepend(tracks + [track], more)
  {
    if more.Ok? {
      assert tracks + ([track] + more.value.0) == tracks + [track] + more.value.0;
    }
  }

  lemma {:induction false} PrependNothing(more: Result<(seq<Track>, seq<byte>)>)
    ensures Prepend([], more) == more
  {
    if more.Ok? {
      assert [] + more.value.0 == more.value.0;
    }
  }
}
