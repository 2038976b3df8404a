/** The locomotion compositor (tools/compose_infantry_animation.py:286-320, 381-487), over exact reals. */
module Compose {
  import opened Outcome
  import opened Rigid
  import opened Channels
  import opened Loop

  datatype Track = Track(name: string, nameBytes: seq<int>, positions: seq<Key>, rotations: seq<Key>)

  datatype Clip = Clip(duration: real, tracks: seq<Track>, version: int)

  /** Each node of the skeleton with its parent. */
  type Parents = map<string, Option<string>>

  /** The track of a name; of several the last. */
  function Lookup(tracks: seq<Track>, name: string): (r: Option<Track>)
    ensures r.Some? ==> r.value.name == name && r.value in tracks
  {
    if tracks == [] then None
    else
      var rest := Lookup(tracks[1..], name);
      if rest.Some? then rest else if tracks[0].name == name then Some(tracks[0]) else None
  }

  function SampleTransform(m: Maths, track: Track, t: real, order: Order): Result<Transform> {
    var position :- Sample(m, track.positions, t, false, order);
    var rotation :- Sample(m, track.rotations, t, true, order);
    if position.None? || rotation.None? || |position.value| != 3 then Err(UnusableChannel)
    else Ok(Transform(Vec(position.value[0], position.value[1], position.value[2]), QuadOf(rotation.value)))
  }

  function LocalAt(m: Maths, clip: Clip, name: string, t: real, order: Order): Result<Transform> {
    match Lookup(clip.tracks, name)
    case None => Err(MissingTrack)
    case Some(track) => SampleTransform(m, track, t, order)
  }

  function ParentOf(parents: Parents, name: string): Option<string> {
    if name in parents then parents[name] else None
  }

  /** Every node ranks above its parent, as nodes of a skeleton file follow their parents. */
  ghost predicate Acyclic(parents: Parents, rank: string -> nat) {
    forall name :: name in parents && parents[name].Some? ==> rank(parents[name].value) < rank(name)
  }

  function Identity(order: Order): Transform {
    Transform(Vec(0.0, 0.0, 0.0), ToOrder(Quat(0.0, 0.0, 0.0, 1.0), order))
  }

  /** The transform of a node in the world: its parent's, then its own. */
  function WorldAt(m: Maths, clip: Clip, name: string, parents: Parents, ghost rank: string -> nat, t: real,
                   order: Order)
      : Result<Transform>
    requires Acyclic(parents, rank)
    decreases rank(name)
  {
    var parent := ParentOf(parents, name);
    var base :- if parent.None? then Ok(Identity(order)) else WorldAt(m, clip, parent.value, parents, rank, t, order);
    var local :- LocalAt(m, clip, name, t, order);
    ComposeTransform(m, base, local, order)
  }

  /** A chain of nodes, each followed by its parent, the last one's parent being `next`. */
  predicate Chain(parents: Parents, chain: seq<string>, next: Option<string>) {
    && (forall i :: 0 <= i < |chain| - 1 ==> ParentOf(parents, chain[i]) == Some(chain[i + 1]))
    && (chain != [] ==> ParentOf(parents, chain[|chain| - 1]) == next)
  }

  lemma {:induction false} ChainFails(m: Maths, clip: Clip, chain: seq<string>, i: nat, parents: Parents,
                                      rank: string -> nat, t: real, order: Order)
    requires Acyclic(parents, rank) && Chain(parents, chain, None) && i < |chain|
    requires WorldAt(m, clip, chain[i], parents, rank, t, order).Err?
    ensures WorldAt(m, clip, chain[0], parents, rank, t, order) == WorldAt(m, clip, chain[i], parents, rank, t, order)
    decreases i
  {
    hide LocalAt, ComposeTransform;
    if i > 0 {
      assert ParentOf(parents, chain[i - 1]) == Some(chain[i]);
      ChainFails(m, clip, chain, i - 1, parents, rank, t, order);
    }
  }

  /** `_world_at`: the chain up to the root, composed from the root down. */
  method WorldTransform(m: Maths, clip: Clip, name: string, parents: Parents, ghost rank: string -> nat, t: real,
                        order: Order)
    returns (r: Result<Transform>)
    requires Acyclic(parents, rank)
    ensures r == WorldAt(m, clip, name, parents, rank, t, order)
  {
    hide LocalAt, ComposeTransform;
    var chain: seq<string> := [];
    var current := Some(name);
    while current.Some?
      invariant Chain(parents, chain, current)
      invariant if chain == [] then current == Some(name) else chain[0] == name
      decreases if current.Some? then rank(current.value) + 1 else 0
    {
      chain := chain + [current.value];
      current := ParentOf(parents, current.value);
    }
    var result := Identity(order);
    for i := |chain| downto 0
      invariant if i == |chain| then result == Identity(order)
                else WorldAt(m, clip, chain[i], parents, rank, t, order) == Ok(result)
    {
      assert i < |chain| - 1 ==> ParentOf(parents, chain[i]) == Some(chain[i + 1]);
      var local := LocalAt(m, clip, chain[i], t, order);
      if local.Err? {
        ChainFails(m, clip, chain, i, parents, rank, t, order);
        return Err(local.error);
      }
      var composed := ComposeTransform(m, result, local.value, order);
      if composed.Err? {
        ChainFails(m, clip, chain, i, parents, rank, t, order);
        return Err(composed.error);
      }
      result := composed.value;
    }
    return Ok(result);
  }

  // ----- the nodes below the thighs

  /** The node is one of `roots` or hangs below one. */
  ghost predicate Below(parents: Parents, rank: string -> nat, name: string, roots: set<string>)
    requires Acyclic(parents, rank)
    decreases rank(name)
  {
    name in roots || (ParentOf(parents, name).Some? && Below(parents, rank, ParentOf(parents, name).value, roots))
  }

  ghost predicate Closed(parents: Parents, lower: set<string>, names: set<string>) {
    forall name :: name in names && ParentOf(parents, name).Some? && ParentOf(parents, name).value in lower
      ==> name in lower
  }

  ghost predicate AllBelow(parents: Parents, rank: string -> nat, lower: set<string>, roots: set<string>)
    requires Acyclic(parents, rank)
  {
    forall name :: name in lower ==> Below(parents, rank, name, roots)
  }

  lemma {:induction false} ClosedHoldsBelow(parents: Parents, rank: string -> nat, name: string, lower: set<string>,
                                            roots: set<string>)
    requires Acyclic(parents, rank) && roots <= lower && Closed(parents, lower, parents.Keys)
    requires Below(parents, rank, name, roots)
    ensures name in lower
    decreases rank(name)
  {
    if name !in roots {
      ClosedHoldsBelow(parents, rank, ParentOf(parents, name).value, lower, roots);
    }
  }

  lemma {:induction false} FewerLeft(all: set<string>, small: set<string>, large: set<string>, name: string)
    requires small <= large && name in all && name in large && name !in small
    ensures |all - large| < |all - small|
  {
    var left := all - small;
    assert all - large <= left - {name};
    Subset(all - large, left - {name});
  }

  lemma {:induction false} Subset(a: set<string>, b: set<string>)
    requires a <= b
    ensures |a| <= |b|
    decreases |a|
  {
    if a != {} {
      var x :| x in a;
      Subset(a - {x}, b - {x});
    }
  }

  /** The closure of `compose_locomotion_legs`: sweeps over the skeleton until nothing changes. */
  method Descend(parents: Parents, ghost rank: string -> nat, roots: set<string>) returns (lower: set<string>)
    requires Acyclic(parents, rank)
    ensures roots <= lower
    ensures forall name :: name in lower <==> Below(parents, rank, name, roots)
  {
    lower := roots;
    var changed := true;
    while changed
      invariant roots <= lower && AllBelow(parents, rank, lower, roots)
      invariant !changed ==> Closed(parents, lower, parents.Keys)
      decreases |parents.Keys - lower|, changed
    {
      changed := false;
      ghost var start := lower;
      var names := parents.Keys;
      while names != {}
        invariant names <= parents.Keys
        invariant start <= lower && AllBelow(parents, rank, lower, roots)
        invariant !changed ==> lower == start && Closed(parents, lower, parents.Keys - names)
        invariant changed ==> |parents.Keys - lower| < |parents.Keys - start|
        decreases |names|
      {
        var name :| name in names;
        names := names - {name};
        var parent := parents[name];
        if parent.Some? && parent.value in lower && name !in lower {
          FewerLeft(parents.Keys, start, lower + {name}, name);
          lower := lower + {name};
          changed := true;
        }
      }
    }
    forall name ensures name in lower <==> Below(parents, rank, name, roots) {
      if Below(parents, rank, name, roots) {
        ClosedHoldsBelow(parents, rank, name, lower, roots);
      }
    }
  }

  // ----- the composition

  const TOLERANCE := 0.000001

  datatype Job = Job(
    maths: Maths,
    action: Clip,
    run: Clip,
    parents: Parents,
    spine: string,
    thighs: seq<string>,
    order: Order,
    preserve: bool)

  ghost predicate Sane(job: Job, rank: string -> nat) {
    Acyclic(job.parents, rank) && job.run.duration > 0.0
  }

  predicate IsThigh(job: Job, name: string) {
    name in job.thighs
  }

  ghost predicate Lower(job: Job, rank: string -> nat, name: string)
    requires Acyclic(job.parents, rank)
  {
    Below(job.parents, rank, name, set thigh | thigh in job.thighs)
  }

  /** Thighs known to the skeleton as children of the spine. */
  predicate ThighsHang(job: Job) {
    forall i :: 0 <= i < |job.thighs| ==> job.thighs[i] in job.parents && job.parents[job.thighs[i]] == Some(job.spine)
  }

  function RunThigh(job: Job, ghost rank: string -> nat, thigh: string, phase: real): Result<Transform>
    requires Sane(job, rank)
  {
    var spine :- WorldAt(job.maths, job.run, job.spine, job.parents, rank, phase, job.order);
    var local :- LocalAt(job.maths, job.run, thigh, phase, job.order);
    ComposeTransform(job.maths, spine, local, job.order)
  }

  /** The local transform that puts the thigh, below the action's spine, where the run has it. */
  function Compensated(job: Job, ghost rank: string -> nat, thigh: string, at: real): Result<Transform>
    requires Sane(job, rank)
  {
    var spine :- WorldAt(job.maths, job.action, job.spine, job.parents, rank, at, job.order);
    var world :- RunThigh(job, rank, thigh, LoopPhase(at, job.run.duration));
    RelativeTransform(job.maths, spine, world, job.order)
  }

  function PositionKey(time: real, t: Transform): Key {
    [time, t.position.x, t.position.y, t.position.z]
  }

  function RotationKey(time: real, t: Transform): Key {
    [time] + QuadValues(t.rotation)
  }

  function KeyOf(time: real, t: Transform, rotation: bool): Key {
    if rotation then RotationKey(time, t) else PositionKey(time, t)
  }

  /** One compensated key for each of the times. */
  function CompensatedKeys(job: Job, ghost rank: string -> nat, thigh: string, times: seq<Key>,
                           rotation: bool): Result<seq<Key>>
    requires Sane(job, rank)
  {
    if times == [] then Ok([])
    else
      var local :- Compensated(job, rank, thigh, times[0][0]);
      var rest :- CompensatedKeys(job, rank, thigh, times[1..], rotation);
      Ok([KeyOf(times[0][0], local, rotation)] + rest)
  }

  function Channel(track: Track, rotation: bool): seq<Key> {
    if rotation then track.rotations else track.positions
  }

  function Looped(job: Job, track: Track, rotation: bool): Result<seq<Key>> {
    LoopedRecords(job.maths, Channel(track, rotation), job.run.duration, job.action.duration, rotation, job.order)
  }

  function ThighTrack(job: Job, ghost rank: string -> nat, thigh: string): (r: Result<Track>)
    requires Sane(job, rank)
    ensures r.Ok? ==> r.value.name == thigh
  {
    var original, source := Lookup(job.action.tracks, thigh), Lookup(job.run.tracks, thigh);
    if original.None? || source.None? then Err(MissingTrack)
    else
      var positionTimes :- Looped(job, source.value, false);
      var rotationTimes :- Looped(job, source.value, true);
      var positions :- CompensatedKeys(job, rank, thigh, positionTimes, false);
      var rotations :- CompensatedKeys(job, rank, thigh, rotationTimes, true);
      Ok(Track(original.value.name, original.value.nameBytes, positions, rotations))
  }

  predicate Near(a: seq<real>, b: seq<real>) {
    forall i :: 0 <= i < |a| && i < |b| ==> Absolute(a[i] - b[i]) <= TOLERANCE
  }

  predicate IsConstant(keys: seq<Key>) {
    forall i :: 0 < i < |keys| ==> Near(keys[0][1..], keys[i][1..])
  }

  predicate IsStatic(track: Track) {
    IsConstant(track.positions) && IsConstant(track.rotations)
  }

  /** The track of a node below the thighs; none where the action's stays. */
  function DescendantTrack(job: Job, name: string): (r: Result<Option<Track>>)
    ensures r.Ok? && r.value.Some? ==> r.value.value.name == name
  {
    var original, source := Lookup(job.action.tracks, name), Lookup(job.run.tracks, name);
    if original.None? then Ok(None)
    else if source.None? then if IsStatic(original.value) then Ok(None) else Err(AnimatedTrackMissing)
    else if job.preserve && IsStatic(original.value) && IsStatic(source.value) then Ok(None)
    else
      var positions :- Looped(job, source.value, false);
      var rotations :- Looped(job, source.value, true);
      Ok(Some(Track(original.value.name, original.value.nameBytes, positions, rotations)))
  }

  /** What replaces the action's track of that name. */
  ghost function Replacement(job: Job, rank: string -> nat, name: string): (r: Result<Option<Track>>)
    requires Sane(job, rank)
    ensures r.Ok? && r.value.Some? ==> r.value.value.name == name
  {
    if IsThigh(job, name) then
      var track :- ThighTrack(job, rank, name);
      Ok(Some(track))
    else if Lower(job, rank, name) then DescendantTrack(job, name)
    else Ok(None)
  }

  /** The composition is defined: no check and no track fails. */
  ghost predicate Composable(job: Job, rank: string -> nat)
    requires Acyclic(job.parents, rank)
  {
    && job.run.duration > 0.0
    && job.spine in job.parents
    && ThighsHang(job)
    && (forall name :: Lower(job, rank, name) ==> Replacement(job, rank, name).Ok?)
  }

  ghost predicate IsReplaced(job: Job, rank: string -> nat, track: Track, result: Track)
    requires Sane(job, rank)
  {
    && Replacement(job, rank, track.name).Ok?
    && result == (match Replacement(job, rank, track.name).value
                  case Some(replaced) => replaced
                  case None => track)
  }

  /** The clip is the action with its lower tracks replaced. */
  ghost predicate IsComposition(job: Job, rank: string -> nat, clip: Clip)
    requires Sane(job, rank)
  {
    && clip.duration == job.action.duration && clip.version == job.action.version
    && |clip.tracks| == |job.action.tracks|
    && forall i :: 0 <= i < |clip.tracks| ==> IsReplaced(job, rank, job.action.tracks[i], clip.tracks[i])
  }

  // ----- the composition, said of the two clips alone

  /** Of the tracks with this name the one at `k` is the last. */
  predicate IsLast(tracks: seq<Track>, name: string, k: nat) {
    k < |tracks| && tracks[k].name == name && forall j :: k < j < |tracks| ==> tracks[j].name != name
  }

  ghost predicate Knows(tracks: seq<Track>, name: string) {
    exists track :: track in tracks && track.name == name
  }

  lemma {:induction false} LookupIsLast(tracks: seq<Track>, name: string, k: nat)
    ensures Lookup(tracks, name).Some? <==> Knows(tracks, name)
    ensures IsLast(tracks, name, k) ==> Lookup(tracks, name) == Some(tracks[k])
  {
    if tracks != [] {
      LookupIsLast(tracks[1..], name, if k == 0 then 0 else k - 1);
      assert tracks == [tracks[0]] + tracks[1..];
      if IsLast(tracks, name, k) {
        if k > 0 {
          assert IsLast(tracks[1..], name, k - 1);
        } else {
          assert !Knows(tracks[1..], name);
        }
      }
    }
  }

  lemma {:induction false} LastOf(tracks: seq<Track>, name: string) returns (k: nat)
    requires Knows(tracks, name)
    ensures IsLast(tracks, name, k)
  {
    assert tracks == [tracks[0]] + tracks[1..];
    if Knows(tracks[1..], name) {
      k := LastOf(tracks[1..], name);
      k := k + 1;
    } else {
      k := 0;
      forall j | 0 < j < |tracks|
        ensures tracks[j].name != name
      {
        assert tracks[1..][j - 1] == tracks[j];
      }
    }
  }

  /** No component of any key is more than a millionth away from the first key's. */
  predicate Stands(keys: seq<Key>) {
    forall i, c :: 0 <= i < |keys| && 1 <= c < |keys[i]| && c < |keys[0]|
      ==> -0.000001 <= keys[i][c] - keys[0][c] <= 0.000001
  }

  predicate StandsStill(track: Track) {
    Stands(track.positions) && Stands(track.rotations)
  }

  lemma {:induction false} ConstantStands(keys: seq<Key>)
    ensures IsConstant(keys) <==> Stands(keys)
  {
    if IsConstant(keys) {
      forall i, c | 0 <= i < |keys| && 1 <= c < |keys[i]| && c < |keys[0]|
        ensures -0.000001 <= keys[i][c] - keys[0][c] <= 0.000001
      {
        if i > 0 {
          assert Near(keys[0][1..], keys[i][1..]);
          assert keys[0][1..][c - 1] == keys[0][c] && keys[i][1..][c - 1] == keys[i][c];
        }
      }
    }
    if Stands(keys) {
      forall i | 0 < i < |keys|
        ensures Near(keys[0][1..], keys[i][1..])
      {
        forall c | 0 <= c < |keys[0][1..]| && c < |keys[i][1..]|
          ensures Absolute(keys[0][1..][c] - keys[i][1..][c]) <= TOLERANCE
        {
          assert -0.000001 <= keys[i][c + 1] - keys[0][c + 1] <= 0.000001;
        }
      }
    }
  }

  lemma {:induction false} StaticStands(track: Track)
    ensures IsStatic(track) <==> StandsStill(track)
  {
    ConstantStands(track.positions);
    ConstantStands(track.rotations);
  }

  /** `keys` are the looped keys of a channel of the run. */
  ghost predicate LoopsRun(job: Job, keys: seq<Key>, source: seq<Key>, rotation: bool) {
    LoopsTo(keys, job.maths, source, job.run.duration, job.action.duration, rotation, job.order)
  }

  ghost predicate CanLoop(job: Job, source: seq<Key>, rotation: bool) {
    exists keys :: LoopsRun(job, keys, source, rotation)
  }

  lemma {:induction false} LoopedIs(job: Job, track: Track, rotation: bool)
    ensures Looped(job, track, rotation).Ok? <==> CanLoop(job, Channel(track, rotation), rotation)
    ensures forall keys :: (LoopsRun(job, keys, Channel(track, rotation), rotation)
                            <==> Looped(job, track, rotation) == Ok(keys))
  {
    hide LoopedRecords, LoopsTo;
    forall keys
      ensures LoopsRun(job, keys, Channel(track, rotation), rotation) <==> Looped(job, track, rotation) == Ok(keys)
    {
      LoopedExactly(job.maths, Channel(track, rotation), job.run.duration, job.action.duration, rotation, job.order,
            keys);
    }
    if Looped(job, track, rotation).Ok? {
      assert LoopsRun(job, Looped(job, track, rotation).value, Channel(track, rotation), rotation);
    }
  }

  /** The run's track takes the place of the action's at a node below the thighs: both clips have one, and the two are
      not
      static tracks that were to be preserved. */
  ghost predicate TakesRun(job: Job, name: string) {
    && Knows(job.action.tracks, name) && Knows(job.run.tracks, name)
    && !(job.preserve
         && (forall a: nat :: IsLast(job.action.tracks, name, a) ==> StandsStill(job.action.tracks[a]))
         && (forall s: nat :: IsLast(job.run.tracks, name, s) ==> StandsStill(job.run.tracks[s])))
  }

  /** `track` is the action's last of this name with the looped keys of the run's last of this name. */
  ghost predicate IsLoopedTrack(job: Job, track: Track, name: string) {
    exists a: nat, s: nat :: LoopsOver(job, track, name, a, s)
  }

  ghost predicate LoopsOver(job: Job, track: Track, name: string, a: nat, s: nat) {
    && IsLast(job.action.tracks, name, a) && IsLast(job.run.tracks, name, s)
    && track.name == name && track.nameBytes == job.action.tracks[a].nameBytes
    && LoopsRun(job, track.positions, job.run.tracks[s].positions, false)
    && LoopsRun(job, track.rotations, job.run.tracks[s].rotations, true)
  }

  /** Nothing stands against replacing, or keeping, the track of a node below the thighs: the run's track can be looped
      where it is taken, and an action track the run does not have stands still. */
  ghost predicate CanSwing(job: Job, name: string) {
    && (TakesRun(job, name) ==>
          forall s: nat :: IsLast(job.run.tracks, name, s) ==>
            CanLoop(job, job.run.tracks[s].positions, false) && CanLoop(job, job.run.tracks[s].rotations, true))
    && (!Knows(job.run.tracks, name) ==>
          forall a: nat :: IsLast(job.action.tracks, name, a) ==> StandsStill(job.action.tracks[a]))
  }

  lemma {:induction false} OneLast(tracks: seq<Track>, name: string, k: nat)
    requires IsLast(tracks, name, k)
    ensures k < |tracks| && Knows(tracks, name) && Lookup(tracks, name) == Some(tracks[k])
    ensures forall j: nat :: IsLast(tracks, name, j) ==> j == k
  {
    LookupIsLast(tracks, name, k);
    assert tracks[k] in tracks;
  }

  lemma {:induction false} NoLast(tracks: seq<Track>, name: string)
    requires !Knows(tracks, name)
    ensures forall k: nat :: !IsLast(tracks, name, k)
  {
    forall k: nat
      ensures !IsLast(tracks, name, k)
    {
      if k < |tracks| {
        assert tracks[k] in tracks;
      }
    }
  }

  lemma {:induction false} DescendantExactly(job: Job, name: string)
    ensures DescendantTrack(job, name).Ok? <==> CanSwing(job, name)
    ensures DescendantTrack(job, name).Ok? ==> (DescendantTrack(job, name).value.Some? <==> TakesRun(job, name))
    ensures DescendantTrack(job, name).Ok? && DescendantTrack(job, name).value.Some?
      ==> IsLoopedTrack(job, DescendantTrack(job, name).value.value, name)
  {
    hide Lookup, IsLast, Knows, IsStatic, StandsStill, LoopsRun, Looped, CanLoop;
    LookupIsLast(job.action.tracks, name, 0);
    LookupIsLast(job.run.tracks, name, 0);
    if Knows(job.action.tracks, name) {
      var a := LastOf(job.action.tracks, name);
      OneLast(job.action.tracks, name, a);
      StaticStands(job.action.tracks[a]);
      if Knows(job.run.tracks, name) {
        var s := LastOf(job.run.tracks, name);
        OneLast(job.run.tracks, name, s);
        StaticStands(job.run.tracks[s]);
        LoopedIs(job, job.run.tracks[s], false);
        LoopedIs(job, job.run.tracks[s], true);
        if DescendantTrack(job, name).Ok? && DescendantTrack(job, name).value.Some? {
          assert LoopsOver(job, DescendantTrack(job, name).value.value, name, a, s);
        }
      }
    } else {
      NoLast(job.action.tracks, name);
    }
  }

  /** `track` is the action's last of the thigh's name; its keys are at the times of the run's looped keys, each the
      local
      transform that puts the thigh, below the action's spine at that time, where the run has it. */
  ghost predicate IsSolvedTrack(job: Job, rank: string -> nat, track: Track, thigh: string)
    requires Sane(job, rank)
  {
    exists a: nat, s: nat :: Solves(job, rank, track, thigh, a, s)
  }

  ghost predicate Solves(job: Job, rank: string -> nat, track: Track, thigh: string, a: nat, s: nat)
    requires Sane(job, rank)
  {
    && IsLast(job.action.tracks, thigh, a) && IsLast(job.run.tracks, thigh, s)
    && track.name == thigh && track.nameBytes == job.action.tracks[a].nameBytes
    && SolvesKeys(job, rank, track.positions, thigh, job.run.tracks[s].positions, false)
    && SolvesKeys(job, rank, track.rotations, thigh, job.run.tracks[s].rotations, true)
  }

  ghost predicate SolvesKeys(job: Job, rank: string -> nat, keys: seq<Key>, thigh: string, source: seq<Key>,
                             rotation: bool)
    requires Sane(job, rank)
  {
    exists times :: LoopsRun(job, times, source, rotation) && SolvesEach(job, rank, keys, thigh, times, rotation)
  }

  /** A position key is a time and the solved position, a rotation key a time and the solved rotation. */
  ghost predicate SolvesEach(job: Job, rank: string -> nat, keys: seq<Key>, thigh: string, times: seq<Key>,
                             rotation: bool)
    requires Sane(job, rank)
  {
    && |keys| == |times|
    && forall k :: 0 <= k < |times| ==> SolvesKey(job, rank, keys[k], thigh, times[k][0], rotation)
  }

  ghost predicate SolvesKey(job: Job, rank: string -> nat, key: Key, thigh: string, t: real, rotation: bool)
    requires Sane(job, rank)
  {
    var local := Compensated(job, rank, thigh, t);
    && local.Ok?
    && key == if rotation then [t, local.value.rotation.a, local.value.rotation.b, local.value.rotation.c,
                                local.value.rotation.d]
              else [t, local.value.position.x, local.value.position.y, local.value.position.z]
  }

  lemma {:induction false} SolvesEachCons(job: Job, rank: string -> nat, keys: seq<Key>, thigh: string, times: seq<Key>,
                                          rotation: bool)
    requires Sane(job, rank) && keys != [] && times != []
    ensures SolvesEach(job, rank, keys, thigh, times, rotation)
       <==> SolvesKey(job, rank, keys[0], thigh, times[0][0], rotation)
            && SolvesEach(job, rank, keys[1..], thigh, times[1..], rotation)
  {
    hide SolvesKey, Sane;
    if SolvesEach(job, rank, keys[1..], thigh, times[1..], rotation)
       && SolvesKey(job, rank, keys[0], thigh, times[0][0], rotation) {
      forall k | 0 <= k < |times|
        ensures SolvesKey(job, rank, keys[k], thigh, times[k][0], rotation)
      {
        if k > 0 {
          assert SolvesKey(job, rank, keys[1..][k - 1], thigh, times[1..][k - 1][0], rotation);
        }
      }
    }
    if SolvesEach(job, rank, keys, thigh, times, rotation) {
      forall k | 0 <= k < |times[1..]|
        ensures SolvesKey(job, rank, keys[1..][k], thigh, times[1..][k][0], rotation)
      {
        assert SolvesKey(job, rank, keys[k + 1], thigh, times[k + 1][0], rotation);
      }
    }
  }

  lemma {:induction false} SolvesKeyExactly(job: Job, rank: string -> nat, key: Key, thigh: string, t: real,
                                            rotation: bool)
    requires Sane(job, rank)
    ensures SolvesKey(job, rank, key, thigh, t, rotation)
       <==> Compensated(job, rank, thigh, t).Ok? && key == KeyOf(t, Compensated(job, rank, thigh, t).value, rotation)
  {
    hide Compensated, Sane;
  }

  lemma {:induction false} CompensatedExactly(job: Job, rank: string -> nat, thigh: string, times: seq<Key>,
                                              rotation: bool, keys: seq<Key>)
    requires Sane(job, rank)
    ensures CompensatedKeys(job, rank, thigh, times, rotation) == Ok(keys)
       <==> SolvesEach(job, rank, keys, thigh, times, rotation)
    decreases |times|
  {
    hide Compensated, SolvesKey, KeyOf, Sane;
    if times != [] && keys != [] {
      CompensatedExactly(job, rank, thigh, times[1..], rotation, keys[1..]);
      SolvesKeyExactly(job, rank, keys[0], thigh, times[0][0], rotation);
      assert keys == [keys[0]] + keys[1..];
      SolvesEachCons(job, rank, keys, thigh, times, rotation);
    }
  }

  lemma {:induction false} ThighKeysExactly(job: Job, rank: string -> nat, thigh: string, source: Track, rotation: bool)
    requires Sane(job, rank)
    ensures var times := Looped(job, source, rotation);
      forall keys :: (SolvesKeys(job, rank, keys, thigh, Channel(source, rotation), rotation)
                      <==> times.Ok? && CompensatedKeys(job, rank, thigh, times.value, rotation) == Ok(keys))
  {
    hide LoopsRun, Looped, CompensatedKeys, SolvesEach, Sane;
    LoopedIs(job, source, rotation);
    var times := Looped(job, source, rotation);
    forall keys
      ensures SolvesKeys(job, rank, keys, thigh, Channel(source, rotation), rotation)
         <==> times.Ok? && CompensatedKeys(job, rank, thigh, times.value, rotation) == Ok(keys)
    {
      if times.Ok? {
        CompensatedExactly(job, rank, thigh, times.value, rotation, keys);
      }
    }
  }

  lemma {:induction false} ThighExactly(job: Job, rank: string -> nat, thigh: string, track: Track)
    requires Sane(job, rank)
    ensures ThighTrack(job, rank, thigh) == Ok(track) <==> IsSolvedTrack(job, rank, track, thigh)
  {
    hide Lookup, IsLast, Knows, Looped, CompensatedKeys, SolvesKeys, Sane;
    LookupIsLast(job.action.tracks, thigh, 0);
    LookupIsLast(job.run.tracks, thigh, 0);
    if Knows(job.action.tracks, thigh) && Knows(job.run.tracks, thigh) {
      var a := LastOf(job.action.tracks, thigh);
      var s := LastOf(job.run.tracks, thigh);
      OneLast(job.action.tracks, thigh, a);
      OneLast(job.run.tracks, thigh, s);
      ThighKeysExactly(job, rank, thigh, job.run.tracks[s], false);
      ThighKeysExactly(job, rank, thigh, job.run.tracks[s], true);
      assert track == Track(track.name, track.nameBytes, track.positions, track.rotations);
      if ThighTrack(job, rank, thigh) == Ok(track) {
        assert Solves(job, rank, track, thigh, a, s);
      }
      if b: nat, t: nat :| Solves(job, rank, track, thigh, b, t) {
        assert a == b && s == t;
        assert SolvesKeys(job, rank, track.positions, thigh, Channel(job.run.tracks[s], false), false);
        assert SolvesKeys(job, rank, track.rotations, thigh, Channel(job.run.tracks[s], true), true);
      }
    } else if Knows(job.action.tracks, thigh) {
      NoLast(job.run.tracks, thigh);
    } else {
      NoLast(job.action.tracks, thigh);
    }
  }

  ghost predicate CanSolve(job: Job, rank: string -> nat, thigh: string)
    requires Sane(job, rank)
  {
    exists track :: IsSolvedTrack(job, rank, track, thigh)
  }

  /** What becomes of an action track: at a thigh it is solved, at a node below one the run's looped track takes its
      place
      or it stays, and everywhere else it stays. */
  ghost predicate Layered(job: Job, rank: string -> nat, before: Track, after: Track)
    requires Sane(job, rank)
  {
    if before.name in job.thighs then IsSolvedTrack(job, rank, after, before.name)
    else if Lower(job, rank, before.name) && TakesRun(job, before.name) then IsLoopedTrack(job, after, before.name)
    else after == before
  }

  /** The run can be layered: the skeleton has the spine and both thighs below it, every thigh can be solved, and every
      other node below one can be replaced or kept. */
  ghost predicate CanLayer(job: Job, rank: string -> nat)
    requires Acyclic(job.parents, rank)
  {
    && job.run.duration > 0.0 && job.spine in job.parents
    && (forall thigh :: thigh in job.thighs ==>
          thigh in job.parents && job.parents[thigh] == Some(job.spine) && CanSolve(job, rank, thigh))
    && (forall name :: Lower(job, rank, name) && name !in job.thighs ==> CanSwing(job, name))
  }

  lemma {:induction false} ReplacementCan(job: Job, rank: string -> nat, name: string)
    requires Sane(job, rank) && Lower(job, rank, name)
    ensures Replacement(job, rank, name).Ok?
       <==> if name in job.thighs then CanSolve(job, rank, name) else CanSwing(job, name)
  {
    hide Lower, ThighTrack, DescendantTrack, Sane, IsSolvedTrack, CanSwing;
    if name in job.thighs {
      if ThighTrack(job, rank, name).Ok? {
        ThighExactly(job, rank, name, ThighTrack(job, rank, name).value);
      }
      if track :| IsSolvedTrack(job, rank, track, name) {
        ThighExactly(job, rank, name, track);
      }
    } else {
      DescendantExactly(job, name);
    }
  }

  lemma {:induction false} ComposableExactly(job: Job, rank: string -> nat)
    requires Acyclic(job.parents, rank)
    ensures Composable(job, rank) <==> CanLayer(job, rank)
  {
    hide Lower, Replacement, Acyclic, CanSolve, CanSwing;
    ThighsAreLower(job, rank);
    if job.run.duration > 0.0 {
      forall name | Lower(job, rank, name)
        ensures Replacement(job, rank, name).Ok?
           <==> if name in job.thighs then CanSolve(job, rank, name) else CanSwing(job, name)
      {
        ReplacementCan(job, rank, name);
      }
    }
    assert ThighsHang(job) <==> forall thigh :: thigh in job.thighs ==>
      thigh in job.parents && job.parents[thigh] == Some(job.spine);
  }

  /** The run layered below the action's spine, track by track. */
  ghost predicate LayersRun(job: Job, rank: string -> nat, clip: Clip)
    requires Sane(job, rank)
  {
    && clip.duration == job.action.duration && clip.version == job.action.version
    && |clip.tracks| == |job.action.tracks|
    && forall i :: 0 <= i < |clip.tracks| ==> Layered(job, rank, job.action.tracks[i], clip.tracks[i])
  }

  /** At a node below a thigh where the run's track is taken, every key of either channel is one of the run's, moved by
      whole loops, or the run's sample at the end's phase; the last is within a microsecond of the action's end. */
  lemma {:induction false} LowerFollowsRun(job: Job, rank: string -> nat, clip: Clip, i: nat, s: nat, rotation: bool,
                                           key: Key)
    requires Sane(job, rank) && LayersRun(job, rank, clip) && i < |clip.tracks|
    requires var name := job.action.tracks[i].name;
      && Lower(job, rank, name) && name !in job.thighs && TakesRun(job, name) && IsLast(job.run.tracks, name, s)
    requires key in (if rotation then clip.tracks[i].rotations else clip.tracks[i].positions)
    ensures var keys := if rotation then clip.tracks[i].rotations else clip.tracks[i].positions;
      var source := if rotation then job.run.tracks[s].rotations else job.run.tracks[s].positions;
      && (|| (exists p :: Reaches(p, source, job.run.duration, job.action.duration)
                && StandsAt(key, p, source, job.run.duration))
          || IsClosing(key, job.maths, source, job.run.duration, job.action.duration, rotation, job.order))
      && -0.000001 <= keys[|keys| - 1][0] - job.action.duration <= 0.000001
  {
    hide Below, IsSolvedTrack, TakesRun, LoopsTo, Reaches, StandsAt, IsClosing, IsLast;
    var name := job.action.tracks[i].name;
    assert Layered(job, rank, job.action.tracks[i], clip.tracks[i]);
    var a: nat, t: nat :| LoopsOver(job, clip.tracks[i], name, a, t);
    OneLast(job.run.tracks, name, s);
    assert t == s < |job.run.tracks|;
    var keys := if rotation then clip.tracks[i].rotations else clip.tracks[i].positions;
    var source := if rotation then job.run.tracks[s].rotations else job.run.tracks[s].positions;
    LoopedComesFrom(keys, job.maths, source, job.run.duration, job.action.duration, rotation, job.order, key);
  }

  lemma {:induction false} CompositionLayers(job: Job, rank: string -> nat, clip: Clip)
    requires Sane(job, rank) && IsComposition(job, rank, clip)
    ensures LayersRun(job, rank, clip)
  {
    hide Below, ThighTrack, DescendantTrack, IsSolvedTrack, IsLoopedTrack, TakesRun;
    ThighsAreLower(job, rank);
    forall i | 0 <= i < |clip.tracks|
      ensures Layered(job, rank, job.action.tracks[i], clip.tracks[i])
    {
      var name := job.action.tracks[i].name;
      assert IsReplaced(job, rank, job.action.tracks[i], clip.tracks[i]);
      if name in job.thighs {
        ThighExactly(job, rank, name, clip.tracks[i]);
      } else if Lower(job, rank, name) {
        DescendantExactly(job, name);
      }
    }
  }


  method Compensate(job: Job, ghost rank: string -> nat, thigh: string, at: real) returns (r: Result<Transform>)
    requires Sane(job, rank)
    ensures r == Compensated(job, rank, thigh, at)
  {
    hide WorldAt, LocalAt, ComposeTransform, RelativeTransform;
    var spine := WorldTransform(job.maths, job.action, job.spine, job.parents, rank, at, job.order);
    if spine.Err? {
      return spine;
    }
    var phase := LoopPhase(at, job.run.duration);
    var runSpine := WorldTransform(job.maths, job.run, job.spine, job.parents, rank, phase, job.order);
    if runSpine.Err? {
      return runSpine;
    }
    var local := LocalAt(job.maths, job.run, thigh, phase, job.order);
    if local.Err? {
      return local;
    }
    var world := ComposeTransform(job.maths, runSpine.value, local.value, job.order);
    if world.Err? {
      return world;
    }
    return RelativeTransform(job.maths, spine.value, world.value, job.order);
  }

  /** What a loop has, then what is left. */
  function Then(done: seq<Key>, more: Result<seq<Key>>): Result<seq<Key>> {
    match more
    case Ok(rest) => Ok(done + rest)
    case Err(e) => Err(e)
  }

  lemma {:induction false} ThenRegroups(done: seq<Key>, key: Key, more: Result<seq<Key>>)
    ensures Then(done, Then([key], more)) == Then(done + [key], more)
    ensures Then([], more) == more
  {
    if more.Ok? {
      assert done + ([key] + more.value) == done + [key] + more.value;
      assert [] + more.value == more.value;
    }
  }

  method CompensateKeys(job: Job, ghost rank: string -> nat, thigh: string, times: seq<Key>, rotation: bool)
    returns (r: Result<seq<Key>>)
    requires Sane(job, rank)
    ensures r == CompensatedKeys(job, rank, thigh, times, rotation)
  {
    hide Compensated, KeyOf, Sane;
    var keys: seq<Key> := [];
    assert times[0..] == times;
    ThenRegroups([], [0.0], CompensatedKeys(job, rank, thigh, times, rotation));
    for i := 0 to |times|
      invariant Then(keys, CompensatedKeys(job, rank, thigh, times[i..], rotation))
             == CompensatedKeys(job, rank, thigh, times, rotation)
    {
      assert times[i..][0] == times[i] && times[i..][1..] == times[i + 1..];
      var local := Compensate(job, rank, thigh, times[i][0]);
      if local.Err? {
        return Err(local.error);
      }
      var key := KeyOf(times[i][0], local.value, rotation);
      ghost var rest := CompensatedKeys(job, rank, thigh, times[i + 1..], rotation);
      assert CompensatedKeys(job, rank, thigh, times[i..], rotation) == Then([key], rest);
      ThenRegroups(keys, key, rest);
      keys := keys + [key];
    }
    assert keys + [] == keys;
    return Ok(keys);
  }

  method SolveThigh(job: Job, ghost rank: string -> nat, thigh: string) returns (r: Result<Track>)
    requires Sane(job, rank)
    ensures r == ThighTrack(job, rank, thigh)
  {
    hide Sane, LoopedRecords, CompensatedKeys, Lookup;
    var original, source := Lookup(job.action.tracks, thigh), Lookup(job.run.tracks, thigh);
    if original.None? || source.None? {
      return Err(MissingTrack);
    }
    var positionTimes := LoopRecords(
      job.maths, source.value.positions, job.run.duration, job.action.duration, false, job.order);
    if positionTimes.Err? {
      return Err(positionTimes.error);
    }
    var rotationTimes := LoopRecords(
      job.maths, source.value.rotations, job.run.duration, job.action.duration, true, job.order);
    if rotationTimes.Err? {
      return Err(rotationTimes.error);
    }
    var positions := CompensateKeys(job, rank, thigh, positionTimes.value, false);
    if positions.Err? {
      return Err(positions.error);
    }
    var rotations := CompensateKeys(job, rank, thigh, rotationTimes.value, true);
    if rotations.Err? {
      return Err(rotations.error);
    }
    return Ok(Track(original.value.name, original.value.nameBytes, positions.value, rotations.value));
  }

  method LoopDescendant(job: Job, name: string) returns (r: Result<Option<Track>>)
    ensures r == DescendantTrack(job, name)
  {
    hide LoopedRecords, Lookup, IsStatic;
    var original, source := Lookup(job.action.tracks, name), Lookup(job.run.tracks, name);
    if original.None? {
      return Ok(None);
    }
    if source.None? {
      if !IsStatic(original.value) {
        return Err(AnimatedTrackMissing);
      }
      return Ok(None);
    }
    if job.preserve && IsStatic(original.value) && IsStatic(source.value) {
      return Ok(None);
    }
    var positions := LoopRecords(
      job.maths, source.value.positions, job.run.duration, job.action.duration, false, job.order);
    if positions.Err? {
      return Err(positions.error);
    }
    var rotations := LoopRecords(
      job.maths, source.value.rotations, job.run.duration, job.action.duration, true, job.order);
    if rotations.Err? {
      return Err(rotations.error);
    }
    return Ok(Some(Track(original.value.name, original.value.nameBytes, positions.value, rotations.value)));
  }

  lemma {:induction false} BelowMore(parents: Parents, rank: string -> nat, name: string, roots: set<string>,
                                     more: set<string>)
    requires Acyclic(parents, rank) && roots <= more && Below(parents, rank, name, roots)
    ensures Below(parents, rank, name, more)
    decreases rank(name)
  {
    if name !in roots {
      BelowMore(parents, rank, ParentOf(parents, name).value, roots, more);
    }
  }

  /** Closing what is closed below `roots`, and one more node, is closing below all of them. */
  lemma {:induction false} BelowTwice(parents: Parents, rank: string -> nat, name: string, lower: set<string>,
                                      roots: set<string>, thigh: string)
    requires Acyclic(parents, rank)
    requires forall other :: other in lower <==> Below(parents, rank, other, roots)
    ensures Below(parents, rank, name, lower + {thigh}) <==> Below(parents, rank, name, roots + {thigh})
    decreases rank(name)
  {
    var parent := ParentOf(parents, name);
    if parent.Some? {
      BelowTwice(parents, rank, parent.value, lower, roots, thigh);
    }
    if Below(parents, rank, name, roots) {
      BelowMore(parents, rank, name, roots, roots + {thigh});
    }
  }

  function Names(names: seq<string>): set<string> {
    set name | name in names
  }

  /** The checks of the thighs, and the nodes below them. */
  method LowerNodes(job: Job, ghost rank: string -> nat) returns (r: Result<set<string>>)
    requires Acyclic(job.parents, rank)
    ensures r.Ok? <==> ThighsHang(job)
    ensures r.Ok? ==> forall name :: name in r.value <==> Lower(job, rank, name)
  {
    hide Below;
    var lower: set<string> := {};
    assert Names(job.thighs[..0]) == {};
    forall name ensures !Below(job.parents, rank, name, {}) {
      NothingBelow(job.parents, rank, name);
    }
    for i := 0 to |job.thighs|
      invariant forall name :: name in lower <==> Below(job.parents, rank, name, Names(job.thighs[..i]))
      invariant forall k :: 0 <= k < i ==> job.thighs[k] in job.parents && job.parents[job.thighs[k]] == Some(job.spine)
    {
      var thigh := job.thighs[i];
      if thigh !in job.parents || job.parents[thigh] != Some(job.spine) {
        return Err(BadSkeleton);
      }
      ghost var roots := Names(job.thighs[..i]);
      assert Names(job.thighs[..i + 1]) == roots + {thigh} by {
        assert job.thighs[..i + 1] == job.thighs[..i] + [thigh];
      }
      forall name
        ensures Below(job.parents, rank, name, lower + {thigh}) <==> Below(job.parents, rank, name, roots + {thigh})
      {
        BelowTwice(job.parents, rank, name, lower, roots, thigh);
      }
      lower := Descend(job.parents, rank, lower + {thigh});
    }
    assert job.thighs[..|job.thighs|] == job.thighs;
    return Ok(lower);
  }

  lemma {:induction false} NothingBelow(parents: Parents, rank: string -> nat, name: string)
    requires Acyclic(parents, rank)
    ensures !Below(parents, rank, name, {})
    decreases rank(name)
  {
    if ParentOf(parents, name).Some? {
      NothingBelow(parents, rank, ParentOf(parents, name).value);
    }
  }

  /** The replacements found so far are right for every name in `names` and hold nothing else. */
  ghost predicate Settled(job: Job, rank: string -> nat, found: map<string, Track>, names: set<string>)
    requires Sane(job, rank)
  {
    && found.Keys <= names
    && forall name :: name in names ==> IsSettled(job, rank, found, name)
  }

  ghost predicate IsSettled(job: Job, rank: string -> nat, found: map<string, Track>, name: string)
    requires Sane(job, rank)
  {
    Replacement(job, rank, name) == Ok(if name in found then Some(found[name]) else None)
  }

  /** The first loop: the thighs are solved. */
  method SolveThighs(job: Job, ghost rank: string -> nat) returns (r: Result<map<string, Track>>)
    requires Sane(job, rank)
    ensures r.Ok? <==> forall name :: name in job.thighs ==> Replacement(job, rank, name).Ok?
    ensures r.Ok? ==> Settled(job, rank, r.value, Names(job.thighs))
  {
    hide Sane, Lower, ThighTrack, DescendantTrack;
    var found: map<string, Track> := map[];
    for i := 0 to |job.thighs|
      invariant Settled(job, rank, found, Names(job.thighs[..i]))
    {
      var thigh := job.thighs[i];
      var track := SolveThigh(job, rank, thigh);
      if track.Err? {
        assert !Replacement(job, rank, thigh).Ok?;
        return Err(track.error);
      }
      ghost var before := found;
      found := found[thigh := track.value];
      assert Names(job.thighs[..i + 1]) == Names(job.thighs[..i]) + {thigh} by {
        assert job.thighs[..i + 1] == job.thighs[..i] + [thigh];
      }
      SettledMore(job, rank, before, found, Names(job.thighs[..i]), thigh);
    }
    assert job.thighs[..|job.thighs|] == job.thighs;
    forall name | name in job.thighs ensures Replacement(job, rank, name).Ok? {
      assert name in Names(job.thighs) && IsSettled(job, rank, found, name);
    }
    return Ok(found);
  }

  /** The second loop: the other nodes below. */
  method LoopDescendants(job: Job, ghost rank: string -> nat, lower: set<string>, thighs: map<string, Track>)
    returns (r: Result<map<string, Track>>)
    requires Sane(job, rank) && Settled(job, rank, thighs, Names(job.thighs)) && Names(job.thighs) <= lower
    requires forall name :: name in lower <==> Lower(job, rank, name)
    ensures r.Ok? <==> forall name :: name in lower ==> Replacement(job, rank, name).Ok?
    ensures r.Ok? ==> Settled(job, rank, r.value, lower)
  {
    hide Sane, Lower, ThighTrack, DescendantTrack;
    var found := thighs;
    var nodes := lower - Names(job.thighs);
    assert lower - nodes == Names(job.thighs);
    while nodes != {}
      invariant nodes <= lower - Names(job.thighs)
      invariant Settled(job, rank, found, lower - nodes)
      decreases |nodes|
    {
      var name :| name in nodes;
      var track := LoopDescendant(job, name);
      assert Replacement(job, rank, name) == DescendantTrack(job, name);
      if track.Err? {
        return Err(track.error);
      }
      ghost var before, done := found, lower - nodes;
      if track.value.Some? {
        found := found[name := track.value.value];
      }
      assert lower - (nodes - {name}) == done + {name};
      nodes := nodes - {name};
      SettledMore(job, rank, before, found, done, name);
    }
    assert lower - nodes == lower;
    forall name | name in lower ensures Replacement(job, rank, name).Ok? {
      assert IsSettled(job, rank, found, name);
    }
    return Ok(found);
  }

  lemma {:induction false} SettledMore(job: Job, rank: string -> nat, before: map<string, Track>,
                                       found: map<string, Track>, names: set<string>, name: string)
    requires Sane(job, rank) && Settled(job, rank, before, names)
    requires IsSettled(job, rank, found, name)
    requires found == before || (name in found && found == before[name := found[name]])
    ensures Settled(job, rank, found, names + {name})
  {
    hide Replacement, Sane;
    forall other | other in names + {name} ensures IsSettled(job, rank, found, other) {
      if other != name {
        assert IsSettled(job, rank, before, other);
      }
    }
  }

  /** `compose_locomotion_legs`. */
  method ComposeLegs(job: Job, ghost rank: string -> nat) returns (r: Result<Clip>)
    requires Acyclic(job.parents, rank)
    ensures r.Ok? <==> Composable(job, rank)
    ensures r.Ok? <==> CanLayer(job, rank)
    ensures r.Ok? ==> IsComposition(job, rank, r.value) && LayersRun(job, rank, r.value)
  {
    hide Lower, ThighTrack, Acyclic, ThighsHang, LayersRun, CanLayer;
    ComposableExactly(job, rank);
    if job.run.duration <= 0.0 {
      return Err(BadLoopDuration);
    }
    if job.spine !in job.parents {
      return Err(BadSkeleton);
    }
    var lower := LowerNodes(job, rank);
    if lower.Err? {
      return Err(lower.error);
    }
    ThighsAreLower(job, rank);
    var thighs := SolveThighs(job, rank);
    if thighs.Err? {
      return Err(thighs.error);
    }
    var found := LoopDescendants(job, rank, lower.value, thighs.value);
    if found.Err? {
      return Err(found.error);
    }
    var tracks: seq<Track> := [];
    for i := 0 to |job.action.tracks|
      invariant |tracks| == i
      invariant forall k :: 0 <= k < i ==> IsReplaced(job, rank, job.action.tracks[k], tracks[k])
    {
      var track := job.action.tracks[i];
      assert track.name in lower.value ==> IsSettled(job, rank, found.value, track.name);
      ThighsAreLower(job, rank);
      tracks := tracks + [if track.name in found.value then found.value[track.name] else track];
    }
    var clip := Clip(job.action.duration, tracks, job.action.version);
    CompositionLayers(job, rank, clip);
    return Ok(clip);
  }

  lemma {:induction false} ThighsAreLower(job: Job, rank: string -> nat)
    requires Acyclic(job.parents, rank)
    ensures forall name :: IsThigh(job, name) ==> Lower(job, rank, name)
  {
    forall name | IsThigh(job, name) ensures Lower(job, rank, name) {
    }
  }
}
