/** What the composed clip looks like in the world (tools/compose_infantry_animation.py:388-487). */
module Legs {
  import opened Outcome
  import opened Rigid
  import opened Channels
  import opened Loop
  import opened Compose

  // ----- everything above the thighs

  /** Replacing tracks keeps their names: a lookup finds the replacement of what it found before. */
  lemma {:induction false} LookupReplaced(job: Job, rank: string -> nat, before: seq<Track>, after: seq<Track>,
                                          name: string)
    requires Sane(job, rank) && |before| == |after|
    requires forall i :: 0 <= i < |before| ==> after[i].name == before[i].name
    requires Replacement(job, rank, name).Ok?
    requires forall i :: 0 <= i < |before| && before[i].name == name ==> IsReplaced(job, rank, before[i], after[i])
    ensures Lookup(before, name).None? ==> Lookup(after, name).None?
    ensures Lookup(before, name).Some? ==>
              Lookup(after, name)
              == Some(match Replacement(job, rank, name).value
                      case Some(replaced) => replaced
                      case None => Lookup(before, name).value)
    decreases |before|
  {
    hide Replacement, Sane;
    if before != [] {
      LookupReplaced(job, rank, before[1..], after[1..], name);
    }
  }

  lemma {:induction false} LookupComposed(job: Job, rank: string -> nat, clip: Clip, name: string)
    requires Sane(job, rank) && IsComposition(job, rank, clip)
    requires Replacement(job, rank, name).Ok?
    ensures Lookup(job.action.tracks, name).None? ==> Lookup(clip.tracks, name).None?
    ensures Lookup(job.action.tracks, name).Some? ==>
              Lookup(clip.tracks, name)
              == Some(match Replacement(job, rank, name).value
                      case Some(replaced) => replaced
                      case None => Lookup(job.action.tracks, name).value)
  {
    hide Lookup, ThighTrack, DescendantTrack, Lower;
    forall i | 0 <= i < |clip.tracks|
      ensures clip.tracks[i].name == job.action.tracks[i].name
    {
      assert IsReplaced(job, rank, job.action.tracks[i], clip.tracks[i]);
    }
    LookupReplaced(job, rank, job.action.tracks, clip.tracks, name);
  }

  /** Every node that is not below a thigh keeps its world transform at every time: the upper body stays the
      action's. */
  lemma {:induction false} UpperBodyStays(job: Job, rank: string -> nat, clip: Clip, name: string, t: real)
    requires Sane(job, rank) && IsComposition(job, rank, clip)
    requires !Lower(job, rank, name)
    ensures WorldAt(job.maths, clip, name, job.parents, rank, t, job.order)
         == WorldAt(job.maths, job.action, name, job.parents, rank, t, job.order)
    decreases rank(name)
  {
    hide IsComposition, Replacement, SampleTransform, ComposeTransform, Lookup;
    assert Replacement(job, rank, name) == Ok(None) by {
      ThighsAreLower(job, rank);
      NotReplaced(job, rank, name);
    }
    LookupComposed(job, rank, clip, name);
    var parent := ParentOf(job.parents, name);
    if parent.Some? {
      UpperBodyStays(job, rank, clip, parent.value, t);
    }
  }

  lemma {:induction false} NotReplaced(job: Job, rank: string -> nat, name: string)
    requires Sane(job, rank) && !Lower(job, rank, name)
    ensures Replacement(job, rank, name) == Ok(None)
  {
    ThighsAreLower(job, rank);
  }

  lemma {:induction false} LowerRanksAbove(job: Job, rank: string -> nat, name: string)
    requires Acyclic(job.parents, rank) && ThighsHang(job) && Lower(job, rank, name)
    ensures rank(job.spine) < rank(name)
    decreases rank(name)
  {
    if name in job.thighs {
      var i :| 0 <= i < |job.thighs| && job.thighs[i] == name;
      assert job.parents[name] == Some(job.spine);
    } else {
      LowerRanksAbove(job, rank, ParentOf(job.parents, name).value);
    }
  }

  // ----- the thighs

  /** A compensated key stands for each time, and holds that time's transform. */
  lemma {:induction false} CompensatedAt(job: Job, rank: string -> nat, thigh: string, times: seq<Key>, rotation: bool,
                                         k: nat)
    requires Sane(job, rank) && CompensatedKeys(job, rank, thigh, times, rotation).Ok?
    ensures var keys := CompensatedKeys(job, rank, thigh, times, rotation).value;
            |keys| == |times|
            && (k < |times| ==>
                  && Compensated(job, rank, thigh, times[k][0]).Ok?
                  && keys[k] == KeyOf(times[k][0], Compensated(job, rank, thigh, times[k][0]).value, rotation))
    decreases |times|
  {
    hide Compensated, KeyOf, Sane;
    if times != [] {
      CompensatedAt(job, rank, thigh, times[1..], rotation, if k == 0 then 0 else k - 1);
    }
  }

  lemma {:induction false} CompensatedIsSound(job: Job, rank: string -> nat, thigh: string, times: seq<Key>,
                                              rotation: bool)
    requires Sane(job, rank) && CompensatedKeys(job, rank, thigh, times, rotation).Ok?
    ensures var keys := CompensatedKeys(job, rank, thigh, times, rotation).value;
            && |keys| == |times| && (forall i :: 0 <= i < |keys| ==> keys[i][0] == times[i][0])
            && WellFormed(keys, rotation)
            && (!rotation ==> forall i :: 0 <= i < |keys| ==> |keys[i]| == 4)
  {
    hide Compensated, CompensatedKeys, Sane;
    var keys := CompensatedKeys(job, rank, thigh, times, rotation).value;
    CompensatedAt(job, rank, thigh, times, rotation, 0);
    forall i: nat | i < |keys|
      ensures keys[i][0] == times[i][0] && |keys[i]| == if rotation then 5 else 4
    {
      CompensatedAt(job, rank, thigh, times, rotation, i);
    }
  }

  /** Both channels of a solved thigh are well formed and hold the compensated transforms. */
  lemma {:induction false} ThighChannel(job: Job, rank: string -> nat, thigh: string, rotation: bool, k: nat)
    requires Sane(job, rank) && ThighTrack(job, rank, thigh).Ok?
    ensures var keys := Channel(ThighTrack(job, rank, thigh).value, rotation);
            && WellFormed(keys, rotation)
            && (!rotation ==> forall i :: 0 <= i < |keys| ==> |keys[i]| == 4)
            && (k < |keys| ==>
                  && Compensated(job, rank, thigh, keys[k][0]).Ok?
                  && keys[k] == KeyOf(keys[k][0], Compensated(job, rank, thigh, keys[k][0]).value, rotation))
  {
    hide LoopedRecords, CompensatedKeys, Compensated, Sane, WellFormed;
    var source := Lookup(job.run.tracks, thigh).value;
    var times := Looped(job, source, rotation).value;
    CompensatedIsSound(job, rank, thigh, times, rotation);
    CompensatedAt(job, rank, thigh, times, rotation, k);
  }

  /** The thigh's source in the run has its keys in time order, over at most one loop. */
  predicate RunKeysInOrder(job: Job, thigh: string) {
    var source := Lookup(job.run.tracks, thigh);
    source.Some? ==>
      Timeline(source.value.positions, job.run.duration) && Timeline(source.value.rotations, job.run.duration)
  }

  /** Where the run's keys are in order, every key of the solved thigh is later than all before it. */
  lemma {:induction false} InOrderIsFirst(job: Job, rank: string -> nat, thigh: string, rotation: bool, k: nat)
    requires Sane(job, rank) && ThighTrack(job, rank, thigh).Ok? && RunKeysInOrder(job, thigh)
    requires k < |Channel(ThighTrack(job, rank, thigh).value, rotation)|
    ensures First(Channel(ThighTrack(job, rank, thigh).value, rotation), k)
  {
    hide LoopedRecords, CompensatedKeys, Sane, Timeline, WellFormed;
    var source := Lookup(job.run.tracks, thigh).value;
    var times := Looped(job, source, rotation).value;
    LoopedTimeline(job.maths, Channel(source, rotation), job.run.duration, job.action.duration, rotation, job.order);
    CompensatedIsSound(job, rank, thigh, times, rotation);
  }

  /** Sampled at a time both channels have a key for, a solved thigh is the compensated transform. */
  lemma {:induction false} ThighSample(job: Job, rank: string -> nat, thigh: string, p: nat, r: nat) returns (c: real)
    requires Sound(job.maths) && Sane(job, rank) && ThighTrack(job, rank, thigh).Ok?
    requires var track := ThighTrack(job, rank, thigh).value;
             && p < |track.positions| && r < |track.rotations| && track.positions[p][0] == track.rotations[r][0]
             && First(track.positions, p) && First(track.rotations, r)
    ensures var track := ThighTrack(job, rank, thigh).value;
            var t := track.positions[p][0];
            && WellFormed(track.rotations, true)
            && Compensated(job, rank, thigh, t).Ok?
            && var local := Compensated(job, rank, thigh, t).value;
               var q := ToXyzw(local.rotation, job.order);
               && (c == 1.0 || c * c * Norm2(q) == 1.0)
               && (SampleTransform(job.maths, track, t, job.order).Ok?
                   <==> r == 0 || (Norm2(RotationOf(track.rotations[r - 1], job.order)) != 0.0 && Norm2(q) != 0.0))
               && (SampleTransform(job.maths, track, t, job.order).Ok? ==>
                     SampleTransform(job.maths, track, t, job.order)
                     == Ok(Transform(local.position, ToOrder(Multiple(c, q), job.order))))
  {
    hide ThighTrack, Compensated, Sane, Sample, Norm2, First, ToXyzw, ToOrder, Multiple, Sound;
    var track := ThighTrack(job, rank, thigh).value;
    var t := track.positions[p][0];
    ThighChannel(job, rank, thigh, false, p);
    ThighChannel(job, rank, thigh, true, r);
    var local := Compensated(job, rank, thigh, t).value;
    PositionAtKey(job.maths, track.positions, p, job.order);
    c := RotationAtKey(job.maths, track.rotations, r, job.order);
    assert track.positions[p][1..] == [local.position.x, local.position.y, local.position.z];
  }

  /** What composing with a scaled relative transform gives. */
  lemma {:induction false} ScaledRelative(m: Maths, parent: Transform, world: Transform, c: real, order: Order)
    requires Sound(m) && RelativeTransform(m, parent, world, order).Ok?
    ensures var local := RelativeTransform(m, parent, world, order).value;
            var scaled := Transform(local.position, ToOrder(Multiple(c, ToXyzw(local.rotation, order)), order));
            ComposeTransform(m, parent, scaled, order)
            == Ok(Transform(world.position, ToOrder(Multiple(c, ToXyzw(world.rotation, order)), order)))
  {
    hide RelativeTransform, QuatRotate, Product, Multiple, Norm2, Sound;
    ComposeRelative(m, parent, world, order);
    var local := RelativeTransform(m, parent, world, order).value;
    var p, l := ToXyzw(parent.rotation, order), ToXyzw(local.rotation, order);
    ProductOfMultiple(c, p, l);
  }

  /** The relative rotation is as long as the world's is against the parent's. */
  lemma {:induction false} RelativeLength(m: Maths, parent: Transform, world: Transform, c: real, order: Order)
    requires Sound(m) && RelativeTransform(m, parent, world, order).Ok?
    ensures var q := ToXyzw(RelativeTransform(m, parent, world, order).value.rotation, order);
            && Norm2(ToXyzw(parent.rotation, order)) * Norm2(q) == Norm2(ToXyzw(world.rotation, order))
            && (c * c * Norm2(q) == 1.0 ==>
                  c * c * Norm2(ToXyzw(world.rotation, order)) == Norm2(ToXyzw(parent.rotation, order)))
  {
    hide RelativeTransform, QuatRotate, Product, Norm2, Sound;
    ComposeRelative(m, parent, world, order);
    var p := ToXyzw(parent.rotation, order);
    var q := ToXyzw(RelativeTransform(m, parent, world, order).value.rotation, order);
    Norm2OfProduct(p, q);
  }

  /** The run's thigh in the world is its spine composed with the thigh's own track. */
  lemma {:induction false} RunThighIsWorld(job: Job, rank: string -> nat, thigh: string, phase: real)
    requires Sane(job, rank) && ThighsHang(job) && thigh in job.thighs
    ensures RunThigh(job, rank, thigh, phase)
         == WorldAt(job.maths, job.run, thigh, job.parents, rank, phase, job.order)
  {
    hide LocalAt, ComposeTransform;
    var i :| 0 <= i < |job.thighs| && job.thighs[i] == thigh;
    assert ParentOf(job.parents, thigh) == Some(job.spine);
  }

  /**
   * At a time both channels of a composed thigh have a key for, with no earlier key at or past that time, the thigh
   * stands in the world where the run has it at the loop's phase, with the run's rotation up to a factor `c`. Sampling
   * fails only next to a zero quaternion.
   */
  lemma {:induction false} ThighFollowsRun(job: Job, rank: string -> nat, clip: Clip, thigh: string, p: nat, r: nat)
    returns (c: real)
    requires Sound(job.maths) && Sane(job, rank) && Composable(job, rank) && IsComposition(job, rank, clip)
    requires thigh in job.thighs
    requires Lookup(clip.tracks, thigh).Some?
    requires var track := Lookup(clip.tracks, thigh).value;
             && p < |track.positions| && r < |track.rotations| && track.positions[p][0] == track.rotations[r][0]
             && First(track.positions, p) && First(track.rotations, r)
    ensures var track := Lookup(clip.tracks, thigh).value;
            var t := track.positions[p][0];
            var phase := LoopPhase(t, job.run.duration);
            var composed := WorldAt(job.maths, clip, thigh, job.parents, rank, t, job.order);
            var run := WorldAt(job.maths, job.run, thigh, job.parents, rank, phase, job.order);
            var spine := WorldAt(job.maths, job.action, job.spine, job.parents, rank, t, job.order);
            && run.Ok? && spine.Ok?
            && (composed.Ok? ==>
                  composed == Ok(Transform(run.value.position,
                                           ToOrder(Multiple(c, ToXyzw(run.value.rotation, job.order)), job.order))))
            && (c == 1.0
                || c * c * Norm2(ToXyzw(run.value.rotation, job.order))
                    == Norm2(ToXyzw(spine.value.rotation, job.order)))
            && WellFormed(track.rotations, true)
            && (composed.Ok? <==> r == 0 || (Norm2(RotationOf(track.rotations[r - 1], job.order)) != 0.0
                                             && Norm2(ToXyzw(run.value.rotation, job.order)) != 0.0))
  {
    hide ThighTrack, SampleTransform, Norm2, ToXyzw, ToOrder, Multiple, Sound, ComposeTransform, RelativeTransform,
      IsComposition, RunThigh, DescendantTrack, WellFormed;
    ThighIsReplaced(job, rank, clip, thigh);
    var track := ThighTrack(job, rank, thigh).value;
    var t := track.positions[p][0];
    c := ThighSample(job, rank, thigh, p, r);
    SpineIsNotLower(job, rank);
    UpperBodyStays(job, rank, clip, job.spine, t);
    var phase := LoopPhase(t, job.run.duration);
    RunThighIsWorld(job, rank, thigh, phase);
    var spine := WorldAt(job.maths, job.action, job.spine, job.parents, rank, t, job.order).value;
    var run := RunThigh(job, rank, thigh, phase).value;
    ScaledRelative(job.maths, spine, run, c, job.order);
    RelativeLength(job.maths, spine, run, c, job.order);
    SpineNonzero(job.maths, spine, run, job.order);
    assert ParentOf(job.parents, thigh) == Some(job.spine) by {
      var i :| 0 <= i < |job.thighs| && job.thighs[i] == thigh;
    }
  }

  lemma {:induction false} SpineNonzero(m: Maths, parent: Transform, world: Transform, order: Order)
    requires Sound(m) && RelativeTransform(m, parent, world, order).Ok?
    ensures Norm2(ToXyzw(parent.rotation, order)) != 0.0
    ensures Norm2(ToXyzw(RelativeTransform(m, parent, world, order).value.rotation, order)) == 0.0
       <==> Norm2(ToXyzw(world.rotation, order)) == 0.0
  {
    hide RelativeTransform, Norm2, Sound;
    ComposeRelative(m, parent, world, order);
    RelativeLength(m, parent, world, 0.0, order);
    var p, q := Norm2(ToXyzw(parent.rotation, order)),
        Norm2(ToXyzw(RelativeTransform(m, parent, world, order).value.rotation, order));
    if p * q == 0.0 {
      ZeroFactor(p, q);
    }
  }

  lemma {:induction false} SpineIsNotLower(job: Job, rank: string -> nat)
    requires Acyclic(job.parents, rank) && ThighsHang(job)
    ensures !Lower(job, rank, job.spine)
  {
    if Lower(job, rank, job.spine) {
      LowerRanksAbove(job, rank, job.spine);
    }
  }

  lemma {:induction false} ThighIsReplaced(job: Job, rank: string -> nat, clip: Clip, thigh: string)
    requires Sane(job, rank) && Composable(job, rank) && IsComposition(job, rank, clip) && thigh in job.thighs
    ensures ThighTrack(job, rank, thigh).Ok?
    ensures Lookup(clip.tracks, thigh) == Some(ThighTrack(job, rank, thigh).value)
  {
    hide IsComposition, Lower, Lookup, DescendantTrack;
    ThighsAreLower(job, rank);
    assert IsThigh(job, thigh);
    assert Replacement(job, rank, thigh).Ok?;
    LookupComposed(job, rank, clip, thigh);
  }

  /** Between quaternions of one length, unit ones for instance, the factor is a sign. */
  lemma {:induction false} FactorIsSign(c: real, m: real, n: real)
    requires m == n != 0.0 && (c == 1.0 || c * c * m == n)
    ensures c == 1.0 || c == -1.0
  {
    if c != 1.0 {
      assert (c * c - 1.0) * n == 0.0;
      ZeroFactor(c * c - 1.0, n);
      assert (c - 1.0) * (c + 1.0) == 0.0;
      ZeroFactor(c - 1.0, c + 1.0);
    }
  }

  lemma {:induction false} OnceIsItself(q: Quad, order: Order)
    ensures ToOrder(Multiple(1.0, ToXyzw(q, order)), order) == q
  {
  }

  /** Where the spine and the run's thigh have rotations of one length, unit ones for instance, the composed thigh is
      the run's in position and, up to its sign, in rotation. */
  lemma {:induction false} ThighFollowsRunUpToSign(job: Job, rank: string -> nat, clip: Clip, thigh: string, p: nat,
                                                   r: nat)
    requires Sound(job.maths) && Sane(job, rank) && Composable(job, rank) && IsComposition(job, rank, clip)
    requires thigh in job.thighs
    requires Lookup(clip.tracks, thigh).Some?
    requires var track := Lookup(clip.tracks, thigh).value;
             && p < |track.positions| && r < |track.rotations| && track.positions[p][0] == track.rotations[r][0]
             && First(track.positions, p) && First(track.rotations, r)
    requires var t := Lookup(clip.tracks, thigh).value.positions[p][0];
             var run := WorldAt(job.maths, job.run, thigh, job.parents, rank, LoopPhase(t, job.run.duration),
                               job.order);
             var spine := WorldAt(job.maths, job.action, job.spine, job.parents, rank, t, job.order);
             run.Ok? && spine.Ok? ==>
               Norm2(ToXyzw(run.value.rotation, job.order)) == Norm2(ToXyzw(spine.value.rotation, job.order)) != 0.0
    ensures var t := Lookup(clip.tracks, thigh).value.positions[p][0];
            var composed := WorldAt(job.maths, clip, thigh, job.parents, rank, t, job.order);
            var run := WorldAt(job.maths, job.run, thigh, job.parents, rank, LoopPhase(t, job.run.duration), job.order);
            composed.Ok? ==>
              && run.Ok? && composed.value.position == run.value.position
              && (composed.value.rotation == run.value.rotation
                  || composed.value.rotation
                      == ToOrder(Multiple(-1.0, ToXyzw(run.value.rotation, job.order)), job.order))
  {
    hide Norm2, ToXyzw, ToOrder, Multiple, Sound, IsComposition, WellFormed, WorldAt, First;
    var c := ThighFollowsRun(job, rank, clip, thigh, p, r);
    var t := Lookup(clip.tracks, thigh).value.positions[p][0];
    var run := WorldAt(job.maths, job.run, thigh, job.parents, rank, LoopPhase(t, job.run.duration), job.order).value;
    var spine := WorldAt(job.maths, job.action, job.spine, job.parents, rank, t, job.order).value;
    assert c == 1.0 || c * c * Norm2(ToXyzw(run.rotation, job.order)) == Norm2(ToXyzw(spine.rotation, job.order));
    FactorIsSign(c, Norm2(ToXyzw(run.rotation, job.order)), Norm2(ToXyzw(spine.rotation, job.order)));
    OnceIsItself(run.rotation, job.order);
  }
}
