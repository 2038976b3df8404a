/** A composed thigh that does not follow the run at one of its key times
    (tools/compose_infantry_animation.py:344-371, 429-457). */
module Strays {
  import opened Outcome
  import opened Rigid
  import opened Channels
  import opened Loop
  import opened Compose

  // ----- transforms without a rotation

  const UPRIGHT := Quad(0.0, 0.0, 0.0, 1.0)

  function At(x: real): Transform {
    Transform(Vec(x, 0.0, 0.0), UPRIGHT)
  }

  const FORWARD := Quat(0.0, 0.0, 0.0, 1.0)

  lemma {:induction false} ForwardIsUnit()
    ensures Norm2(FORWARD) == 1.0 && Divided(FORWARD, 1.0) == FORWARD && Conjugate(FORWARD) == FORWARD
    ensures Product(FORWARD, FORWARD) == FORWARD && Dot(FORWARD, FORWARD) == 1.0
  {
  }

  lemma {:induction false} ForwardStays(t: real)
    ensures Blend(FORWARD, FORWARD, t) == FORWARD
  {
  }

  const ORIGIN := Vec(0.0, 0.0, 0.0)

  lemma {:induction false} NothingTurns(v: Vec, s: real)
    ensures Cross(ORIGIN, v) == ORIGIN && Scale(s, ORIGIN) == ORIGIN && Add(v, ORIGIN) == v
  {
  }

  lemma {:induction false} ForwardTurns(v: Vec)
    ensures Turn(FORWARD, v) == v
  {
    hide Cross, Scale, Add;
    assert Axis(FORWARD) == ORIGIN;
    NothingTurns(v, 2.0);
    NothingTurns(ORIGIN, FORWARD.w);
  }

  lemma {:induction false} RotateUnfolds(m: Maths, q: Quad, v: Vec)
    requires m.sqrt(Norm2(ToXyzw(q, Xyzw))) == 1.0
    ensures QuatRotate(m, q, v, Xyzw) == Ok(Turn(Divided(ToXyzw(q, Xyzw), 1.0), v))
  {
    hide Norm2, Turn, Divided;
  }

  lemma {:induction false} UprightRotates(m: Maths, v: Vec)
    requires Sound(m)
    ensures QuatRotate(m, UPRIGHT, v, Xyzw) == Ok(v)
  {
    hide Sound, Norm2, Divided, Turn, Dot, Product, Conjugate, QuatRotate;
    RootOfOne(m);
    ForwardIsUnit();
    ForwardTurns(v);
    assert ToXyzw(UPRIGHT, Xyzw) == FORWARD;
    RotateUnfolds(m, UPRIGHT, v);
  }

  lemma {:induction false} UprightCompose(m: Maths, x: real, y: real)
    requires Sound(m)
    ensures ComposeTransform(m, At(x), At(y), Xyzw) == Ok(At(x + y))
  {
    hide Sound, QuatRotate, Product, Norm2, Divided, Conjugate, Dot;
    UprightRotates(m, Vec(y, 0.0, 0.0));
    ForwardIsUnit();
    assert ToXyzw(UPRIGHT, Xyzw) == FORWARD && ToOrder(FORWARD, Xyzw) == UPRIGHT;
  }

  lemma {:induction false} UprightRelative(m: Maths, x: real, y: real)
    requires Sound(m)
    ensures RelativeTransform(m, At(x), At(y), Xyzw) == Ok(At(y - x))
  {
    hide Sound, QuatRotate, Norm2, Divided, Conjugate, ComposeTransform, Product, Dot;
    ForwardIsUnit();
    assert ToXyzw(UPRIGHT, Xyzw) == FORWARD && ToOrder(FORWARD, Xyzw) == UPRIGHT;
    assert InverseQuad(UPRIGHT, Xyzw) == UPRIGHT;
    UprightRotates(m, Vec(-x, 0.0, 0.0));
    assert InverseTransform(m, At(x), Xyzw) == Ok(At(-x));
    UprightCompose(m, -x, y);
    assert -x + y == y - x;
  }

  lemma {:induction false} UprightSlerp(m: Maths, u: real)
    requires Sound(m)
    ensures QuatSlerp(m, QuadValues(UPRIGHT), QuadValues(UPRIGHT), u, Xyzw) == Ok(QuadValues(UPRIGHT))
  {
    hide Sound, Norm2, Divided, Clamp, Product, Dot, Blend, Conjugate, Mix;
    RootOfOne(m);
    ForwardIsUnit();
    ForwardStays(Clamp(u));
    assert QuadOf(QuadValues(UPRIGHT)) == UPRIGHT;
    assert ToXyzw(UPRIGHT, Xyzw) == FORWARD && ToOrder(FORWARD, Xyzw) == UPRIGHT;
    assert Arc(m, FORWARD, FORWARD, 1.0, Clamp(u)) == Ok(FORWARD);
    assert Slerp(m, FORWARD, FORWARD, u) == Ok(FORWARD);
  }

  // ----- samples of channels that never turn

  function Turning(time: real): Key {
    [time, 0.0, 0.0, 0.0, 1.0]
  }

  function Standing(time: real, x: real): Key {
    [time, x, 0.0, 0.0]
  }

  /** Upright at every key is upright at every time. */
  lemma {:induction false} UprightScan(m: Maths, keys: seq<Key>, t: real)
    requires Sound(m) && keys != [] && WellFormed(keys, true)
    requires forall i :: 0 <= i < |keys| ==> keys[i][1..] == QuadValues(UPRIGHT)
    ensures Scan(m, keys, t, true, Xyzw) == Ok(QuadValues(UPRIGHT))
    ensures Sample(m, keys, t, true, Xyzw) == Ok(Some(QuadValues(UPRIGHT)))
    decreases |keys|
  {
    hide Sound, QuatSlerp;
    if |keys| > 1 {
      var span := keys[1][0] - keys[0][0];
      if t <= keys[1][0] && span > 0.0 {
        UprightSlerp(m, (t - keys[0][0]) / span);
      }
      assert WellFormed(keys[1..], true);
      UprightScan(m, keys[1..], t);
    }
  }

  /** The origin at every key is the origin at every time. */
  lemma {:induction false} OriginScan(m: Maths, keys: seq<Key>, t: real)
    requires keys != [] && WellFormed(keys, false)
    requires forall i :: 0 <= i < |keys| ==> keys[i][1..] == [0.0, 0.0, 0.0]
    ensures Scan(m, keys, t, false, Xyzw) == Ok([0.0, 0.0, 0.0])
    ensures Sample(m, keys, t, false, Xyzw) == Ok(Some([0.0, 0.0, 0.0]))
    decreases |keys|
  {
    hide Lerp;
    if |keys| > 1 {
      var span := keys[1][0] - keys[0][0];
      if t <= keys[1][0] && span > 0.0 {
        LerpStays((t - keys[0][0]) / span);
      }
      assert WellFormed(keys[1..], false);
      OriginScan(m, keys[1..], t);
    }
  }

  lemma {:induction false} LerpStays(u: real)
    ensures Lerp([0.0, 0.0, 0.0], [0.0, 0.0, 0.0], u) == Ok([0.0, 0.0, 0.0])
  {
    var r := Lerp([0.0, 0.0, 0.0], [0.0, 0.0, 0.0], u).value;
    forall i | 0 <= i < 3 ensures r[i] == 0.0 {
      assert r[i] == 0.0 + (0.0 - 0.0) * Clamp(u);
    }
    assert r == [0.0, 0.0, 0.0];
  }

  // ----- the clips

  /** The action's spine jumps ahead in the first quarter; the run's spine and thigh never move. */
  const SPINE := Track("spine", [], [Standing(0.0, 0.0), Standing(0.25, 4.0)], [Turning(0.0)])

  const RUN_SPINE := Track("spine", [], [Standing(0.0, 0.0)], [Turning(0.0)])

  const THIGH := Track("thigh", [], [Standing(0.0, 0.0)], [Turning(0.0)])

  const RUN_POSITIONS: seq<Key> := [Standing(0.0, 0.0), Standing(0.5, 0.0), Standing(0.49995, 0.0)]

  const RUN_ROTATIONS: seq<Key> := [Turning(0.0), Turning(0.5), Turning(0.49995)]

  const RUN_THIGH := Track("thigh", [], RUN_POSITIONS, RUN_ROTATIONS)

  const PARENTS: Parents := map["spine" := None, "thigh" := Some("spine")]

  function Example(m: Maths): Job {
    Job(m, Clip(1.0, [SPINE, THIGH], 1), Clip(1.0, [RUN_SPINE, RUN_THIGH], 1), PARENTS, "spine", ["thigh"], Xyzw, false)
  }

  function Rank(name: string): nat {
    if name == "thigh" then 1 else 0
  }

  function SpineAt(t: real): real {
    if t == 0.0 then 0.0 else 4.0
  }

  lemma {:induction false} Lookups()
    ensures Lookup([SPINE, THIGH], "spine") == Some(SPINE) && Lookup([SPINE, THIGH], "thigh") == Some(THIGH)
    ensures Lookup([RUN_SPINE, RUN_THIGH], "spine") == Some(RUN_SPINE)
    ensures Lookup([RUN_SPINE, RUN_THIGH], "thigh") == Some(RUN_THIGH)
  {
    assert [SPINE, THIGH][1..] == [THIGH] && [THIGH][1..] == [];
    assert [RUN_SPINE, RUN_THIGH][1..] == [RUN_THIGH] && [RUN_THIGH][1..] == [];
  }

  lemma {:induction false} TransformOf(m: Maths, track: Track, t: real, x: real)
    requires Sample(m, track.positions, t, false, Xyzw) == Ok(Some([x, 0.0, 0.0]))
    requires Sample(m, track.rotations, t, true, Xyzw) == Ok(Some(QuadValues(UPRIGHT)))
    ensures SampleTransform(m, track, t, Xyzw) == Ok(At(x))
  {
    hide Sample;
  }

  lemma {:induction false} SpineStands(m: Maths, t: real)
    requires Sound(m) && (t == 0.0 || t > 0.25)
    ensures SampleTransform(m, SPINE, t, Xyzw) == Ok(At(SpineAt(t)))
  {
    hide Sound, Between;
    UprightScan(m, SPINE.rotations, t);
    var keys := SPINE.positions;
    assert keys[0][1..] == [0.0, 0.0, 0.0] && keys[1][1..] == [4.0, 0.0, 0.0];
    assert keys[1..] == [keys[1]];
    assert Scan(m, keys[1..], t, false, Xyzw) == Ok([4.0, 0.0, 0.0]);
    TransformOf(m, SPINE, t, SpineAt(t));
  }

  lemma {:induction false} SkeletonRanks()
    ensures Acyclic(PARENTS, Rank)
    ensures ParentOf(PARENTS, "spine") == None && ParentOf(PARENTS, "thigh") == Some("spine")
  {
  }

  // ----- where everything stands

  /** A root node composed with nothing stands where its track says. */
  lemma {:induction false} RootStands(m: Maths, clip: Clip, t: real, x: real)
    requires Sound(m) && Acyclic(PARENTS, Rank)
    requires LocalAt(m, clip, "spine", t, Xyzw) == Ok(At(x))
    ensures WorldAt(m, clip, "spine", PARENTS, Rank, t, Xyzw) == Ok(At(x))
  {
    hide Sound, LocalAt, ComposeTransform, Acyclic;
    SkeletonRanks();
    UprightCompose(m, 0.0, x);
    assert Identity(Xyzw) == At(0.0);
    assert 0.0 + x == x;
  }

  lemma {:induction false} ThighStands(m: Maths, clip: Clip, t: real, x: real, y: real)
    requires Sound(m) && Acyclic(PARENTS, Rank)
    requires WorldAt(m, clip, "spine", PARENTS, Rank, t, Xyzw) == Ok(At(x))
    requires LocalAt(m, clip, "thigh", t, Xyzw) == Ok(At(y))
    ensures WorldAt(m, clip, "thigh", PARENTS, Rank, t, Xyzw) == Ok(At(x + y))
  {
    hide Sound, LocalAt, ComposeTransform, Acyclic;
    SkeletonRanks();
    UprightCompose(m, x, y);
  }

  lemma {:induction false} ActionSpine(m: Maths, t: real)
    requires Sound(m) && (t == 0.0 || t > 0.25)
    ensures Acyclic(PARENTS, Rank)
    ensures WorldAt(m, Example(m).action, "spine", PARENTS, Rank, t, Xyzw) == Ok(At(SpineAt(t)))
  {
    hide Sound, SampleTransform, WorldAt, Lookup;
    SkeletonRanks();
    Lookups();
    SpineStands(m, t);
    RootStands(m, Example(m).action, t, SpineAt(t));
  }

  lemma {:induction false} RunStands(m: Maths, t: real)
    requires Sound(m)
    ensures Acyclic(PARENTS, Rank) && Sane(Example(m), Rank)
    ensures RunThigh(Example(m), Rank, "thigh", t) == Ok(At(0.0))
    ensures WorldAt(m, Example(m).run, "thigh", PARENTS, Rank, t, Xyzw) == Ok(At(0.0))
  {
    hide Sound, SampleTransform, WorldAt, Lookup, ComposeTransform, Sample, Scan;
    SkeletonRanks();
    Lookups();
    OriginScan(m, RUN_SPINE.positions, t);
    UprightScan(m, RUN_SPINE.rotations, t);
    TransformOf(m, RUN_SPINE, t, 0.0);
    RootStands(m, Example(m).run, t, 0.0);
    OriginScan(m, RUN_POSITIONS, t);
    UprightScan(m, RUN_ROTATIONS, t);
    TransformOf(m, RUN_THIGH, t, 0.0);
    ThighStands(m, Example(m).run, t, 0.0, 0.0);
    UprightCompose(m, 0.0, 0.0);
  }

  lemma {:induction false} CompensatedIs(m: Maths, t: real)
    requires Sound(m) && (t == 0.0 || t > 0.25)
    ensures Sane(Example(m), Rank)
    ensures Compensated(Example(m), Rank, "thigh", t) == Ok(At(-SpineAt(t)))
  {
    hide Sound, WorldAt, RunThigh, RelativeTransform, LoopPhase;
    ActionSpine(m, t);
    RunStands(m, LoopPhase(t, 1.0));
    UprightRelative(m, SpineAt(t), 0.0);
    assert 0.0 - SpineAt(t) == -SpineAt(t);
  }

  const POSITIONS: seq<Key> := [Standing(0.0, 0.0), Standing(0.5, -4.0), Standing(0.49995, -4.0), Standing(1.0, -4.0)]

  const ROTATIONS: seq<Key> := [Turning(0.0), Turning(0.5), Turning(0.49995), Turning(1.0)]

  /** One compensated key after another. */
  lemma {:induction false} CompensatedKeysAre(m: Maths, times: seq<Key>, rotation: bool)
    requires Sound(m) && forall i :: 0 <= i < |times| ==> times[i][0] == 0.0 || times[i][0] > 0.25
    ensures Sane(Example(m), Rank)
    ensures var r := CompensatedKeys(Example(m), Rank, "thigh", times, rotation);
            && r.Ok? && |r.value| == |times|
            && forall i :: 0 <= i < |times| ==> r.value[i] == KeyOf(times[i][0], At(-SpineAt(times[i][0])), rotation)
    decreases |times|
  {
    hide Sound, Compensated, KeyOf;
    CompensatedIs(m, 0.0);
    if times != [] {
      CompensatedIs(m, times[0][0]);
      CompensatedKeysAre(m, times[1..], rotation);
    }
  }

  const COMPOSED_THIGH := Track("thigh", [], POSITIONS, ROTATIONS)

  lemma {:induction false} KeyIs(t: real, x: real)
    ensures KeyOf(t, At(x), false) == Standing(t, x) && KeyOf(t, At(x), true) == Turning(t)
  {
    assert [t] + QuadValues(UPRIGHT) == Turning(t);
  }

  /** The run's keys looped and compensated, channel by channel. */
  lemma {:induction false} ChannelIs(m: Maths, rotation: bool)
    requires Sound(m)
    ensures Sane(Example(m), Rank)
    ensures var times := Looped(Example(m), RUN_THIGH, rotation);
            && times.Ok?
            && CompensatedKeys(Example(m), Rank, "thigh", times.value, rotation)
            == Ok(if rotation then ROTATIONS else POSITIONS)
  {
    hide Sound, LoopedRecords, CompensatedKeys, Sane, KeyOf;
    var keys := if rotation then RUN_ROTATIONS else RUN_POSITIONS;
    SwappedKeysStaySwapped(m, keys, rotation, Xyzw);
    var times := SwappedLoop(keys);
    assert times[0][0] == 0.0 && times[1][0] == 0.5 && times[2][0] == 0.49995 && times[3][0] == 1.0;
    CompensatedKeysAre(m, times, rotation);
    KeyIs(0.0, -0.0);
    KeyIs(0.5, -4.0);
    KeyIs(0.49995, -4.0);
    KeyIs(1.0, -4.0);
    var result := if rotation then ROTATIONS else POSITIONS;
    assert CompensatedKeys(Example(m), Rank, "thigh", times, rotation).value == result;
  }

  lemma {:induction false} ThighIs(m: Maths)
    requires Sound(m)
    ensures Sane(Example(m), Rank) && ThighTrack(Example(m), Rank, "thigh") == Ok(COMPOSED_THIGH)
  {
    hide Sound, Looped, CompensatedKeys, Lookup, Sane;
    Lookups();
    ChannelIs(m, false);
    ChannelIs(m, true);
  }

  function Composed(m: Maths): Clip {
    Clip(1.0, [SPINE, COMPOSED_THIGH], 1)
  }

  lemma {:induction false} OnlyThighIsLower(m: Maths, name: string)
    requires Acyclic(PARENTS, Rank)
    ensures Lower(Example(m), Rank, name) <==> name == "thigh"
  {
    SkeletonRanks();
    assert (set thigh | thigh in Example(m).thighs) == {"thigh"};
    assert !Compose.Below(PARENTS, Rank, "spine", {"thigh"});
  }

  lemma {:induction false} ComposedIsComposition(m: Maths)
    requires Sound(m)
    ensures Sane(Example(m), Rank) && Composable(Example(m), Rank) && IsComposition(Example(m), Rank, Composed(m))
  {
    hide Sound, ThighTrack, DescendantTrack, Lower, Acyclic;
    SkeletonRanks();
    ThighIs(m);
    forall name | Lower(Example(m), Rank, name)
      ensures Replacement(Example(m), Rank, name).Ok?
    {
      OnlyThighIsLower(m, name);
    }
    OnlyThighIsLower(m, "spine");
    assert IsReplaced(Example(m), Rank, SPINE, SPINE);
    assert IsReplaced(Example(m), Rank, THIGH, COMPOSED_THIGH);
  }

  /**
   * The run's thigh has keys out of order by less than the inspector's tolerance. At the time of the last one the
   * composed thigh's sample is not its key, and the thigh is not where the run has it: that no earlier key lies at or
   * past the time is needed.
   */
  lemma {:induction false} SwappedThighStrays(m: Maths)
    requires Sound(m)
    ensures Sane(Example(m), Rank) && Composable(Example(m), Rank) && IsComposition(Example(m), Rank, Composed(m))
    ensures Lookup(Composed(m).tracks, "thigh") == Some(COMPOSED_THIGH)
    ensures POSITIONS[2][0] == ROTATIONS[2][0] && !First(POSITIONS, 2)
    ensures var t := POSITIONS[2][0];
            var composed := WorldAt(m, Composed(m), "thigh", PARENTS, Rank, t, Xyzw);
            var run := WorldAt(m, Example(m).run, "thigh", PARENTS, Rank, LoopPhase(t, 1.0), Xyzw);
            && Sample(m, POSITIONS, t, false, Xyzw) != Ok(Some(POSITIONS[2][1..]))
            && composed.Ok? && run.Ok? && composed.value.position != run.value.position
  {
    hide Sound, WorldAt, LoopPhase, Lookup, SampleTransform, Composable, IsComposition;
    ComposedIsComposition(m);
    assert [SPINE, COMPOSED_THIGH][1..] == [COMPOSED_THIGH] && [COMPOSED_THIGH][1..] == [];
    ComposedLookups();
    var t := 0.49995;
    RunStands(m, LoopPhase(t, 1.0));
    SpineStands(m, t);
    RootStands(m, Composed(m), t, 4.0);
    StraySample(m);
    UprightScan(m, ROTATIONS, t);
    TransformOf(m, COMPOSED_THIGH, t, -3.9996);
    ThighStands(m, Composed(m), t, 4.0, -3.9996);
    assert POSITIONS[1][0] >= POSITIONS[2][0];
  }

  lemma {:induction false} ComposedLookups()
    ensures Lookup([SPINE, COMPOSED_THIGH], "spine") == Some(SPINE)
    ensures Lookup([SPINE, COMPOSED_THIGH], "thigh") == Some(COMPOSED_THIGH)
  {
    assert [SPINE, COMPOSED_THIGH][1..] == [COMPOSED_THIGH] && [COMPOSED_THIGH][1..] == [];
  }

  lemma {:induction false} StraySample(m: Maths)
    ensures Sample(m, POSITIONS, 0.49995, false, Xyzw) == Ok(Some([-3.9996, 0.0, 0.0]))
  {
    hide Lerp;
    var a, b, u := POSITIONS[0][1..], POSITIONS[1][1..], 0.9999;
    assert a == [0.0, 0.0, 0.0] && b == [-4.0, 0.0, 0.0];
    assert (0.49995 - POSITIONS[0][0]) / (POSITIONS[1][0] - POSITIONS[0][0]) == u;
    StrayLerp();
  }

  lemma {:induction false} StrayLerp()
    ensures Lerp([0.0, 0.0, 0.0], [-4.0, 0.0, 0.0], 0.9999) == Ok([-3.9996, 0.0, 0.0])
  {
    var r := Lerp([0.0, 0.0, 0.0], [-4.0, 0.0, 0.0], 0.9999).value;
    assert Clamp(0.9999) == 0.9999;
    assert r[0] == 0.0 + (-4.0 - 0.0) * Clamp(0.9999);
    assert r[1] == 0.0 + (0.0 - 0.0) * Clamp(0.9999) && r[2] == 0.0 + (0.0 - 0.0) * Clamp(0.9999);
    assert r == [-3.9996, 0.0, 0.0];
  }
}
