/** The looping key generator (tools/compose_infantry_animation.py:333-378), over exact reals. */
module Loop {
  import opened Outcome
  import opened Rigid
  import opened Channels

  const EPSILON := 0.000001

  /** One cycle of the source, `shift` later, without what lies past the limit. */
  function Cycle(keys: seq<Key>, shift: real, limit: real): seq<Key> {
    if keys == [] then []
    else if shift + keys[0][0] > limit then Cycle(keys[1..], shift, limit)
    else [Moved(keys[0], shift)] + Cycle(keys[1..], shift, limit)
  }

  function Moved(key: Key, shift: real): Key {
    [shift + key[0]] + key[1..]
  }

  function Shift(cycle: int, loop: real): real {
    cycle as real * loop
  }

  /** The cycles numbered `from` to `to`. */
  function Cycles(keys: seq<Key>, loop: real, limit: real, from: int, until: int): seq<Key>
    decreases until - from
  {
    if from >= until then [] else Cycle(keys, Shift(from, loop), limit) + Cycles(keys, loop, limit, from + 1, until)
  }

  function Absolute(x: real): real {
    if x < 0.0 then -x else x
  }

  /** One more key: of two near each other in time the later one stays. */
  function Absorb(done: seq<Key>, key: Key): seq<Key> {
    if done != [] && Absolute(key[0] - done[|done| - 1][0]) <= EPSILON then done[..|done| - 1] + [key] else done + [key]
  }

  /** Keys collapsed onto `done`. */
  function Collapse(done: seq<Key>, keys: seq<Key>): seq<Key>
    decreases |keys|
  {
    if keys == [] then done else Collapse(Absorb(done, keys[0]), keys[1..])
  }

  function Quotient(time: real, loop: real): real
    requires loop > 0.0
  {
    time / loop
  }

  function CycleCount(loop: real, output: real): int
    requires loop > 0.0
  {
    Quotient(output, loop).Floor + 1
  }

  /** The whole loops that have passed at a time. */
  function Passed(time: real, loop: real): real
    requires loop > 0.0
  {
    Quotient(time, loop).Floor as real * loop
  }

  function FinalPhase(loop: real, output: real): real
    requires loop > 0.0
  {
    var phase := output - Passed(output, loop);
    if phase <= EPSILON && output > 0.0 then loop else phase
  }

  /** The repeated keys, closed by a sample at the output's end where they stop short of it. */
  function Repeated(m: Maths, keys: seq<Key>, loop: real, output: real, rotation: bool, order: Order): Result<seq<Key>>
    requires loop > 0.0
  {
    var result := Cycles(keys, loop, output + EPSILON, 0, CycleCount(loop, output));
    if result == [] then Err(NoLoopKeys)
    else if result[|result| - 1][0] < output - EPSILON then
      var value :- ChannelSample(m, keys, FinalPhase(loop, output), rotation, order);
      Ok(result + [[output] + value])
    else Ok(result)
  }

  function LoopedRecords(m: Maths, keys: seq<Key>, loop: real, output: real, rotation: bool,
                         order: Order): Result<seq<Key>> {
    if keys == [] || loop <= 0.0 then Err(BadLoopSource)
    else
      var result :- Repeated(m, keys, loop, output, rotation, order);
      Ok(Collapse([], result))
  }

  function LoopPhase(time: real, loop: real): real
    requires loop > 0.0
  {
    var phase := time - Passed(time, loop);
    if phase <= EPSILON then 0.0 else phase
  }

  /** The inner loop: one cycle appended. */
  method AppendCycle(start: seq<Key>, keys: seq<Key>, shift: real, limit: real) returns (result: seq<Key>)
    ensures result == start + Cycle(keys, shift, limit)
  {
    result := start;
    assert keys[0..] == keys;
    for i := 0 to |keys|
      invariant result + Cycle(keys[i..], shift, limit) == start + Cycle(keys, shift, limit)
    {
      assert keys[i..][0] == keys[i] && keys[i..][1..] == keys[i + 1..];
      var time := shift + keys[i][0];
      if time > limit {
        continue;
      }
      assert result + ([Moved(keys[i], shift)] + Cycle(keys[i + 1..], shift, limit))
          == result + [Moved(keys[i], shift)] + Cycle(keys[i + 1..], shift, limit);
      result := result + [[time] + keys[i][1..]];
    }
    assert Cycle(keys[|keys|..], shift, limit) == [];
  }

  /** The last loop: near duplicates collapsed. */
  method CollapseKeys(keys: seq<Key>) returns (collapsed: seq<Key>)
    ensures collapsed == Collapse([], keys)
  {
    hide Absolute, Collapse;
    collapsed := [];
    assert keys[0..] == keys;
    for i := 0 to |keys|
      invariant Collapse(collapsed, keys[i..]) == Collapse([], keys)
    {
      CollapseStep(collapsed, keys, i);
      var key := keys[i];
      if collapsed != [] && Absolute(key[0] - collapsed[|collapsed| - 1][0]) <= EPSILON {
        collapsed := collapsed[..|collapsed| - 1] + [key];
      } else {
        collapsed := collapsed + [key];
      }
    }
    CollapseStep(collapsed, keys, |keys|);
  }

  lemma {:induction false} CollapseStep(done: seq<Key>, keys: seq<Key>, i: nat)
    requires i <= |keys|
    ensures i < |keys| ==> Collapse(done, keys[i..]) == Collapse(Absorb(done, keys[i]), keys[i + 1..])
    ensures i == |keys| ==> Collapse(done, keys[i..]) == done
  {
    hide Absorb;
    if i < |keys| {
      assert keys[i..][0] == keys[i] && keys[i..][1..] == keys[i + 1..];
    }
  }

  /** `_looped_records`. */
  method LoopRecords(m: Maths, keys: seq<Key>, loop: real, output: real, rotation: bool, order: Order)
    returns (r: Result<seq<Key>>)
    ensures r == LoopedRecords(m, keys, loop, output, rotation, order)
  {
    hide ChannelSample, FinalPhase, Collapse, Cycle;
    if keys == [] || loop <= 0.0 {
      return Err(BadLoopSource);
    }
    var result: seq<Key> := [];
    var limit := output + EPSILON;
    var count := CycleCount(loop, output);
    var cycle := 0;
    while cycle < count
      invariant result + Cycles(keys, loop, limit, cycle, count) == Cycles(keys, loop, limit, 0, count)
    {
      var shift := Shift(cycle, loop);
      ghost var before, rest := result, Cycles(keys, loop, limit, cycle + 1, count);
      result := AppendCycle(result, keys, shift, limit);
      assert before + (Cycle(keys, shift, limit) + rest) == result + rest;
      cycle := cycle + 1;
    }
    assert result + Cycles(keys, loop, limit, cycle, count) == result;
    if result == [] {
      return Err(NoLoopKeys);
    }
    if result[|result| - 1][0] < output - EPSILON {
      var value := ChannelSample(m, keys, FinalPhase(loop, output), rotation, order);
      if value.Err? {
        return Err(value.error);
      }
      result := result + [[output] + value.value];
    }
    var collapsed := CollapseKeys(result);
    return Ok(collapsed);
  }

  // ----- the emitted timeline

  /** Source keys in time order, over at most one loop. */
  predicate Timeline(keys: seq<Key>, loop: real) {
    forall i, j :: 0 <= i < j < |keys| ==> keys[i][0] <= keys[j][0] <= keys[0][0] + loop
  }

  /** Times in order, from `low` to `high`. */
  predicate Ordered(keys: seq<Key>, low: real, high: real) {
    && (forall i, j :: 0 <= i < j < |keys| ==> keys[i][0] <= keys[j][0])
    && (forall i :: 0 <= i < |keys| ==> low <= keys[i][0] <= high)
  }

  predicate NoLater(keys: seq<Key>, time: real) {
    forall i :: 0 <= i < |keys| ==> keys[i][0] <= time
  }

  lemma {:induction false} OrderedJoin(a: seq<Key>, b: seq<Key>, low: real, mid: real, high: real)
    requires Ordered(a, low, mid) && Ordered(b, mid, high) && low <= mid <= high
    ensures Ordered(a + b, low, high)
  {
  }

  lemma {:induction false} CycleIsOrdered(keys: seq<Key>, shift: real, limit: real, low: real, high: real)
    requires Ordered(keys, low, high)
    ensures Ordered(Cycle(keys, shift, limit), shift + low, shift + high)
    decreases |keys|
  {
    if keys != [] {
      CycleIsOrdered(keys[1..], shift, limit, keys[0][0], high);
      var rest := Cycle(keys[1..], shift, limit);
      assert Ordered(rest, shift + low, shift + high);
      if shift + keys[0][0] <= limit {
        OrderedJoin([Moved(keys[0], shift)], rest, shift + low, shift + keys[0][0], shift + high);
      }
    }
  }

  lemma {:induction false} CyclesAreOrdered(keys: seq<Key>, loop: real, limit: real, from: int, until: int)
    requires keys != [] && Timeline(keys, loop) && loop > 0.0 && from <= until
    ensures Ordered(Cycles(keys, loop, limit, from, until),
                    Shift(from, loop) + keys[0][0], Shift(until, loop) + keys[0][0])
    decreases until - from
  {
    hide Cycle, Shift, Ordered, Timeline;
    var first := keys[0][0];
    ShiftGrows(from, until, loop);
    if from < until {
      ShiftGrows(from + 1, until, loop);
      TimelineIsOrdered(keys, loop);
      CycleIsOrdered(keys, Shift(from, loop), limit, first, first + loop);
      CyclesAreOrdered(keys, loop, limit, from + 1, until);
      OrderedJoin(Cycle(keys, Shift(from, loop), limit), Cycles(keys, loop, limit, from + 1, until),
                  Shift(from, loop) + first, Shift(from + 1, loop) + first, Shift(until, loop) + first);
    } else {
      NothingIsOrdered(Shift(from, loop) + first, Shift(until, loop) + first);
    }
  }

  lemma {:induction false} TimelineIsOrdered(keys: seq<Key>, loop: real)
    requires keys != [] && Timeline(keys, loop) && loop > 0.0
    ensures Ordered(keys, keys[0][0], keys[0][0] + loop)
  {
  }

  lemma {:induction false} NothingIsOrdered(low: real, high: real)
    ensures Ordered([], low, high)
  {
  }

  lemma {:induction false} CycleNoLater(keys: seq<Key>, shift: real, limit: real)
    ensures NoLater(Cycle(keys, shift, limit), limit)
    decreases |keys|
  {
    if keys != [] {
      CycleNoLater(keys[1..], shift, limit);
    }
  }

  lemma {:induction false} CyclesNoLater(keys: seq<Key>, loop: real, limit: real, from: int, until: int)
    ensures NoLater(Cycles(keys, loop, limit, from, until), limit)
    decreases until - from
  {
    hide Cycle, Shift, NoLater;
    if from < until {
      CycleNoLater(keys, Shift(from, loop), limit);
      CyclesNoLater(keys, loop, limit, from + 1, until);
      NoLaterJoin(Cycle(keys, Shift(from, loop), limit), Cycles(keys, loop, limit, from + 1, until), limit);
    } else {
      NothingIsLater(limit);
    }
  }

  lemma {:induction false} NothingIsLater(limit: real)
    ensures NoLater([], limit)
  {
  }

  lemma {:induction false} NoLaterJoin(a: seq<Key>, b: seq<Key>, limit: real)
    requires NoLater(a, limit) && NoLater(b, limit)
    ensures NoLater(a + b, limit)
  {
  }

  lemma {:induction false} ShiftGrows(from: int, until: int, loop: real)
    requires from <= until && loop > 0.0
    ensures Shift(from + 1, loop) == Shift(from, loop) + loop
    ensures Shift(from, loop) <= Shift(until, loop)
  {
    assert (until - from) as real * loop >= 0.0;
    assert (until - from) as real * loop == until as real * loop - from as real * loop;
  }

  /** Every key more than a microsecond behind the one before. */
  predicate Spaced(keys: seq<Key>) {
    forall i, j :: 0 <= i < j < |keys| ==> keys[i][0] + 0.000001 < keys[j][0]
  }

  lemma {:induction false} CollapseIsSpaced(done: seq<Key>, keys: seq<Key>, low: real, high: real)
    requires Spaced(done) && Ordered(keys, low, high)
    requires done != [] ==> NoLater(done, low)
    ensures Spaced(Collapse(done, keys))
    decreases |keys|
  {
    hide Absorb, Spaced, Ordered, NoLater;
    if keys != [] {
      OrderedTail(keys, low, high);
      AbsorbIsSpaced(done, keys[0], low);
      CollapseIsSpaced(Absorb(done, keys[0]), keys[1..], keys[0][0], high);
    }
  }

  lemma {:induction false} OrderedTail(keys: seq<Key>, low: real, high: real)
    requires keys != [] && Ordered(keys, low, high)
    ensures low <= keys[0][0] && Ordered(keys[1..], keys[0][0], high)
  {
  }

  lemma {:induction false} AbsorbIsSpaced(done: seq<Key>, key: Key, low: real)
    requires Spaced(done) && low <= key[0] && (done != [] ==> NoLater(done, low))
    ensures var next := Absorb(done, key);
            next != [] && Spaced(next) && NoLater(next, key[0])
  {
  }

  /** Of the last keys near each other the last one stays. */
  lemma {:induction false} CollapseEnds(done: seq<Key>, keys: seq<Key>)
    requires keys != []
    ensures var r := Collapse(done, keys); r != [] && r[|r| - 1] == keys[|keys| - 1]
    decreases |keys|
  {
    hide Absolute;
    if |keys| > 1 {
      CollapseEnds(Absorb(done, keys[0]), keys[1..]);
    }
  }

  // ----- which of the gathered keys stay

  /** The key is more than a microsecond away from the one gathered after it, or is the last. */
  predicate Stays(keys: seq<Key>, i: nat)
    requires i < |keys|
  {
    i == |keys| - 1 || !(-0.000001 <= keys[i + 1][0] - keys[i][0] <= 0.000001)
  }

  function Kept(keys: seq<Key>): seq<Key> {
    if keys == [] then [] else (if Stays(keys, 0) then [keys[0]] else []) + Kept(keys[1..])
  }

  /** Of the keys that stay, each is more than a microsecond behind those before. */
  predicate StayInOrder(keys: seq<Key>) {
    forall i, j :: 0 <= i < j < |keys| && Stays(keys, i) && Stays(keys, j) ==> keys[i][0] + EPSILON < keys[j][0]
  }

  lemma {:induction false} StaysLater(keys: seq<Key>, i: nat)
    requires keys != [] && i < |keys[1..]|
    ensures Stays(keys[1..], i) <==> Stays(keys, i + 1)
  {
  }

  lemma {:induction false} KeptCons(last: Key, keys: seq<Key>)
    requires keys != []
    ensures Kept([last] + keys) == (if Absolute(keys[0][0] - last[0]) > EPSILON then [last] else []) + Kept(keys)
  {
    var all := [last] + keys;
    assert all[1..] == keys && all[1] == keys[0];
  }

  lemma {:induction false} AbsorbLast(done: seq<Key>, last: Key, key: Key)
    ensures Absorb(done + [last], key)
         == if Absolute(key[0] - last[0]) > EPSILON then done + [last] + [key] else done + [key]
  {
    assert (done + [last])[..|done|] == done;
  }

  /** Collapsing keeps exactly the keys that stay: each is compared with the one gathered before it. */
  lemma {:induction false} CollapseKeepsStaying(done: seq<Key>, last: Key, keys: seq<Key>)
    ensures Collapse(done + [last], keys) == done + Kept([last] + keys)
    decreases |keys|
  {
    hide Absolute, Kept, Absorb;
    if keys == [] {
      KeptOne(last);
      assert [last] + keys == [last];
    } else {
      var rest := Kept(keys);
      assert [keys[0]] + keys[1..] == keys;
      KeptCons(last, keys);
      AbsorbLast(done, last, keys[0]);
      if Absolute(keys[0][0] - last[0]) > EPSILON {
        CollapseKeepsStaying(done + [last], keys[0], keys[1..]);
        assert done + [last] + rest == done + ([last] + rest);
      } else {
        CollapseKeepsStaying(done, keys[0], keys[1..]);
        assert [] + rest == rest;
      }
    }
  }

  lemma {:induction false} KeptOne(key: Key)
    ensures Kept([key]) == [key]
  {
    assert Kept([key]) == [key] + Kept([key][1..]);
  }

  lemma {:induction false} InKept(keys: seq<Key>, key: Key)
    ensures key in Kept(keys) <==> exists i :: 0 <= i < |keys| && Stays(keys, i) && keys[i] == key
    decreases |keys|
  {
    hide Stays;
    if keys != [] {
      InKept(keys[1..], key);
      if i :| 0 <= i < |keys| && Stays(keys, i) && keys[i] == key {
        if i > 0 {
          StaysLater(keys, i - 1);
          assert keys[1..][i - 1] == key;
        }
      }
      if i :| 0 <= i < |keys[1..]| && Stays(keys[1..], i) && keys[1..][i] == key {
        StaysLater(keys, i);
        assert keys[i + 1] == key;
      }
    }
  }

  /** What stays is spaced exactly when those keys are in order where they were gathered. */
  lemma {:induction false} KeptSpaced(keys: seq<Key>)
    ensures Spaced(Kept(keys)) <==> StayInOrder(keys)
    decreases |keys|
  {
    hide Stays;
    if keys != [] {
      var rest := Kept(keys[1..]);
      KeptSpaced(keys[1..]);
      StayInOrderCons(keys);
      if Stays(keys, 0) {
        SpacedCons(keys[0], rest);
        forall j | 0 < j < |keys| && Stays(keys, j) ensures keys[j] in rest {
          StaysLater(keys, j - 1);
          InKept(keys[1..], keys[j]);
          assert keys[1..][j - 1] == keys[j];
        }
        forall key | key in rest ensures exists j :: 0 < j < |keys| && Stays(keys, j) && keys[j] == key {
          InKept(keys[1..], key);
          var i :| 0 <= i < |keys[1..]| && Stays(keys[1..], i) && keys[1..][i] == key;
          StaysLater(keys, i);
          assert keys[i + 1] == key;
        }
      } else {
        assert [] + rest == rest;
      }
    }
  }

  lemma {:induction false} SpacedCons(key: Key, rest: seq<Key>)
    ensures Spaced([key] + rest) <==> Spaced(rest) && forall k :: k in rest ==> key[0] + EPSILON < k[0]
  {
    var all := [key] + rest;
    if Spaced(all) {
      forall k | k in rest ensures key[0] + EPSILON < k[0] {
        var i :| 0 <= i < |rest| && rest[i] == k;
        assert all[0][0] + EPSILON < all[i + 1][0];
      }
      forall i, j | 0 <= i < j < |rest| ensures rest[i][0] + EPSILON < rest[j][0] {
        assert all[i + 1] == rest[i] && all[j + 1] == rest[j];
      }
    }
  }

  lemma {:induction false} StayInOrderCons(keys: seq<Key>)
    requires keys != []
    ensures StayInOrder(keys)
       <==> StayInOrder(keys[1..])
            && (Stays(keys, 0) ==> forall j :: 0 < j < |keys| && Stays(keys, j) ==> keys[0][0] + EPSILON < keys[j][0])
  {
    hide Stays;
    forall i: nat | i < |keys[1..]| ensures Stays(keys[1..], i) <==> Stays(keys, i + 1) {
      StaysLater(keys, i);
    }
    if StayInOrder(keys) {
      forall i, j | 0 <= i < j < |keys[1..]| && Stays(keys[1..], i) && Stays(keys[1..], j)
        ensures keys[1..][i][0] + EPSILON < keys[1..][j][0]
      {
        assert Stays(keys, i + 1) && Stays(keys, j + 1);
      }
    }
    if StayInOrder(keys[1..]) {
      forall i, j | 0 < i < j < |keys| && Stays(keys, i) && Stays(keys, j)
        ensures keys[i][0] + EPSILON < keys[j][0]
      {
        assert Stays(keys[1..], i - 1) && Stays(keys[1..], j - 1);
        assert keys[1..][i - 1] == keys[i] && keys[1..][j - 1] == keys[j];
      }
    }
  }

  /** The emitted keys are exactly the gathered ones that stay. */
  lemma {:induction false} CollapsedIsKept(keys: seq<Key>)
    ensures Collapse([], keys) == Kept(keys)
  {
    if keys != [] {
      CollapseKeepsStaying([], keys[0], keys[1..]);
      assert keys == [keys[0]] + keys[1..];
      assert [] + [keys[0]] == [keys[0]];
      assert Collapse([], keys) == Collapse([keys[0]], keys[1..]);
      assert [] + Kept(keys) == Kept(keys);
    }
  }

  /**
   * Looping that succeeds gives times none more than a microsecond past the output's end, and the last within a
   * microsecond of it. They are in order, more than a microsecond apart, exactly when the gathered keys that stay are,
   * and so from every timeline of at most one loop.
   */
  lemma {:induction false} LoopedTimeline(m: Maths, keys: seq<Key>, loop: real, output: real, rotation: bool,
                                          order: Order)
    requires LoopedRecords(m, keys, loop, output, rotation, order).Ok?
    ensures var r := LoopedRecords(m, keys, loop, output, rotation, order).value;
            && r != []
            && NoLater(r, output + 0.000001)
            && -0.000001 <= r[|r| - 1][0] - output <= 0.000001
            && (Spaced(r) <==> StayInOrder(Repeated(m, keys, loop, output, rotation, order).value))
            && (Timeline(keys, loop) ==> Spaced(r))
  {
    hide ChannelSample, FinalPhase, Cycles, Collapse, Timeline, Spaced, Ordered, StayInOrder;
    var limit := output + EPSILON;
    var cycles := Cycles(keys, loop, limit, 0, CycleCount(loop, output));
    CyclesNoLater(keys, loop, limit, 0, CycleCount(loop, output));
    var result := Repeated(m, keys, loop, output, rotation, order).value;
    CollapseEnds([], result);
    CollapsedIsKept(result);
    KeptSpaced(result);
    forall k | k in Collapse([], result) ensures k[0] <= limit {
      CollapseKeeps([], result, k);
    }
    if Timeline(keys, loop) {
      RepeatedIsOrdered(m, keys, loop, output, rotation, order);
      CollapseOrdered(result, cycles[0][0], limit);
    }
  }

  lemma {:induction false} CollapseOrdered(keys: seq<Key>, low: real, high: real)
    requires Ordered(keys, low, high)
    ensures Spaced(Collapse([], keys))
  {
    CollapseIsSpaced([], keys, low, high);
  }

  lemma {:induction false} RepeatedIsOrdered(m: Maths, keys: seq<Key>, loop: real, output: real, rotation: bool,
                                             order: Order)
    requires keys != [] && Timeline(keys, loop) && loop > 0.0 && Repeated(m, keys, loop, output, rotation, order).Ok?
    ensures var cycles := Cycles(keys, loop, output + EPSILON, 0, CycleCount(loop, output));
            && cycles != []
            && Ordered(Repeated(m, keys, loop, output, rotation, order).value, cycles[0][0], output + EPSILON)
  {
    hide ChannelSample, FinalPhase, Cycles, Timeline;
    var count := CycleCount(loop, output);
    var limit := output + EPSILON;
    CyclesNoLater(keys, loop, limit, 0, count);
    if count < 0 {
      NoCycles(keys, loop, limit, count);
    } else {
      CyclesAreOrdered(keys, loop, limit, 0, count);
    }
  }

  /** Three keys, the last two out of order by less than the tolerance of the inspector. */
  predicate IsSwapped(keys: seq<Key>) {
    |keys| == 3 && keys[0][0] == 0.0 && keys[1][0] == 0.5 && keys[2][0] == 0.49995
  }

  function SwappedLoop(keys: seq<Key>): seq<Key>
    requires IsSwapped(keys)
  {
    keys + [Moved(keys[0], 1.0)]
  }

  lemma {:induction false} SwappedCycles(keys: seq<Key>)
    requires IsSwapped(keys)
    ensures Cycles(keys, 1.0, 1.0 + EPSILON, 0, 2) == SwappedLoop(keys)
  {
    var limit, last := 1.0 + EPSILON, Moved(keys[0], 1.0);
    forall i | 0 <= i < 3 ensures Moved(keys[i], 0.0) == keys[i] {
      assert [keys[i][0]] + keys[i][1..] == keys[i];
    }
    assert Cycle(keys[2..], 0.0, limit) == [keys[2]];
    assert Cycle(keys[1..], 0.0, limit) == [keys[1], keys[2]];
    assert Cycle(keys, 0.0, limit) == keys;
    assert Cycle(keys[2..], 1.0, limit) == [];
    assert Cycle(keys[1..], 1.0, limit) == [];
    assert Cycle(keys, 1.0, limit) == [last];
    assert Shift(0, 1.0) == 0.0 && Shift(1, 1.0) == 1.0;
    assert Cycles(keys, 1.0, limit, 1, 2) == [last];
  }

  /** Such keys stay out of order when they are looped: the condition is needed. */
  lemma {:induction false} SwappedKeysStaySwapped(m: Maths, keys: seq<Key>, rotation: bool, order: Order)
    requires IsSwapped(keys)
    ensures LoopedRecords(m, keys, 1.0, 1.0, rotation, order) == Ok(SwappedLoop(keys))
    ensures !Spaced(SwappedLoop(keys))
  {
    hide ChannelSample, FinalPhase, Cycles;
    SwappedCycles(keys);
    var all, last := SwappedLoop(keys), Moved(keys[0], 1.0);
    assert Quotient(1.0, 1.0) == 1.0;
    assert Repeated(m, keys, 1.0, 1.0, rotation, order) == Ok(all);
    CollapsedIsKept(all);
    assert Kept(all[3..]) == [last] + Kept(all[4..]) == [last];
    assert Kept(all[2..]) == [keys[2]] + Kept(all[3..]) == [keys[2], last];
    assert Kept(all[1..]) == [keys[1]] + Kept(all[2..]) == [keys[1], keys[2], last];
    assert Kept(all) == [keys[0]] + Kept(all[1..]) == all;
    assert all[2][0] < all[1][0];
  }

  lemma {:induction false} NoCycles(keys: seq<Key>, loop: real, limit: real, count: int)
    requires count <= 0
    ensures Cycles(keys, loop, limit, 0, count) == []
  {
  }

  lemma {:induction false} CollapseKeeps(done: seq<Key>, keys: seq<Key>, key: Key)
    requires key in Collapse(done, keys)
    ensures key in done || key in keys
    decreases |keys|
  {
    hide Absolute;
    if keys != [] {
      CollapseKeeps(Absorb(done, keys[0]), keys[1..], key);
    }
  }

  // ----- the phase

  predicate IsPhase(phase: real, whole: int, loop: real, time: real) {
    var rest := time - whole as real * loop;
    0.0 <= rest < loop && phase == if rest <= 0.000001 then 0.0 else rest
  }

  /** The phase lies in the loop: it is the time less whole loops, dropped to zero where that is at most a microsecond.
      */
  lemma {:induction false} PhaseInLoop(time: real, loop: real, phase: real)
    requires loop > 0.0
    ensures 0.0 <= LoopPhase(time, loop) < loop
    ensures phase == LoopPhase(time, loop) <==> exists whole: int :: IsPhase(phase, whole, loop, time)
  {
    var q := Quotient(time, loop);
    Remainder(q.Floor as real, q, loop, time, Passed(time, loop));
    assert IsPhase(LoopPhase(time, loop), q.Floor, loop, time);
    if whole: int :| IsPhase(phase, whole, loop, time) {
      OneFloor(whole, q.Floor, loop, time);
    }
  }

  lemma {:induction false} Remainder(n: real, q: real, loop: real, time: real, passed: real)
    requires n <= q < n + 1.0 && q * loop == time && passed == n * loop && loop > 0.0
    ensures 0.0 <= time - passed < loop
  {
    var d := q - n;
    Below(d, loop);
    var e := d * loop;
    assert e == q * loop - n * loop;
  }

  lemma {:induction false} Below(d: real, b: real)
    requires b > 0.0 && 0.0 <= d < 1.0
    ensures 0.0 <= d * b < b
  {
    assert (1.0 - d) * b > 0.0;
    assert (1.0 - d) * b == b - d * b;
  }

  // ----- what looping answers, exactly

  /** One key of one repetition of the source. */
  datatype Place = Place(cycle: nat, index: nat)

  predicate Earlier(a: Place, b: Place) {
    a.cycle < b.cycle || (a.cycle == b.cycle && a.index < b.index)
  }

  /** The repetition starts by the output's end, and the key is at most a microsecond past it. */
  predicate Reaches(p: Place, keys: seq<Key>, loop: real, output: real) {
    && p.index < |keys| && p.cycle as real * loop <= output
    && p.cycle as real * loop + keys[p.index][0] <= output + 0.000001
  }

  /** The key at a place, moved to its repetition. */
  predicate StandsAt(key: Key, p: Place, keys: seq<Key>, loop: real) {
    && p.index < |keys| && |key| == |keys[p.index]|
    && key[0] == p.cycle as real * loop + keys[p.index][0]
    && forall c :: 1 <= c < |key| ==> key[c] == keys[p.index][c]
  }

  ghost predicate InSequence(places: seq<Place>) {
    forall i, j :: 0 <= i < j < |places| ==> Earlier(places[i], places[j])
  }

  /** `moved` are the keys of all repetitions that reach into the output, repetition after repetition. */
  ghost predicate Gathers(moved: seq<Key>, places: seq<Place>, keys: seq<Key>, loop: real, output: real) {
    && |moved| == |places| && InSequence(places)
    && (forall p :: p in places <==> Reaches(p, keys, loop, output))
    && (forall i :: 0 <= i < |places| ==> StandsAt(moved[i], places[i], keys, loop))
  }

  /** What the whole loops leave of the output; a whole loop where that is at most a microsecond. */
  ghost predicate IsEndPhase(phase: real, loop: real, output: real) {
    exists whole: int :: IsPhaseAfter(phase, whole, loop, output)
  }

  predicate IsPhaseAfter(phase: real, whole: int, loop: real, output: real) {
    var rest := output - whole as real * loop;
    0.0 <= rest < loop && phase == if rest <= 0.000001 && output > 0.0 then loop else rest
  }

  /** The source's sample at the phase of the output's end follows the moved keys. */
  ghost predicate ClosedBy(all: seq<Key>, moved: seq<Key>, phase: real, value: seq<real>, m: Maths, keys: seq<Key>,
                           loop: real, output: real, rotation: bool, order: Order)
  {
    && IsEndPhase(phase, loop, output) && ChannelSample(m, keys, phase, rotation, order) == Ok(value)
    && all == moved + [[output] + value]
  }

  /** Where the moved keys stop more than a microsecond short of the output's end, one more is sampled there. */
  ghost predicate Closes(all: seq<Key>, moved: seq<Key>, m: Maths, keys: seq<Key>, loop: real, output: real,
                         rotation: bool, order: Order)
  {
    && moved != []
    && if moved[|moved| - 1][0] < output - 0.000001
       then exists phase, value ::
              ClosedBy(all, moved, phase, value, m, keys, loop, output, rotation, order)
       else all == moved
  }

  ghost predicate LoopsVia(looped: seq<Key>, all: seq<Key>, moved: seq<Key>, places: seq<Place>, m: Maths,
                           keys: seq<Key>, loop: real, output: real, rotation: bool, order: Order)
  {
    Gathers(moved, places, keys, loop, output) && Closes(all, moved, m, keys, loop, output, rotation, order)
    && looped == Kept(all)
  }

  /** `looped` are the gathered keys of the source, closed at the output's end, of which those near the next are
      dropped. */
  ghost predicate LoopsTo(looped: seq<Key>, m: Maths, keys: seq<Key>, loop: real, output: real, rotation: bool,
                          order: Order)
  {
    && keys != [] && loop > 0.0
    && exists all, moved, places :: LoopsVia(looped, all, moved, places, m, keys, loop, output, rotation, order)
  }

  /** The places of one repetition from an index on. */
  function PlacesFrom(keys: seq<Key>, cycle: nat, index: nat, shift: real, limit: real): seq<Place>
    requires index <= |keys|
    decreases |keys| - index
  {
    if index == |keys| then []
    else (if shift + keys[index][0] > limit then [] else [Place(cycle, index)])
         + PlacesFrom(keys, cycle, index + 1, shift, limit)
  }

  lemma {:induction false} PlacesOfCycle(keys: seq<Key>, cycle: nat, index: nat, loop: real, limit: real)
    requires index <= |keys|
    ensures var places, moved := PlacesFrom(keys, cycle, index, Shift(cycle, loop), limit),
        Cycle(keys[index..], Shift(cycle, loop), limit);
      && |moved| == |places| && InSequence(places)
      && (forall p :: p in places <==>
            p.cycle == cycle && index <= p.index < |keys| && cycle as real * loop + keys[p.index][0] <= limit)
      && (forall i :: 0 <= i < |places| ==> StandsAt(moved[i], places[i], keys, loop))
    decreases |keys| - index
  {
    var shift := Shift(cycle, loop);
    if index < |keys| {
      PlacesOfCycle(keys, cycle, index + 1, loop, limit);
      assert keys[index..][0] == keys[index] && keys[index..][1..] == keys[index + 1..];
      var places, moved := PlacesFrom(keys, cycle, index, shift, limit), Cycle(keys[index..], shift, limit);
      var later, more := PlacesFrom(keys, cycle, index + 1, shift, limit), Cycle(keys[index + 1..], shift, limit);
      if shift + keys[index][0] > limit {
        assert places == later && moved == more;
      } else {
        assert places == [Place(cycle, index)] + later && moved == [Moved(keys[index], shift)] + more;
        InSequenceCons(Place(cycle, index), later);
        forall i | 0 <= i < |places|
          ensures StandsAt(moved[i], places[i], keys, loop)
        {
          if i > 0 {
            assert StandsAt(more[i - 1], later[i - 1], keys, loop);
          }
        }
      }
    }
  }

  lemma {:induction false} InSequenceCons(first: Place, places: seq<Place>)
    ensures InSequence([first] + places) <==> InSequence(places) && forall p :: p in places ==> Earlier(first, p)
  {
    var all := [first] + places;
    if InSequence(all) {
      forall i, j | 0 <= i < j < |places|
        ensures Earlier(places[i], places[j])
      {
        assert Earlier(all[i + 1], all[j + 1]);
      }
      forall p | p in places
        ensures Earlier(first, p)
      {
        var i :| 0 <= i < |places| && places[i] == p;
        assert Earlier(all[0], all[i + 1]);
      }
    }
  }

  lemma {:induction false} InSequenceJoin(a: seq<Place>, b: seq<Place>)
    requires InSequence(a) && InSequence(b) && forall p, q :: p in a && q in b ==> Earlier(p, q)
    ensures InSequence(a + b)
  {
  }

  /** The places of the repetitions `from` to `until`. */
  function PlacesOf(keys: seq<Key>, loop: real, limit: real, from: nat, until: int): seq<Place>
    decreases until - from
  {
    if from >= until then []
    else PlacesFrom(keys, from, 0, Shift(from, loop), limit) + PlacesOf(keys, loop, limit, from + 1, until)
  }

  lemma {:induction false} PlacesOfCycles(keys: seq<Key>, loop: real, limit: real, from: nat, until: int)
    ensures var places, moved := PlacesOf(keys, loop, limit, from, until), Cycles(keys, loop, limit, from, until);
      && |moved| == |places| && InSequence(places)
      && (forall p :: p in places <==>
            from <= p.cycle < until && p.index < |keys| && p.cycle as real * loop + keys[p.index][0] <= limit)
      && (forall i :: 0 <= i < |places| ==> StandsAt(moved[i], places[i], keys, loop))
    decreases until - from
  {
    hide PlacesFrom, Cycle, StandsAt, InSequence;
    if from >= until {
      NothingInSequence();
    } else {
      var shift := Shift(from, loop);
      PlacesOfCycle(keys, from, 0, loop, limit);
      PlacesOfCycles(keys, loop, limit, from + 1, until);
      assert keys[0..] == keys;
      var here, later := PlacesFrom(keys, from, 0, shift, limit), PlacesOf(keys, loop, limit, from + 1, until);
      var moved, more := Cycle(keys, shift, limit), Cycles(keys, loop, limit, from + 1, until);
      InSequenceJoin(here, later);
      forall i | 0 <= i < |here + later|
        ensures StandsAt((moved + more)[i], (here + later)[i], keys, loop)
      {
        if i >= |here| {
          assert StandsAt(more[i - |here|], later[i - |here|], keys, loop);
        }
      }
    }
  }

  lemma {:induction false} NothingInSequence()
    ensures InSequence([])
  {
  }

  /** The repetitions are those that start by the output's end. */
  lemma {:induction false} CountReaches(loop: real, output: real, cycle: nat)
    requires loop > 0.0
    ensures cycle < CycleCount(loop, output) <==> cycle as real * loop <= output
  {
    var q := Quotient(output, loop);
    assert q * loop == output;
    assert cycle < CycleCount(loop, output) <==> cycle as real <= q;
    TimesKeepsOrder(cycle as real, q, loop);
  }

  lemma {:induction false} TimesKeepsOrder(a: real, b: real, k: real)
    requires k > 0.0
    ensures a <= b <==> a * k <= b * k
  {
    assert (b - a) * k == b * k - a * k;
    if a <= b {
      assert (b - a) * k >= 0.0;
    } else {
      assert (a - b) * k > 0.0;
      assert (a - b) * k == a * k - b * k;
    }
  }

  lemma {:induction false} CyclesGather(keys: seq<Key>, loop: real, output: real)
    requires loop > 0.0
    ensures Gathers(Cycles(keys, loop, output + EPSILON, 0, CycleCount(loop, output)),
                    PlacesOf(keys, loop, output + EPSILON, 0, CycleCount(loop, output)), keys, loop, output)
  {
    hide Cycles, PlacesOf, CycleCount, StandsAt, InSequence;
    var limit, count := output + EPSILON, CycleCount(loop, output);
    PlacesOfCycles(keys, loop, limit, 0, count);
    forall p
      ensures p in PlacesOf(keys, loop, limit, 0, count) <==> Reaches(p, keys, loop, output)
    {
      CountReaches(loop, output, p.cycle);
    }
  }

  lemma {:induction false} BothEmpty(a: seq<Place>, b: seq<Place>)
    requires forall p :: p in a <==> p in b
    ensures a == [] <==> b == []
  {
    if a != [] {
      assert a[0] in a;
    }
    if b != [] {
      assert b[0] in b;
    }
  }

  /** A set of places has one order. */
  lemma {:induction false} OneSequence(a: seq<Place>, b: seq<Place>)
    requires InSequence(a) && InSequence(b) && forall p :: p in a <==> p in b
    ensures a == b
  {
    BothEmpty(a, b);
    if a != [] {
      assert a[0] in b;
      assert b[0] in a;
      assert a == [a[0]] + a[1..] && b == [b[0]] + b[1..];
      InSequenceCons(a[0], a[1..]);
      InSequenceCons(b[0], b[1..]);
      assert a[0] == b[0];
      forall p
        ensures p in a[1..] <==> p in b[1..]
      {
        assert p in a <==> p == a[0] || p in a[1..];
        assert p in b <==> p == b[0] || p in b[1..];
      }
      OneSequence(a[1..], b[1..]);
    }
  }

  lemma {:induction false} OneGathering(a: seq<Key>, b: seq<Key>, p: seq<Place>, q: seq<Place>, keys: seq<Key>,
                                        loop: real, output: real)
    requires Gathers(a, p, keys, loop, output) && Gathers(b, q, keys, loop, output)
    ensures a == b
  {
    hide InSequence, Reaches;
    OneSequence(p, q);
    forall i | 0 <= i < |a|
      ensures a[i] == b[i]
    {
      assert StandsAt(a[i], p[i], keys, loop) && StandsAt(b[i], q[i], keys, loop);
      assert a[i] == b[i];
    }
  }

  lemma {:induction false} EndPhaseIs(phase: real, loop: real, output: real)
    requires loop > 0.0
    ensures IsEndPhase(phase, loop, output) <==> phase == FinalPhase(loop, output)
  {
    var q := Quotient(output, loop);
    Remainder(q.Floor as real, q, loop, output, Passed(output, loop));
    assert IsPhaseAfter(FinalPhase(loop, output), q.Floor, loop, output);
    if whole: int :| IsPhaseAfter(phase, whole, loop, output) {
      OneFloor(whole, q.Floor, loop, output);
    }
  }

  lemma {:induction false} OneFloor(a: int, b: int, loop: real, output: real)
    requires loop > 0.0 && 0.0 <= output - a as real * loop < loop && 0.0 <= output - b as real * loop < loop
    ensures a == b
  {
    var p, q := a as real * loop, b as real * loop;
    if a < b {
      LaterByALoop(a, b, loop, p, q);
    } else if b < a {
      LaterByALoop(b, a, loop, q, p);
    }
  }

  lemma {:induction false} LaterByALoop(a: int, b: int, loop: real, p: real, q: real)
    requires loop > 0.0 && a < b && p == a as real * loop && q == b as real * loop
    ensures q >= p + loop
  {
    TimesKeepsOrder((a + 1) as real, b as real, loop);
    assert (a + 1) as real == a as real + 1.0;
    assert (a as real + 1.0) * loop == a as real * loop + loop;
  }

  lemma {:induction false} RepeatedCloses(m: Maths, keys: seq<Key>, loop: real, output: real, rotation: bool,
                                          order: Order, all: seq<Key>)
    requires loop > 0.0
    ensures Repeated(m, keys, loop, output, rotation, order) == Ok(all)
       <==> Closes(all, Cycles(keys, loop, output + EPSILON, 0, CycleCount(loop, output)), m, keys, loop, output,
             rotation,
                   order)
  {
    hide Cycles, ChannelSample, FinalPhase, IsEndPhase, CycleCount;
    var moved := Cycles(keys, loop, output + EPSILON, 0, CycleCount(loop, output));
    var phase := FinalPhase(loop, output);
    EndPhaseIs(phase, loop, output);
    var value := ChannelSample(m, keys, phase, rotation, order);
    if value.Ok? && all == moved + [[output] + value.value] {
      assert ClosedBy(all, moved, phase, value.value, m, keys, loop, output, rotation, order);
    }
    forall other, sample | ClosedBy(all, moved, other, sample, m, keys, loop, output, rotation, order)
      ensures value == Ok(sample) && all == moved + [[output] + sample]
    {
      EndPhaseIs(other, loop, output);
    }
  }

  /** Looping, exactly: it fails where no key reaches into the output or the closing sample fails, and its answer is the
      one this describes. */
  lemma {:induction false} LoopedExactly(m: Maths, keys: seq<Key>, loop: real, output: real, rotation: bool,
                                         order: Order, looped: seq<Key>)
    ensures LoopedRecords(m, keys, loop, output, rotation, order) == Ok(looped)
       <==> LoopsTo(looped, m, keys, loop, output, rotation, order)
  {
    hide Cycles, PlacesOf, CycleCount, Gathers, Closes, Repeated, Collapse, Kept;
    if keys != [] && loop > 0.0 {
      var count, limit := CycleCount(loop, output), output + EPSILON;
      var moved, places := Cycles(keys, loop, limit, 0, count), PlacesOf(keys, loop, limit, 0, count);
      CyclesGather(keys, loop, output);
      var r := Repeated(m, keys, loop, output, rotation, order);
      if r.Ok? {
        RepeatedCloses(m, keys, loop, output, rotation, order, r.value);
        CollapsedIsKept(r.value);
        assert LoopsVia(Kept(r.value), r.value, moved, places, m, keys, loop, output, rotation, order);
      }
      forall all, other, more | LoopsVia(looped, all, other, more, m, keys, loop, output, rotation, order)
        ensures r == Ok(all)
      {
        OneGathering(moved, other, places, more, keys, loop, output);
        RepeatedCloses(m, keys, loop, output, rotation, order, all);
      }
      if all, other, more :| LoopsVia(looped, all, other, more, m, keys, loop, output, rotation, order) {
        assert r == Ok(all);
      }
    }
  }

  /** The key is the source's sample at the phase of the output's end. */
  ghost predicate IsClosing(key: Key, m: Maths, keys: seq<Key>, loop: real, output: real, rotation: bool,
                            order: Order) {
    && key[0] == output
    && exists phase ::
         IsEndPhase(phase, loop, output) && ChannelSample(m, keys, phase, rotation, order) == Ok(key[1..])
  }

  /** Every looped key is a source key at its place in a repetition or the sample at the end's phase, and the last one
      is
      within a microsecond of the output's end. */
  lemma {:induction false} LoopedComesFrom(looped: seq<Key>, m: Maths, keys: seq<Key>, loop: real, output: real,
                                           rotation: bool, order: Order, key: Key)
    requires LoopsTo(looped, m, keys, loop, output, rotation, order) && key in looped
    ensures || (exists p :: Reaches(p, keys, loop, output) && StandsAt(key, p, keys, loop))
            || IsClosing(key, m, keys, loop, output, rotation, order)
    ensures -0.000001 <= looped[|looped| - 1][0] - output <= 0.000001
  {
    hide Kept, Gathers, Closes, Reaches, StandsAt, ChannelSample, IsEndPhase, LoopedRecords, Spaced, NoLater, Timeline;
    LoopedExactly(m, keys, loop, output, rotation, order, looped);
    LoopedTimeline(m, keys, loop, output, rotation, order);
    var all, moved, places :| LoopsVia(looped, all, moved, places, m, keys, loop, output, rotation, order);
    InKept(all, key);
    if key in moved {
      var i :| 0 <= i < |moved| && moved[i] == key;
      GatheredAt(moved, places, keys, loop, output, i);
    } else {
      ClosingKey(all, moved, m, keys, loop, output, rotation, order, key);
    }
  }

  lemma {:induction false} GatheredAt(moved: seq<Key>, places: seq<Place>, keys: seq<Key>, loop: real, output: real,
                                      i: nat)
    requires Gathers(moved, places, keys, loop, output) && i < |moved|
    ensures i < |places| && Reaches(places[i], keys, loop, output) && StandsAt(moved[i], places[i], keys, loop)
  {
    assert places[i] in places;
  }

  lemma {:induction false} ClosingKey(all: seq<Key>, moved: seq<Key>, m: Maths, keys: seq<Key>, loop: real,
                                      output: real,
                                      rotation: bool, order: Order, key: Key)
    requires Closes(all, moved, m, keys, loop, output, rotation, order) && key in all && key !in moved
    ensures IsClosing(key, m, keys, loop, output, rotation, order)
  {
    hide IsEndPhase, ChannelSample;
    var phase, value :| ClosedBy(all, moved, phase, value, m, keys, loop, output, rotation, order);
    assert key == [output] + value && key[1..] == value;
  }
}
