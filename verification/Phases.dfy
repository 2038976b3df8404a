/** The phases of the installer (crates/core/src/unit_apply.rs: the loops of `apply`), under every fault schedule. */
module Phases {
  import opened Outcome
  import opened Bytes
  import opened Memory
  import opened Units
  import opened Spans
  import opened Layouts
  import opened Recovery
  import opened Transaction

  // ----- what a plan has to do with its module

  /** `p` is module `x` linked into its block, which is reused exactly when one was recovered. */
  ghost predicate LinkedFor(x: Module, c: Context, r: Ready, p: Prepared)
    requires KeepsLength(c)
  {
    && Fits(x, r.layout)
    && p.size == r.layout.bytes
    && p.isNew == r.installed.None?
    && (r.installed.Some? ==> p.block == r.installed.value)
    && (p.isNew ==> p.block + p.size <= WORD64)
    && LinkModule(x, r.layout, p.block, c) == Ok(Linked(p.code, p.writes))
  }

  /** The code and the hooks of a reused block were found as linked. */
  ghost predicate ReuseHolds(m: Mem, x: Module, l: Layout, p: Prepared) {
    && Fits(x, l) && |p.code| == l.bytes
    && CodeIntact(m, x, l, p.block, p.code).Ok?
    && PlacedHold(m, p.writes).Ok?
  }

  lemma {:induction false} ReadKept(m: Mem, m': Mem, a: nat, n: nat)
    requires Quiet(m, m') && Read(m, a, n).Ok?
    ensures Read(m', a, n) == Read(m, a, n)
  {
    assert Peek(m, a, n) == Peek(m', a, n);
  }

  lemma {:induction false} PlacedHoldKept(m: Mem, m': Mem, placed: seq<Placed>)
    requires Quiet(m, m') && PlacedHold(m, placed).Ok?
    ensures PlacedHold(m', placed).Ok?
  {
    if placed != [] {
      ReadKept(m, m', placed[0].address, |placed[0].after|);
      PlacedHoldKept(m, m', placed[1..]);
    }
  }

  lemma {:induction false} ReuseKept(m: Mem, m': Mem, x: Module, l: Layout, p: Prepared)
    requires Quiet(m, m') && ReuseHolds(m, x, l, p)
    ensures ReuseHolds(m', x, l, p)
  {
    ReadKept(m, m', p.block, |p.code|);
    PlacedHoldKept(m, m', p.writes);
  }

  /** The plan's entry is linked, or was given up before it had any write. */
  ghost predicate EntryOk(x: Module, c: Context, r: Ready, q: Prepared)
    requires KeepsLength(c)
  {
    && q.isNew == r.installed.None?
    && (r.installed.Some? ==> q.block == r.installed.value)
    && (LinkedFor(x, c, r, q) || q.writes == [])
  }

  ghost predicate PlanOk(modules: seq<Module>, c: Context, ready: seq<Ready>, plan: seq<Prepared>)
    requires KeepsLength(c)
  {
    && |plan| <= |modules| == |ready|
    && forall i :: 0 <= i < |plan| ==> EntryOk(modules[i], c, ready[i], plan[i])
  }

  ghost predicate PlanLinked(modules: seq<Module>, c: Context, ready: seq<Ready>, plan: seq<Prepared>)
    requires KeepsLength(c)
  {
    && |plan| == |modules| == |ready|
    && forall i :: 0 <= i < |plan| ==> LinkedFor(modules[i], c, ready[i], plan[i])
  }

  ghost predicate PlanReused(m: Mem, modules: seq<Module>, ready: seq<Ready>, plan: seq<Prepared>)
    requires |plan| <= |modules| == |ready|
  {
    forall i :: 0 <= i < |plan| && !plan[i].isNew ==> ReuseHolds(m, modules[i], ready[i].layout, plan[i])
  }

  /** Every state from `start` on has left what was mapped at first alone. */
  ghost predicate QuietSince(m0: Mem, trace: seq<Mem>, start: nat) {
    forall i :: start <= i < |trace| ==> Quiet(m0, trace[i])
  }

  ghost predicate SameButSince(m: Mem, trace: seq<Mem>, start: nat, ws: seq<Placed>) {
    forall i :: start <= i < |trace| ==> SameBut(m, trace[i], ws)
  }

  // ----- preparing the modules

  /** One module: its block reserved or reused, linked, and checked when it was reused. */
  method PrepareModule(p: Process, x: Module, r: Ready, c: Context)
    returns (failure: Option<Error>, made: Option<Prepared>)
    requires KeepsLength(c) && Fits(x, r.layout)
    modifies p
    ensures made.None? ==> failure.Some? && p.mem == old(p.mem) && p.blocks == old(p.blocks) && p.trace == old(p.trace)
    ensures made.Some? ==> var q := made.value;
      && q.size == r.layout.bytes && q.isNew == r.installed.None?
      && (!q.isNew ==> q.block == r.installed.value
                       && p.mem == old(p.mem) && p.blocks == old(p.blocks) && p.trace == old(p.trace))
      && (q.isNew ==> && Unmapped(old(p.mem), q.block, q.size) && q.block !in old(p.blocks)
                      && q.block + q.size <= WORD64
                      && p.mem == WithBlock(old(p.mem), q.block, q.size)
                      && p.blocks == old(p.blocks)[q.block := q.size]
                      && p.trace == old(p.trace) + [p.mem])
      && EntryOk(x, c, r, q)
      && (failure.None? ==> LinkedFor(x, c, r, q) && (!q.isNew ==> ReuseHolds(p.mem, x, r.layout, q)))
    ensures p.clean ==> old(p.clean) && made.Some?
    ensures p.clean && failure.Some? ==> PreparationFails(p.mem, x, c, r, made.value, failure.value)
  {
    hide LinkModule, CodeIntact, PlacedHold, UnitsFit;
    var block: nat;
    if r.installed.Some? {
      block := r.installed.value;
    } else {
      var reserved := p.Reserve(r.layout.bytes);
      if reserved.Err? {
        return Some(reserved.error), None;
      }
      block := reserved.value;
    }
    var q := Prepared(block, r.layout.bytes, [], [], r.installed.None?);
    var linked := LinkBlock(x, r.layout, block, c);
    if linked.Err? {
      return Some(linked.error), Some(q);
    }
    q := q.(code := linked.value.code, writes := linked.value.writes);
    if r.installed.Some? {
      var intact := ReadCode(p, x, r.layout, block, q.code);
      if intact.Err? {
        return Some(intact.error), Some(q);
      }
      var held := ReadPlaced(p, q.writes);
      if held.Err? {
        return Some(held.error), Some(q);
      }
    }
    return None, Some(q);
  }

  /** The plan so far, and the memory it has reserved. */
  ghost predicate Preparing(m0: Mem, b0: map<nat, nat>, m: Mem, b: map<nat, nat>, plan: seq<Prepared>) {
    && NewBlocks(m0, b0, FreshSpans(plan))
    && Extended(m0, b0, m, b, FreshSpans(plan))
    && Quiet(m0, m)
  }

  lemma {:induction false} PreparedOne(m0: Mem, b0: map<nat, nat>, m: Mem, b: map<nat, nat>, plan: seq<Prepared>,
                                       q: Prepared)
    requires Preparing(m0, b0, m, b, plan)
    requires q.isNew ==> q.size > 0 && Unmapped(m, q.block, q.size) && q.block !in b
    ensures if q.isNew then Preparing(m0, b0, WithBlock(m, q.block, q.size), b[q.block := q.size], plan + [q])
            else Preparing(m0, b0, m, b, plan + [q])
  {
    FreshSpansAppend(plan, q);
    hide NewBlocks, Extended, Quiet, FreshSpans, Unmapped;
    if q.isNew {
      ReserveExtends(m0, b0, m, b, FreshSpans(plan), Span(q.block, q.block + q.size));
    } else {
      assert FreshSpans(plan) + [] == FreshSpans(plan);
    }
  }

  lemma {:induction false} NothingPrepared(m: Mem, b: map<nat, nat>)
    ensures Preparing(m, b, m, b, [])
  {
    assert Starts([]) == {};
  }

  lemma {:induction false} ReservedOne(m: Mem, plan: seq<Prepared>, q: Prepared)
    ensures Reserved(m, plan + [q])
         == if q.isNew then WithBlock(Reserved(m, plan), q.block, q.size) else Reserved(m, plan)
  {
    assert (plan + [q])[..|plan|] == plan;
  }

  /** One more module prepared: what the run has mapped, reserved and gone through. */
  lemma {:induction false} PreparedNext(m0: Mem, b0: map<nat, nat>, m: Mem, b: map<nat, nat>, trace: seq<Mem>,
                                        m': Mem, b': map<nat, nat>, trace': seq<Mem>, start: nat, plan: seq<Prepared>,
                                              q: Prepared)
    requires Preparing(m0, b0, m, b, plan) && m == Reserved(m0, plan)
    requires start <= |trace| && QuietSince(m0, trace, start) && (m == m0 || EndsIn(trace, start, m))
    requires q.isNew ==> && q.size > 0 && Unmapped(m, q.block, q.size) && q.block !in b
                         && m' == WithBlock(m, q.block, q.size) && b' == b[q.block := q.size] && trace' == trace + [m']
    requires !q.isNew ==> m' == m && b' == b && trace' == trace
    ensures Preparing(m0, b0, m', b', plan + [q]) && m' == Reserved(m0, plan + [q]) && Quiet(m, m')
    ensures start <= |trace'| && trace'[..start] == trace[..start] && QuietSince(m0, trace', start)
    ensures m' == m0 || EndsIn(trace', start, m')
  {
    hide Preparing, Reserved, Quiet;
    PreparedOne(m0, b0, m, b, plan, q);
    ReservedOne(m0, plan, q);
    PreparingQuiet(m0, b0, m', b', plan + [q]);
    if q.isNew {
      WithBlockQuiet(m, q.block, q.size);
      forall i | start <= i < |trace'|
        ensures Quiet(m0, trace'[i])
      {
        assert i < |trace| ==> trace'[i] == trace[i];
      }
    }
  }

  lemma {:induction false} PreparingQuiet(m0: Mem, b0: map<nat, nat>, m: Mem, b: map<nat, nat>, plan: seq<Prepared>)
    requires Preparing(m0, b0, m, b, plan)
    ensures Quiet(m0, m) && Quiet(m, m)
  {
  }

  lemma {:induction false} WithBlockQuiet(m: Mem, a: nat, n: nat)
    requires Unmapped(m, a, n)
    ensures Quiet(m, WithBlock(m, a, n))
  {
  }

  lemma {:induction false} NothingReused(m: Mem, trace: seq<Mem>, modules: seq<Module>, ready: seq<Ready>)
    requires |modules| == |ready|
    ensures PlanReused(m, modules, ready, []) && Reserved(m, []) == m && QuietSince(m, trace, |trace|)
  {
  }

  lemma {:induction false} ReusedKept(m: Mem, m': Mem, modules: seq<Module>, ready: seq<Ready>, plan: seq<Prepared>)
    requires |plan| <= |modules| == |ready| && Quiet(m, m') && PlanReused(m, modules, ready, plan)
    ensures PlanReused(m', modules, ready, plan)
  {
    hide Quiet, ReuseHolds;
    forall i | 0 <= i < |plan| && !plan[i].isNew
      ensures ReuseHolds(m', modules[i], ready[i].layout, plan[i])
    {
      ReuseKept(m, m', modules[i], ready[i].layout, plan[i]);
    }
  }

  lemma {:induction false} ReusedOne(m: Mem, modules: seq<Module>, ready: seq<Ready>, plan: seq<Prepared>, q: Prepared)
    requires |plan| < |modules| == |ready| && PlanReused(m, modules, ready, plan)
    requires !q.isNew ==> ReuseHolds(m, modules[|plan|], ready[|plan|].layout, q)
    ensures PlanReused(m, modules, ready, plan + [q])
  {
    hide ReuseHolds;
  }

  /** Module after module: a fresh block is registered before it is linked, so a failure can release it. */
  method PrepareModules(p: Process, modules: seq<Module>, ready: seq<Ready>, c: Context)
    returns (failure: Option<Error>, plan: seq<Prepared>)
    requires KeepsLength(c) && |ready| == |modules|
    requires forall i :: 0 <= i < |modules| ==> Fits(modules[i], ready[i].layout)
    modifies p
    ensures Preparing(old(p.mem), old(p.blocks), p.mem, p.blocks, plan)
    ensures |old(p.trace)| <= |p.trace| && p.trace[..|old(p.trace)|] == old(p.trace)
    ensures QuietSince(old(p.mem), p.trace, |old(p.trace)|)
    ensures PlanOk(modules, c, ready, plan) && |plan| <= |modules|
    ensures failure.None? ==> PlanLinked(modules, c, ready, plan) && PlanReused(p.mem, modules, ready, plan)
    ensures p.mem == Reserved(old(p.mem), plan)
    ensures p.mem == old(p.mem) || EndsIn(p.trace, |old(p.trace)|, p.mem)
    ensures p.clean ==> old(p.clean)
    ensures p.clean && failure.Some? ==> LastFails(p.mem, modules, c, ready, plan, failure.value)
  {
    hide LinkModule, CodeIntact, PlacedHold, Fits, Quiet, LinkedFor, EntryOk, ReuseHolds, Preparing, Reserved,
         PreparationFails, PlanReused, QuietSince, EndsIn, Unmapped, LastFails;
    plan := [];
    NothingPrepared(p.mem, p.blocks);
    NothingReused(p.mem, p.trace, modules, ready);
    for i := 0 to |modules|
      invariant Preparing(old(p.mem), old(p.blocks), p.mem, p.blocks, plan)
      invariant |old(p.trace)| <= |p.trace| && p.trace[..|old(p.trace)|] == old(p.trace)
      invariant QuietSince(old(p.mem), p.trace, |old(p.trace)|)
      invariant |plan| == i
      invariant forall j :: 0 <= j < i ==> LinkedFor(modules[j], c, ready[j], plan[j])
      invariant PlanReused(p.mem, modules, ready, plan)
      invariant forall j :: 0 <= j < i ==> EntryOk(modules[j], c, ready[j], plan[j])
      invariant p.mem == Reserved(old(p.mem), plan)
      invariant p.mem == old(p.mem) || EndsIn(p.trace, |old(p.trace)|, p.mem)
      invariant p.clean ==> old(p.clean)
    {
      ghost var m, b, trace := p.mem, p.blocks, p.trace;
      var made;
      failure, made := PrepareModule(p, modules[i], ready[i], c);
      if made.None? {
        return;
      }
      var before := plan;
      plan := before + [made.value];
      FitsIsNonempty(modules[i], ready[i].layout);
      PreparedNext(old(p.mem), old(p.blocks), m, b, trace, p.mem, p.blocks, p.trace, |old(p.trace)|,
                   before, made.value);
      ReusedKept(m, p.mem, modules, ready, before);
      if failure.Some? {
        LastFailed(p.mem, modules, c, ready, before, made.value, failure.value);
        return;
      }
      ReusedOne(p.mem, modules, ready, before, made.value);
    }
    failure := None;
  }

  /** The only ways preparing a module can fail when no fault strikes. */
  ghost predicate PreparationFails(m: Mem, x: Module, c: Context, r: Ready, q: Prepared, e: Error)
  {
    && KeepsLength(c) && Fits(x, r.layout)
    && var linked := LinkModule(x, r.layout, q.block, c);
       || linked == Err(e)
       || (linked.Ok? && !q.isNew
           && (CodeIntact(m, x, r.layout, q.block, linked.value.code) == Err(e)
               || PlacedHold(m, linked.value.writes) == Err(e)))
  }

  ghost predicate EndsIn(trace: seq<Mem>, start: nat, m: Mem) {
    start < |trace| && trace[|trace| - 1] == m
  }

  /** Everything up to the last entry was prepared, and the last one could not be. */
  ghost predicate LastFails(m: Mem, modules: seq<Module>, c: Context, ready: seq<Ready>, plan: seq<Prepared>, e: Error)
    requires KeepsLength(c)
  {
    && 0 < |plan| <= |modules| == |ready|
    && var last := |plan| - 1;
       && (forall i :: 0 <= i < last ==> LinkedFor(modules[i], c, ready[i], plan[i]))
       && PlanReused(m, modules, ready, plan[..last])
       && PreparationFails(m, modules[last], c, ready[last], plan[last], e)
  }

  lemma {:induction false} LastFailed(m: Mem, modules: seq<Module>, c: Context, ready: seq<Ready>, plan: seq<Prepared>,
                                      q: Prepared, e: Error)
    requires KeepsLength(c) && |plan| < |modules| == |ready| && PlanReused(m, modules, ready, plan)
    requires forall i :: 0 <= i < |plan| ==> LinkedFor(modules[i], c, ready[i], plan[i])
    ensures PreparationFails(m, modules[|plan|], c, ready[|plan|], q, e)
      ==> LastFails(m, modules, c, ready, plan + [q], e)
  {
    hide LinkedFor, ReuseHolds, PreparationFails, PlanReused;
    assert (plan + [q])[..|plan|] == plan;
  }

  lemma {:induction false} FitsIsNonempty(x: Module, l: Layout)
    requires Fits(x, l)
    ensures l.bytes > 0
  {
  }

  // ----- writing the payloads

  lemma {:induction false} FreshSpanIn(plan: seq<Prepared>, i: nat)
    requires i < |plan| && plan[i].isNew
    ensures Span(plan[i].block, plan[i].block + plan[i].size) in FreshSpans(plan)
  {
    if i > 0 {
      FreshSpanIn(plan[1..], i - 1);
    }
  }

  lemma {:induction false} FreshSpansApart(plan: seq<Prepared>, i: nat, j: nat)
    requires i < j < |plan| && plan[i].isNew && plan[j].isNew && PairwiseApart(FreshSpans(plan))
    ensures Apart(Span(plan[i].block, plan[i].block + plan[i].size), Span(plan[j].block, plan[j].block + plan[j].size))
  {
    var rest := FreshSpans(plan[1..]);
    if i == 0 {
      FreshSpanIn(plan[1..], j - 1);
      PairwiseApartCons(Span(plan[0].block, plan[0].block + plan[0].size), rest);
    } else {
      if plan[0].isNew {
        PairwiseApartCons(Span(plan[0].block, plan[0].block + plan[0].size), rest);
      } else {
        assert [] + rest == rest;
      }
      FreshSpansApart(plan[1..], i - 1, j - 1);
    }
  }

  ghost predicate Sized(plan: seq<Prepared>) {
    forall i :: 0 <= i < |plan| ==> |plan[i].code| == plan[i].size
  }

  lemma {:induction false} HoldsOutside(m: Mem, m': Mem, a: nat, n: nat, b: nat, data: seq<byte>)
    requires Holds(m, b, data) && AgreeOutside(m, m', a, n) && Apart(Span(a, a + n), Span(b, b + |data|))
    ensures Holds(m', b, data)
  {
  }

  /** Every fresh block written and read back. */
  method WritePayloads(p: Process, plan: seq<Prepared>, ghost m0: Mem) returns (failure: Option<Error>)
    requires Sized(plan) && PairwiseApart(FreshSpans(plan)) && Quiet(m0, p.mem)
    requires forall k :: k in m0 ==> !InBlocks(FreshSpans(plan), k)
    requires forall k :: InBlocks(FreshSpans(plan), k) ==> k in p.mem
    modifies p`mem, p`clock, p`trace, p`clean
    ensures p.mem.Keys == old(p.mem).Keys && Quiet(m0, p.mem)
    ensures |old(p.trace)| <= |p.trace| && p.trace[..|old(p.trace)|] == old(p.trace)
    ensures QuietSince(m0, p.trace, |old(p.trace)|)
    ensures failure.None? ==> Loaded(p.mem, plan)
    ensures p.clean ==> old(p.clean) && failure.None?
  {
    for i := 0 to |plan|
      invariant p.mem.Keys == old(p.mem).Keys && Quiet(m0, p.mem)
      invariant |old(p.trace)| <= |p.trace| && p.trace[..|old(p.trace)|] == old(p.trace)
      invariant QuietSince(m0, p.trace, |old(p.trace)|)
      invariant forall j :: 0 <= j < i && plan[j].isNew ==> Holds(p.mem, plan[j].block, plan[j].code)
      invariant p.clean ==> old(p.clean)
    {
      if plan[i].isNew {
        failure := WritePayload(p, plan, i, m0);
        if failure.Some? {
          return;
        }
      }
    }
    failure := None;
  }

  method WritePayload(p: Process, plan: seq<Prepared>, i: nat, ghost m0: Mem) returns (failure: Option<Error>)
    requires i < |plan| && plan[i].isNew
    requires Sized(plan) && PairwiseApart(FreshSpans(plan)) && Quiet(m0, p.mem)
    requires forall k :: k in m0 ==> !InBlocks(FreshSpans(plan), k)
    requires forall k :: InBlocks(FreshSpans(plan), k) ==> k in p.mem
    requires forall j :: 0 <= j < i && plan[j].isNew ==> Holds(p.mem, plan[j].block, plan[j].code)
    modifies p`mem, p`clock, p`trace, p`clean
    ensures p.mem.Keys == old(p.mem).Keys && Quiet(m0, p.mem)
    ensures |p.trace| == |old(p.trace)| + 2 && p.trace[..|old(p.trace)|] == old(p.trace)
    ensures QuietSince(m0, p.trace, |old(p.trace)|)
    ensures failure.None? ==> forall j :: 0 <= j <= i && plan[j].isNew ==> Holds(p.mem, plan[j].block, plan[j].code)
    ensures p.clean ==> old(p.clean) && failure.None?
  {
    var q := plan[i];
    ghost var span := Span(q.block, q.block + q.size);
    FreshSpanIn(plan, i);
    forall k | span.start <= k < span.end
      ensures InBlocks(FreshSpans(plan), k)
    {
      InBlocksOf(FreshSpans(plan), span, k);
    }
    ghost var m := p.mem;
    assert Mapped(m, q.block, |q.code|);
    var ok := p.WriteBytes(q.block, q.code);
    forall t | |old(p.trace)| <= t < |p.trace|
      ensures Quiet(m0, p.trace[t])
    {
    }
    if !ok {
      return Some(WriteFailed);
    }
    HoldsIsRead(p.mem, q.block, q.code);
    var now := p.ReadBytes(q.block, |q.code|);
    if now.Err? {
      return Some(now.error);
    }
    if now.value != q.code {
      return Some(PayloadNotTaken);
    }
    forall j | 0 <= j < i && plan[j].isNew
      ensures Holds(p.mem, plan[j].block, plan[j].code)
    {
      FreshSpansApart(plan, j, i);
      HoldsOutside(m, p.mem, q.block, |q.code|, plan[j].block, plan[j].code);
    }
    return None;
  }

  // ----- writing the hooks, and undoing them

  datatype HookOutcome = Done | Undone(error: Error) | Stuck(error: Error)

  lemma {:induction false} SameButWider(m: Mem, m': Mem, ws: seq<Placed>, all: seq<Placed>)
    requires SameBut(m, m', ws) && forall w :: w in ws ==> w in all
    ensures SameBut(m, m', all)
  {
    assert forall k :: InSpans(ws, k) ==> InSpans(all, k);
  }

  /** One hook written and read back. */
  method WriteHook(p: Process, w: Placed) returns (failure: Option<Error>)
    requires Mapped(p.mem, w.address, |w.after|)
    modifies p`mem, p`clock, p`trace, p`clean
    ensures AgreeOutside(old(p.mem), p.mem, w.address, |w.after|)
    ensures failure.None? ==> Holds(p.mem, w.address, w.after)
    ensures p.clean ==> old(p.clean) && failure.None?
    ensures |p.trace| == |old(p.trace)| + 2 && p.trace[..|old(p.trace)|] == old(p.trace)
    ensures forall i :: |old(p.trace)| <= i < |p.trace| ==> AgreeOutside(old(p.mem), p.trace[i], w.address, |w.after|)
  {
    var ok := p.WriteBytes(w.address, w.after);
    if !ok {
      return Some(WriteFailed);
    }
    HoldsIsRead(p.mem, w.address, w.after);
    var now := p.ReadBytes(w.address, |w.after|);
    if now.Err? {
      return Some(now.error);
    }
    if now.value != w.after {
      return Some(HookNotTaken);
    }
    return None;
  }

  /** One site put back and read back. */
  method RestoreSite(p: Process, w: Placed) returns (restored: bool)
    modifies p`mem, p`clock, p`trace, p`clean
    ensures AgreeOutside(old(p.mem), p.mem, w.address, |w.before|)
    ensures restored ==> Holds(p.mem, w.address, w.before)
    ensures p.clean ==> old(p.clean)
    ensures |p.trace| == |old(p.trace)| + 2 && p.trace[..|old(p.trace)|] == old(p.trace)
    ensures forall i :: |old(p.trace)| <= i < |p.trace| ==> AgreeOutside(old(p.mem), p.trace[i], w.address, |w.before|)
  {
    var ok := p.WriteBytes(w.address, w.before);
    if !ok {
      return false;
    }
    HoldsIsRead(p.mem, w.address, w.before);
    var now := p.ReadBytes(w.address, |w.before|);
    return now.Ok? && now.value == w.before;
  }

  lemma {:induction false} SinceExtends(m: Mem, m1: Mem, trace: seq<Mem>, trace': seq<Mem>, start: nat,
                                        ws: seq<Placed>, w: Placed)
    requires start <= |trace| <= |trace'| && trace'[..|trace|] == trace
    requires SameButSince(m, trace, start, ws) && SameBut(m, m1, ws) && w in ws
    requires forall i :: |trace| <= i < |trace'| ==> AgreeOutside(m1, trace'[i], w.address, |w.after|)
    ensures SameButSince(m, trace', start, ws) && trace'[..start] == trace[..start]
  {
    forall i | start <= i < |trace'|
      ensures SameBut(m, trace'[i], ws)
    {
      if i < |trace| {
        assert trace'[i] == trace'[..|trace|][i] == trace[i];
      } else {
        SameButStep(m, m1, trace'[i], ws, w);
      }
    }
    assert trace'[..start] == trace'[..|trace|][..start];
  }

  /** Every changed site put back, last first; each is tried even after one has failed. */
  method Rollback(p: Process, changed: seq<Placed>) returns (restored: bool)
    requires PlacedApart(changed) && SameLengths(changed)
    modifies p`mem, p`clock, p`trace, p`clean
    ensures SameBut(old(p.mem), p.mem, changed)
    ensures restored ==> forall w :: w in changed ==> Holds(p.mem, w.address, w.before)
    ensures p.clean ==> old(p.clean)
    ensures |old(p.trace)| <= |p.trace| && p.trace[..|old(p.trace)|] == old(p.trace)
    ensures SameButSince(old(p.mem), p.trace, |old(p.trace)|, changed)
  {
    hide SameBut, Holds, AgreeOutside;
    SameButItself(p.mem, changed);
    restored := true;
    ghost var start := |p.trace|;
    for i := |changed| downto 0
      invariant SameBut(old(p.mem), p.mem, changed)
      invariant p.clean ==> old(p.clean)
      invariant restored ==> forall j :: i <= j < |changed| ==> Holds(p.mem, changed[j].address, changed[j].before)
      invariant start <= |p.trace| && p.trace[..start] == old(p.trace)
      invariant SameButSince(old(p.mem), p.trace, start, changed)
    {
      ghost var m, trace := p.mem, p.trace;
      var w := changed[i];
      var ok := RestoreSite(p, w);
      SameButStep(old(p.mem), m, p.mem, changed, w);
      SinceExtends(old(p.mem), m, trace, p.trace, start, changed, w);
      if restored {
        forall j | i < j < |changed|
          ensures Holds(p.mem, changed[j].address, changed[j].before)
        {
          assert Apart(SpanOfPlaced(changed[i]), SpanOfPlaced(changed[j]));
          HoldsOutside(m, p.mem, w.address, |w.before|, changed[j].address, changed[j].before);
        }
      }
      restored := restored && ok;
    }
  }

  lemma {:induction false} SameButItself(m: Mem, ws: seq<Placed>)
    ensures SameBut(m, m, ws)
  {
  }

  /** Undoing every change to sites that held their stock bytes gives back the memory itself. */
  lemma {:induction false} RestoredIsOriginal(m: Mem, m': Mem, ws: seq<Placed>)
    requires SameBut(m, m', ws) && SameLengths(ws) && SitesStock(m, ws)
    requires forall w :: w in ws ==> Holds(m', w.address, w.before)
    ensures m' == m
  {
    forall k | k in m
      ensures m'[k] == m[k]
    {
      if InSpans(ws, k) {
        var w :| w in ws && InSpan(w, k);
        assert Holds(m, w.address, w.before) && Holds(m', w.address, w.before);
      }
    }
  }

  lemma {:induction false} PrefixApart(all: seq<Placed>, n: nat)
    requires n <= |all| && PlacedApart(all) && SameLengths(all)
    ensures PlacedApart(all[..n]) && SameLengths(all[..n])
    ensures forall w :: w in all[..n] ==> w in all
  {
  }

  lemma {:induction false} WritesSoFar(plan: seq<Prepared>, i: nat, j: nat)
    requires i < |plan| && plan[i].isNew && j <= |plan[i].writes|
    ensures var done := FreshWrites(plan[..i]) + plan[i].writes[..j];
      |done| <= |FreshWrites(plan)| && done == FreshWrites(plan)[..|done|]
  {
    var a, b := plan[..i], plan[i..];
    assert plan == a + b && b[0] == plan[i];
    FreshWritesAppend(a, b);
    assert FreshWrites(b) == plan[i].writes + FreshWrites(b[1..]);
    var done := FreshWrites(a) + plan[i].writes[..j];
    assert FreshWrites(plan)[..|done|] == done;
  }

  /** Where the sites of a plan stand before its hooks are written. */
  ghost predicate HooksReady(m: Mem, plan: seq<Prepared>) {
    && PlacedApart(FreshWrites(plan)) && SameLengths(FreshWrites(plan)) && SitesStock(m, FreshWrites(plan))
  }

  lemma {:induction false} SitesMapped(m: Mem, m': Mem, ws: seq<Placed>, w: Placed)
    requires SitesStock(m, ws) && SameLengths(ws) && w in ws && m.Keys == m'.Keys
    ensures Mapped(m', w.address, |w.after|)
  {
    assert Holds(m, w.address, w.before);
    assert |w.after| == |w.before|;
    forall k | w.address <= k < w.address + |w.after|
      ensures k in m'
    {
      assert k in m;
    }
  }

  /** Every hook of the plan, in order; the first fault undoes them all. */
  method WriteHooks(p: Process, plan: seq<Prepared>) returns (outcome: HookOutcome)
    requires HooksReady(p.mem, plan)
    modifies p`mem, p`clock, p`trace, p`clean
    ensures SameBut(old(p.mem), p.mem, FreshWrites(plan))
    ensures outcome.Done? ==> forall w :: w in FreshWrites(plan) ==> Holds(p.mem, w.address, w.after)
    ensures outcome.Undone? ==> p.mem == old(p.mem)
    ensures |old(p.trace)| <= |p.trace| && p.trace[..|old(p.trace)|] == old(p.trace)
    ensures SameButSince(old(p.mem), p.trace, |old(p.trace)|, FreshWrites(plan))
    ensures p.clean ==> old(p.clean)
    ensures p.clean ==> outcome.Done?
  {
    hide SameBut, Holds, AgreeOutside, InSpans;
    ghost var all := FreshWrites(plan);
    var changed: seq<Placed> := [];
    SameButItself(p.mem, changed);
    for i := 0 to |plan|
      invariant changed == FreshWrites(plan[..i])
      invariant Progress(old(p.mem), p.mem, old(p.trace), p.trace, changed, all)
      invariant p.clean ==> old(p.clean)
    {
      if plan[i].isNew {
        for j := 0 to |plan[i].writes|
          invariant changed == FreshWrites(plan[..i]) + plan[i].writes[..j]
          invariant Progress(old(p.mem), p.mem, old(p.trace), p.trace, changed, all)
          invariant p.clean ==> old(p.clean)
        {
          WritesSoFar(plan, i, j + 1);
          assert plan[i].writes[..j] + [plan[i].writes[j]] == plan[i].writes[..j + 1];
          var failure;
          failure, changed := ExtendHooks(p, changed, plan[i].writes[j], old(p.mem), old(p.trace), all);
          if failure.Some? {
            outcome := Undo(p, changed, failure.value, old(p.mem), old(p.trace), all);
            return;
          }
        }
        assert plan[i].writes[..|plan[i].writes|] == plan[i].writes;
      }
      PrefixGrows(plan, i);
    }
    assert plan[..|plan|] == plan;
    SameButWider(old(p.mem), p.mem, changed, all);
    return Done;
  }

  lemma {:induction false} PrefixGrows(plan: seq<Prepared>, i: nat)
    requires i < |plan|
    ensures FreshWrites(plan[..i + 1]) == FreshWrites(plan[..i]) + if plan[i].isNew then plan[i].writes else []
  {
    assert plan[..i + 1] == plan[..i] + [plan[i]];
    FreshWritesAppend(plan[..i], [plan[i]]);
    assert FreshWrites([plan[i]]) == (if plan[i].isNew then plan[i].writes else []) + FreshWrites([plan[i]][1..]);
  }

  /** The hooks in `changed` are finished, and nothing else has changed since `m1`. */
  ghost predicate Progress(m1: Mem, m: Mem, trace1: seq<Mem>, trace: seq<Mem>, changed: seq<Placed>, all: seq<Placed>) {
    && SameBut(m1, m, changed)
    && (forall w :: w in changed ==> Holds(m, w.address, w.after))
    && |trace1| <= |trace| && trace[..|trace1|] == trace1
    && SameButSince(m1, trace, |trace1|, all)
  }

  method ExtendHooks(p: Process, changed: seq<Placed>, w: Placed, ghost m1: Mem, ghost trace1: seq<Mem>,
                     ghost all: seq<Placed>)
    returns (failure: Option<Error>, next: seq<Placed>)
    requires Progress(m1, p.mem, trace1, p.trace, changed, all)
    requires PlacedApart(all) && SameLengths(all) && SitesStock(m1, all)
    requires |changed| + 1 <= |all| && changed + [w] == all[..|changed| + 1]
    modifies p`mem, p`clock, p`trace, p`clean
    ensures next == changed + [w]
    ensures SameBut(m1, p.mem, next)
    ensures |trace1| <= |p.trace| && p.trace[..|trace1|] == trace1 && SameButSince(m1, p.trace, |trace1|, all)
    ensures failure.None? ==> Progress(m1, p.mem, trace1, p.trace, next, all)
    ensures p.clean ==> old(p.clean) && failure.None?
  {
    hide SameBut, Holds, AgreeOutside, InSpans;
    next := changed + [w];
    PrefixApart(all, |next|);
    assert w in all && w in next;
    SameButWider(m1, p.mem, changed, next);
    SameButWider(m1, p.mem, changed, all);
    SitesMapped(m1, p.mem, all, w);
    ghost var m, trace := p.mem, p.trace;
    failure := WriteHook(p, w);
    SameButStep(m1, m, p.mem, next, w);
    SinceExtends(m1, m, trace, p.trace, |trace1|, all, w);
    if failure.None? {
      forall v | v in next
        ensures Holds(p.mem, v.address, v.after)
      {
        if v in changed {
          var j :| 0 <= j < |changed| && changed[j] == v;
          assert next[j] == v && next[|changed|] == w;
          assert Apart(SpanOfPlaced(next[j]), SpanOfPlaced(next[|changed|]));
          HoldsOutside(m, p.mem, w.address, |w.after|, v.address, v.after);
        }
      }
    }
  }

  method Undo(p: Process, changed: seq<Placed>, error: Error, ghost m1: Mem, ghost trace1: seq<Mem>,
              ghost all: seq<Placed>)
    returns (outcome: HookOutcome)
    requires PlacedApart(all) && SameLengths(all) && SitesStock(m1, all)
    requires |changed| <= |all| && changed == all[..|changed|]
    requires SameBut(m1, p.mem, changed)
    requires |trace1| <= |p.trace| && p.trace[..|trace1|] == trace1 && SameButSince(m1, p.trace, |trace1|, all)
    modifies p`mem, p`clock, p`trace, p`clean
    ensures !outcome.Done? && outcome.error == error
    ensures SameBut(m1, p.mem, all)
    ensures outcome.Undone? ==> p.mem == m1
    ensures p.clean ==> old(p.clean)
    ensures |trace1| <= |p.trace| && p.trace[..|trace1|] == trace1 && SameButSince(m1, p.trace, |trace1|, all)
  {
    hide Holds, AgreeOutside, InSpans;
    PrefixApart(all, |changed|);
    ghost var trace := p.trace;
    var restored := Rollback(p, changed);
    forall i | |trace1| <= i < |p.trace|
      ensures SameBut(m1, p.trace[i], all)
    {
      if i < |trace| {
        assert p.trace[i] == p.trace[..|trace|][i] == trace[i];
      } else {
        SameButWider(m1, p.trace[i], changed, all);
      }
    }
    assert p.trace[..|trace1|] == p.trace[..|trace|][..|trace1|];
    SameButWider(m1, p.mem, changed, all);
    if restored {
      RestoredIsOriginal(m1, p.mem, changed);
      return Undone(error);
    }
    return Stuck(error);
  }

  // ----- giving the fresh blocks back

  /** Every fresh block of the plan released: the memory and the reservations are the original ones. */
  method ReleaseBlocks(p: Process, plan: seq<Prepared>, ghost m0: Mem, ghost b0: map<nat, nat>)
    requires Preparing(m0, b0, p.mem, p.blocks, plan)
    modifies p`mem, p`blocks, p`trace
    ensures p.mem == m0 && p.blocks == b0
    ensures |old(p.trace)| <= |p.trace| && p.trace[..|old(p.trace)|] == old(p.trace)
    ensures QuietSince(m0, p.trace, |old(p.trace)|)
    ensures FreshSpans(plan) == [] ==> p.trace == old(p.trace)
  {
    hide NewBlocks, Extended, Quiet;
    ghost var start := |p.trace|;
    for i := 0 to |plan|
      invariant Preparing(m0, b0, p.mem, p.blocks, plan[i..])
      invariant start <= |p.trace| && p.trace[..start] == old(p.trace)
      invariant QuietSince(m0, p.trace, start)
      invariant FreshSpans(plan) == [] ==> FreshSpans(plan[i..]) == [] && p.trace == old(p.trace)
    {
      assert plan[i..][1..] == plan[i + 1..] && plan[i..][0] == plan[i];
      if plan[i].isNew {
        ghost var blocks := FreshSpans(plan[i..]);
        assert blocks[0].start == plan[i].block;
        assert blocks[1..] == FreshSpans(plan[i + 1..]);
        ReleaseShrinks(m0, b0, p.mem, p.blocks, blocks);
        ghost var trace := p.trace;
        p.Release(plan[i].block);
        assert forall t :: start <= t < |trace| ==> p.trace[t] == trace[t];
      } else {
        assert FreshSpans(plan[i..]) == FreshSpans(plan[i + 1..]);
      }
    }
    NothingExtended(m0, b0, p.mem, p.blocks);
  }

  // ----- where the sites of a module lie

  predicate Within(w: Placed, x: Module) {
    x.target.base <= w.address && w.address + |w.after| <= x.target.base + x.target.size
  }

  lemma {:induction false} SpansShift(placed: seq<Placed>, base: nat, writes: seq<Write>)
    requires AllLandOver(placed, base, writes) && PairwiseApart(SpansOf(writes))
    ensures PlacedApart(placed) && SameLengths(placed)
  {
    forall i, j | 0 <= i < j < |placed|
      ensures Apart(SpanOfPlaced(placed[i]), SpanOfPlaced(placed[j]))
    {
      assert LandsOver(placed[i], base, writes[i]) && LandsOver(placed[j], base, writes[j]);
      assert Apart(SpansOf(writes)[i], SpansOf(writes)[j]);
    }
    forall w | w in placed
      ensures |w.after| == |w.before| > 0
    {
      var i :| 0 <= i < |placed| && placed[i] == w;
      assert LandsOver(placed[i], base, writes[i]);
    }
  }

  lemma {:induction false} StockSites(m: Mem, writes: seq<Write>, base: nat, w: Write)
    requires SitesHold(m, writes, base).Ok? && w in writes
    ensures Holds(m, base + w.rva, w.before)
  {
    hide Holds, Read;
    HoldsIsRead(m, base + w.rva, w.before);
    if w != writes[0] {
      StockSites(m, writes[1..], base, w);
    }
  }

  lemma {:induction false} StockUnits(m: Mem, payloads: seq<Payload>, base: nat, w: Write)
    requires UnitsMatch(m, payloads, base, true).Ok? && w in WritesOf(payloads)
    ensures Holds(m, base + w.rva, w.before)
  {
    if w in payloads[0].unit.writes {
      StockSites(m, payloads[0].unit.writes, base, w);
    } else {
      StockUnits(m, payloads[1..], base, w);
    }
  }

  lemma {:induction false} ModuleChecks(m: Mem, x: Module, c: Context, r: Ready)
    requires Checked(x.payloads) && PreflightModule(m, x, c) == Ok(r)
    ensures WritesInside(WritesOf(x.payloads), x.target.size) && PairwiseApart(SpansOf(WritesOf(x.payloads)))
    ensures UnitsMatch(m, x.payloads, x.target.base, r.installed.None?).Ok?
    ensures InstalledBlock(m, x, c) == Ok(r.installed)
    ensures LayoutOf(x.payloads, c.describe) == Ok(r.layout)
    ensures Fits(x, r.layout)
  {
    hide LayoutOf, InstalledBlock, UnitsMatch, CheckSpans, FileMatches;
    SpansDecideDisjointness(x.payloads, x.target.size);
    LayoutFits(x, c.describe);
  }

  lemma {:induction false} ModulePlaced(x: Module, c: Context, r: Ready, q: Prepared)
    requires KeepsLength(c) && Checked(x.payloads) && LinkedFor(x, c, r, q)
    ensures AllLandOver(q.writes, x.target.base, WritesOf(x.payloads))
    ensures PlacedAll(x.payloads, r.layout.offsets, x.target.base, q.block) == Ok(q.writes)
    ensures q.code[..HEADER] == r.layout.identity
  {
    hide LinkModule, PlacedAll, WritesOf, AllLandOver;
    LinkedModuleHolds(x, r.layout, q.block, c);
    PlacedAllSpans(x.payloads, r.layout.offsets, x.target.base, q.block);
  }

  /** The sites of a linked module: apart, inside the module, and holding their stock bytes when it is
      not installed yet. */
  lemma {:induction false} ModuleSites(m: Mem, x: Module, c: Context, r: Ready, q: Prepared)
    requires KeepsLength(c) && Checked(x.payloads)
    requires PreflightModule(m, x, c) == Ok(r) && LinkedFor(x, c, r, q)
    ensures PlacedApart(q.writes) && SameLengths(q.writes)
    ensures forall w :: w in q.writes ==> Within(w, x)
    ensures q.isNew ==> SitesStock(m, q.writes)
    ensures AllLandOver(q.writes, x.target.base, WritesOf(x.payloads))
  {
    ModulePlaced(x, c, r, q);
    ModuleChecks(m, x, c, r);
    hide PreflightModule, LinkedFor, UnitsMatch, WritesOf, SpansOf, AllLandOver, PairwiseApart, PlacedApart,
         WritesInside;
    SpansShift(q.writes, x.target.base, WritesOf(x.payloads));
    forall w | w in q.writes
      ensures Within(w, x)
      ensures q.isNew ==> Holds(m, w.address, w.before)
    {
      PlacedSite(m, x, q.writes, w);
    }
  }

  lemma {:induction false} PlacedSite(m: Mem, x: Module, placed: seq<Placed>, w: Placed)
    requires AllLandOver(placed, x.target.base, WritesOf(x.payloads)) && w in placed
    requires WritesInside(WritesOf(x.payloads), x.target.size)
    ensures Within(w, x)
    ensures UnitsMatch(m, x.payloads, x.target.base, true).Ok? ==> Holds(m, w.address, w.before)
  {
    hide UnitsMatch, WritesOf;
    var writes := WritesOf(x.payloads);
    var i :| 0 <= i < |placed| && placed[i] == w;
    assert LandsOver(placed[i], x.target.base, writes[i]);
    assert WriteSpan(writes[i], x.target.size).Ok?;
    if UnitsMatch(m, x.payloads, x.target.base, true).Ok? {
      StockUnits(m, x.payloads, x.target.base, writes[i]);
    }
  }

  function Ranges(modules: seq<Module>): (r: seq<Span>)
    ensures |r| == |modules|
    ensures forall i :: 0 <= i < |r| ==>
      r[i] == Span(modules[i].target.base, modules[i].target.base + modules[i].target.size)
  {
    seq(|modules|, i requires 0 <= i < |modules| =>
      Span(modules[i].target.base, modules[i].target.base + modules[i].target.size))
  }

  predicate RangesApart(modules: seq<Module>) {
    PairwiseApart(Ranges(modules))
  }

  /** The sites of every fresh module together are apart and hold their stock bytes. */
  lemma {:induction false} PlanSites(m: Mem, modules: seq<Module>, c: Context, ready: seq<Ready>, plan: seq<Prepared>)
    requires KeepsLength(c) && AllChecked(modules) && EachReady(m, modules, c, ready)
    requires PlanOk(modules, c, ready, plan) && RangesApart(modules)
    ensures HooksReady(m, plan)
    ensures forall w :: w in FreshWrites(plan) ==>
      exists i :: 0 <= i < |plan| && plan[i].isNew && w in plan[i].writes && Within(w, modules[i])
    decreases plan
  {
    hide PreflightModule, LinkedFor, Within, PlacedApart, SameLengths, SitesStock, RangesApart, Apart;
    if plan == [] {
      NoHooks(m);
    } else {
      var x, q := modules[0], plan[0];
      RestReady(m, modules, c, ready, plan);
      PlanSites(m, modules[1..], c, ready[1..], plan[1..]);
      var rest := FreshWrites(plan[1..]);
      var here := if q.isNew then q.writes else [];
      if q.writes != [] {
        assert EntryOk(x, c, ready[0], q);
        ModuleSites(m, x, c, ready[0], q);
      }
      forall w | w in rest
        ensures exists i :: 0 < i < |plan| && plan[i].isNew && w in plan[i].writes && Within(w, modules[i])
      {
        var i := LaterHook(modules, plan, w);
      }
      forall v, w | v in here && w in rest
        ensures Apart(SpanOfPlaced(v), SpanOfPlaced(w))
      {
        var i := LaterHook(modules, plan, w);
        ModulesApart(modules, i, v, w);
      }
      HooksAppend(m, here, rest, plan);
    }
  }

  /** A hook of the rest of the plan belongs to a later module. */
  lemma {:induction false} LaterHook(modules: seq<Module>, plan: seq<Prepared>, w: Placed) returns (i: nat)
    requires 0 < |plan| <= |modules|
    requires exists i ::
      0 <= i < |plan[1..]| && plan[1..][i].isNew && w in plan[1..][i].writes && Within(w, modules[1..][i])
    ensures 0 < i < |plan| && plan[i].isNew && w in plan[i].writes && Within(w, modules[i])
  {
    hide Within;
    var j :| 0 <= j < |plan[1..]| && plan[1..][j].isNew && w in plan[1..][j].writes && Within(w, modules[1..][j]);
    i := j + 1;
  }

  lemma {:induction false} ModulesApart(modules: seq<Module>, i: nat, v: Placed, w: Placed)
    requires RangesApart(modules) && 0 < i < |modules| && Within(v, modules[0]) && Within(w, modules[i])
    ensures Apart(SpanOfPlaced(v), SpanOfPlaced(w))
  {
    assert Apart(Ranges(modules)[0], Ranges(modules)[i]);
  }

  lemma {:induction false} NoHooks(m: Mem)
    ensures HooksReady(m, [])
  {
  }

  lemma {:induction false} HooksAppend(m: Mem, here: seq<Placed>, rest: seq<Placed>, plan: seq<Prepared>)
    requires FreshWrites(plan) == here + rest
    requires here == [] || (PlacedApart(here) && SameLengths(here) && SitesStock(m, here))
    requires PlacedApart(rest) && SameLengths(rest) && SitesStock(m, rest)
    requires forall v, w :: v in here && w in rest ==> Apart(SpanOfPlaced(v), SpanOfPlaced(w))
    ensures HooksReady(m, plan)
  {
  }

  lemma {:induction false} RestReady(m: Mem, modules: seq<Module>, c: Context, ready: seq<Ready>, plan: seq<Prepared>)
    requires KeepsLength(c) && AllChecked(modules) && EachReady(m, modules, c, ready)
    requires PlanOk(modules, c, ready, plan) && RangesApart(modules) && plan != []
    ensures AllChecked(modules[1..]) && EachReady(m, modules[1..], c, ready[1..])
    ensures PlanOk(modules[1..], c, ready[1..], plan[1..]) && RangesApart(modules[1..])
  {
    hide PreflightModule, LinkedFor;
    forall i, j | 0 <= i < j < |modules[1..]|
      ensures Apart(Ranges(modules[1..])[i], Ranges(modules[1..])[j])
    {
      assert Apart(Ranges(modules)[i + 1], Ranges(modules)[j + 1]);
    }
  }
}
