/** The transaction as a whole (crates/core/src/unit_apply.rs: `apply`) and what a repeat run finds. */
module Apply {
  import opened Outcome
  import opened Bytes
  import opened Memory
  import opened Units
  import opened Spans
  import opened Layouts
  import opened Recovery
  import opened Checks
  import opened Transaction
  import opened Phases

  // ----- before the process is touched

  predicate OneProcess(modules: seq<Module>) {
    forall i :: 0 <= i < |modules| ==> modules[i].target.pid == modules[0].target.pid
  }

  predicate NoOverflow(modules: seq<Module>) {
    forall i :: 0 <= i < |modules| ==> modules[i].target.base + modules[i].target.size < WORD64
  }

  function Targets(modules: seq<Module>): Result<()> {
    if modules == [] then Err(NoModules)
    else if !OneProcess(modules) then Err(DifferentProcesses)
    else if !NoOverflow(modules) then Err(AddressOverflow)
    else if !NeighboursApart(Sort(Ranges(modules))) then Err(RangesOverlap)
    else Ok(())
  }

  /** The modules are in one process, their address ranges below 2^64 and apart. */
  ghost predicate InOneProcess(modules: seq<Module>) {
    forall x, y :: x in modules && y in modules ==> x.target.pid == y.target.pid
  }

  ghost predicate InAddressSpace(modules: seq<Module>) {
    forall x :: x in modules ==> x.target.base + x.target.size < 0x1_0000_0000_0000_0000
  }

  ghost predicate InNoOther(modules: seq<Module>) {
    forall i, j :: 0 <= i < j < |modules|
      ==> (modules[i].target.base + modules[i].target.size <= modules[j].target.base
           || modules[j].target.base + modules[j].target.size <= modules[i].target.base)
  }

  ghost predicate AnyEmpty(modules: seq<Module>) {
    exists x :: x in modules && x.target.size == 0
  }

  /** The checks of the targets in their order, exactly; comparing neighbours may take an empty range that lies inside
      another for an overlap. */
  lemma {:induction false} TargetsDecide(modules: seq<Module>)
    ensures Targets(modules) == Err(NoModules) <==> modules == []
    ensures modules != [] ==> (Targets(modules) == Err(DifferentProcesses) <==> !InOneProcess(modules))
    ensures modules != [] && InOneProcess(modules)
      ==> (Targets(modules) == Err(AddressOverflow) <==> !InAddressSpace(modules))
    ensures modules != [] && InOneProcess(modules) && InAddressSpace(modules)
      ==> Targets(modules).Ok? || Targets(modules) == Err(RangesOverlap)
    ensures Targets(modules).Ok? ==> InNoOther(modules)
    ensures Targets(modules) == Err(RangesOverlap) ==> !InNoOther(modules) || AnyEmpty(modules)
  {
    if modules != [] {
      assert modules[0] in modules;
      RangesDecide(modules);
    }
  }

  lemma {:induction false} RangesDecide(modules: seq<Module>)
    ensures NeighboursApart(Sort(Ranges(modules))) ==> InNoOther(modules)
    ensures !AnyEmpty(modules) && InNoOther(modules)
      ==> NeighboursApart(Sort(Ranges(modules)))
  {
    hide Sort, NeighboursApart;
    if NeighboursApart(Sort(Ranges(modules))) {
      NeighboursSuffice(Ranges(modules));
      forall i, j | 0 <= i < j < |modules|
        ensures modules[i].target.base + modules[i].target.size <= modules[j].target.base
             || modules[j].target.base + modules[j].target.size <= modules[i].target.base
      {
        assert Apart(Ranges(modules)[i], Ranges(modules)[j]);
      }
    }
    if !AnyEmpty(modules) {
      forall i | 0 <= i < |modules|
        ensures Ranges(modules)[i].start < Ranges(modules)[i].end
      {
        assert modules[i] in modules;
      }
      NeighboursDecide(Ranges(modules));
    }
  }

  lemma {:induction false} TargetsApart(modules: seq<Module>)
    requires Targets(modules).Ok?
    ensures RangesApart(modules)
  {
    NeighboursSuffice(Ranges(modules));
  }

  method ValidateTargets(modules: seq<Module>) returns (r: Result<()>)
    ensures r == Targets(modules)
  {
    if modules == [] {
      return Err(NoModules);
    }
    for i := 0 to |modules|
      invariant forall j :: 0 <= j < i ==> modules[j].target.pid == modules[0].target.pid
    {
      if modules[i].target.pid != modules[0].target.pid {
        return Err(DifferentProcesses);
      }
    }
    var ranges: seq<Span> := [];
    for i := 0 to |modules|
      invariant |ranges| == i
      invariant forall j :: 0 <= j < i ==> modules[j].target.base + modules[j].target.size < WORD64
      invariant ranges == Ranges(modules)[..i]
    {
      var t := modules[i].target;
      if t.base + t.size >= WORD64 {
        return Err(AddressOverflow);
      }
      ranges := ranges + [Span(t.base, t.base + t.size)];
    }
    assert ranges == Ranges(modules);
    var sorted := Sort(ranges);
    for i := 0 to |sorted| - 1
      invariant forall k :: 0 <= k < i ==> sorted[k].end <= sorted[k + 1].start
    {
      if sorted[i].end > sorted[i + 1].start {
        return Err(RangesOverlap);
      }
    }
    return Ok(());
  }

  // ----- what a run leaves behind

  /** The reused block of `plan[i]` shares no byte with the blocks and the sites this run wrote. */
  ghost predicate ReuseApart(plan: seq<Prepared>, i: nat)
    requires i < |plan|
  {
    forall k :: plan[i].block <= k < plan[i].block + plan[i].size
      ==> !InBlocks(FreshSpans(plan), k) && !InSpans(FreshWrites(plan), k)
  }

  /** From `m0` to `m1`, the fresh modules of the plan were installed and nothing else was changed. */
  ghost predicate Installation(m0: Mem, m1: Mem, modules: seq<Module>, c: Context, ready: seq<Ready>,
                               plan: seq<Prepared>)
    requires KeepsLength(c) && AllChecked(modules)
  {
    && Targets(modules).Ok?
    && EachReady(m0, modules, c, ready) && PlanLinked(modules, c, ready, plan)
    && (forall k :: k in m0 ==> !InBlocks(FreshSpans(plan), k))
    && PairwiseApart(FreshSpans(plan))
    && Maps(m0, m1, FreshSpans(plan))
    && (forall k :: k in m0 && !InSpans(FreshWrites(plan), k) ==> m1[k] == m0[k])
    && HooksReady(m0, plan)
    && Loaded(m1, plan)
    && (forall w :: w in FreshWrites(plan) ==> Holds(m1, w.address, w.after))
    && (forall i :: 0 <= i < |plan| && !plan[i].isNew && ReuseApart(plan, i)
          ==> ReuseHolds(m1, modules[i], ready[i].layout, plan[i]))
  }

  /** Every module is installed in `m`, its code and hooks intact. */
  ghost predicate Installed(m: Mem, modules: seq<Module>, c: Context, ready: seq<Ready>)
    requires KeepsLength(c) && AllChecked(modules)
  {
    && Targets(modules).Ok?
    && EachReady(m, modules, c, ready)
    && forall i :: 0 <= i < |modules| ==> ModuleInstalled(m, modules[i], c, ready[i])
  }

  ghost predicate ModuleInstalled(m: Mem, x: Module, c: Context, r: Ready)
    requires KeepsLength(c)
  {
    && r.installed.Some? && Fits(x, r.layout)
    && var linked := LinkModule(x, r.layout, r.installed.value, c);
       && linked.Ok?
       && CodeIntact(m, x, r.layout, r.installed.value, linked.value.code).Ok?
       && PlacedHold(m, linked.value.writes).Ok?
  }

  /** Why a run on which no fault strikes may refuse: a check of the targets or of a module, or the last module it
      began to prepare. `since` are the memories of the run; one of them, or the first memory, is what was checked. */
  ghost predicate Explained(m0: Mem, b0: map<nat, nat>, since: seq<Mem>, modules: seq<Module>, c: Context,
                            ready: seq<Ready>, plan: seq<Prepared>, e: Error)
    requires KeepsLength(c) && AllChecked(modules)
  {
    || Targets(modules) == Err(e)
    || (Targets(modules).Ok? && exists i: nat :: StopsAt(m0, modules, c, i, e))
    || (Targets(modules).Ok? && EachReady(m0, modules, c, ready) && PlanOk(modules, c, ready, plan)
        && NewBlocks(m0, b0, FreshSpans(plan))
        && var m := Reserved(m0, plan);
           (m == m0 || m in since) && LastFails(m, modules, c, ready, plan, e))
  }

  // ----- the run

  /** While any byte of before differs, exactly the new blocks are mapped on top, every one of them holds its whole
      payload, and only sites of the run differ. */
  ghost predicate Underway(m0: Mem, m: Mem, plan: seq<Prepared>) {
    && Maps(m0, m, FreshSpans(plan))
    && Loaded(m, plan)
    && forall k :: k in m0 && !InSpans(FreshWrites(plan), k) ==> m[k] == m0[k]
  }

  ghost predicate Moment(m0: Mem, m: Mem, plan: seq<Prepared>) {
    Quiet(m0, m) || Underway(m0, m, plan)
  }

  ghost predicate Moments(m0: Mem, trace: seq<Mem>, start: nat, plan: seq<Prepared>) {
    forall i :: start <= i < |trace| ==> Moment(m0, trace[i], plan)
  }

  ghost predicate SafeSince(trace: seq<Mem>, start: nat, plan: seq<Prepared>) {
    forall i :: start <= i < |trace| ==> Safe(trace[i], plan)
  }

  /** The plan is the modules' own: what the preflight found, linked into its blocks, over the bytes of before. */
  ghost predicate Planned(m0: Mem, modules: seq<Module>, c: Context, ready: seq<Ready>, plan: seq<Prepared>)
    requires KeepsLength(c) && AllChecked(modules)
  {
    EachReady(m0, modules, c, ready) && PlanLinked(modules, c, ready, plan) && HooksReady(m0, plan)
  }

  /** The memories of a run: it never changed a byte of before, or it carried out a plan of the modules, and then
      every finished hook enters a whole payload at every moment. */
  ghost predicate Course(m0: Mem, trace: seq<Mem>, start: nat, modules: seq<Module>, c: Context, ready: seq<Ready>,
                         plan: seq<Prepared>)
    requires KeepsLength(c) && AllChecked(modules)
  {
    || QuietSince(m0, trace, start)
    || (Planned(m0, modules, c, ready, plan) && Moments(m0, trace, start, plan) && SafeSince(trace, start, plan))
  }

  lemma {:induction false} MomentsAreSafe(m0: Mem, trace: seq<Mem>, start: nat, plan: seq<Prepared>)
    requires HooksReady(m0, plan) && Moments(m0, trace, start, plan)
    ensures SafeSince(trace, start, plan)
  {
    hide Quiet, Loaded, Holds, SameLengths, SitesStock, PlacedApart, Safe;
    forall i | start <= i < |trace|
      ensures Safe(trace[i], plan)
    {
      assert Moment(m0, trace[i], plan);
      if Quiet(m0, trace[i]) {
        QuietIsSafe(m0, trace[i], plan);
      } else {
        LoadedIsSafe(trace[i], plan);
      }
    }
  }

  lemma {:induction false} LoadedIsSafe(m: Mem, plan: seq<Prepared>)
    requires Loaded(m, plan)
    ensures Safe(m, plan)
  {
  }

  lemma {:induction false} QuietMoments(m0: Mem, trace: seq<Mem>, start: nat, plan: seq<Prepared>)
    requires QuietSince(m0, trace, start)
    ensures Moments(m0, trace, start, plan)
  {
  }

  lemma {:induction false} MomentsJoin(m0: Mem, a: seq<Mem>, b: seq<Mem>, start: nat, plan: seq<Prepared>)
    requires start <= |a| <= |b| && b[..|a|] == a
    requires Moments(m0, a, start, plan) && Moments(m0, b, |a|, plan)
    ensures Moments(m0, b, start, plan) && b[..start] == a[..start]
  {
    hide Moment;
    forall i | start <= i < |b|
      ensures Moment(m0, b[i], plan)
    {
      if i < |a| {
        assert b[i] == b[..|a|][i];
      }
    }
    assert b[..start] == b[..|a|][..start];
  }

  lemma {:induction false} QuietJoin(m0: Mem, a: seq<Mem>, b: seq<Mem>, start: nat)
    requires start <= |a| <= |b| && b[..|a|] == a
    requires QuietSince(m0, a, start) && QuietSince(m0, b, |a|)
    ensures QuietSince(m0, b, start)
  {
    hide Quiet;
    forall i | start <= i < |b|
      ensures Quiet(m0, b[i])
    {
      if i < |a| {
        assert b[i] == b[..|a|][i];
      }
    }
  }

  lemma {:induction false} LoadedKept(m0: Mem, m: Mem, m': Mem, plan: seq<Prepared>)
    requires HooksReady(m0, plan) && Sized(plan) && Loaded(m, plan) && SameBut(m, m', FreshWrites(plan))
    requires forall k :: k in m0 ==> !InBlocks(FreshSpans(plan), k)
    ensures Loaded(m', plan)
  {
    forall i | 0 <= i < |plan| && plan[i].isNew
      ensures Holds(m', plan[i].block, plan[i].code)
    {
      FreshSpanIn(plan, i);
      forall k | plan[i].block <= k < plan[i].block + |plan[i].code|
        ensures !InSpans(FreshWrites(plan), k)
      {
        InBlocksOf(FreshSpans(plan), Span(plan[i].block, plan[i].block + plan[i].size), k);
      }
      HoldsKept(m, m', FreshWrites(plan), plan[i].block, plan[i].code);
    }
  }

  lemma {:induction false} HookMoments(m0: Mem, m: Mem, trace: seq<Mem>, start: nat, plan: seq<Prepared>)
    requires HooksReady(m0, plan) && Sized(plan) && Underway(m0, m, plan)
    requires SameButSince(m, trace, start, FreshWrites(plan))
    requires forall k :: k in m0 ==> !InBlocks(FreshSpans(plan), k)
    ensures Moments(m0, trace, start, plan)
  {
    hide HooksReady, Sized, Loaded, InBlocks, InSpans, Quiet;
    forall i | start <= i < |trace|
      ensures Underway(m0, trace[i], plan)
    {
      assert SameBut(m, trace[i], FreshWrites(plan));
      LoadedKept(m0, m, trace[i], plan);
      assert forall k :: k in trace[i] <==> k in m;
    }
  }

  predicate AnyNew(plan: seq<Prepared>) {
    exists i :: 0 <= i < |plan| && plan[i].isNew
  }

  /** The flags of a plan whose blocks must stay. */
  function Keep(plan: seq<Prepared>): (r: seq<Prepared>)
    ensures FreshSpans(r) == []
  {
    if plan == [] then [] else [plan[0].(isNew := false)] + Keep(plan[1..])
  }

  lemma {:induction false} PreparingKept(m0: Mem, b0: map<nat, nat>, m: Mem, b: map<nat, nat>, plan: seq<Prepared>,
                                         m': Mem)
    requires Preparing(m0, b0, m, b, plan) && m'.Keys == m.Keys && Quiet(m0, m')
    ensures Preparing(m0, b0, m', b, plan)
  {
    assert forall k :: k in m' <==> k in m;
  }

  lemma {:induction false} HooksReadyKept(m0: Mem, m: Mem, plan: seq<Prepared>)
    requires HooksReady(m0, plan) && Quiet(m0, m)
    ensures HooksReady(m, plan)
  {
    forall w | w in FreshWrites(plan)
      ensures Holds(m, w.address, w.before)
    {
      assert Holds(m0, w.address, w.before);
    }
  }

  lemma {:induction false} LinkedSized(modules: seq<Module>, c: Context, ready: seq<Ready>, plan: seq<Prepared>)
    requires KeepsLength(c) && PlanLinked(modules, c, ready, plan)
    ensures Sized(plan)
  {
    forall i | 0 <= i < |plan|
      ensures |plan[i].code| == plan[i].size
    {
    }
  }

  lemma {:induction false} BlocksMapped(m0: Mem, b0: map<nat, nat>, m: Mem, b: map<nat, nat>, plan: seq<Prepared>)
    requires Preparing(m0, b0, m, b, plan)
    ensures forall k :: InBlocks(FreshSpans(plan), k) ==> k in m
    ensures forall k :: k in m0 ==> !InBlocks(FreshSpans(plan), k)
    ensures PairwiseApart(FreshSpans(plan))
  {
  }

  /** Install every module as one transaction. A refused run leaves memory and reservations exactly as
      they were; a run that could not undo its hooks keeps every block, so that no branch enters freed
      memory; and at no moment does a finished hook enter a block without its whole payload. */
  method Install(p: Process, modules: seq<Module>, c: Context)
    returns (report: Report, ghost ready: seq<Ready>, ghost plan: seq<Prepared>)
    requires KeepsLength(c) && AllChecked(modules)
    modifies p
    ensures report.Refused? || report.AlreadyPatched? ==> p.mem == old(p.mem) && p.blocks == old(p.blocks)
    ensures report.Patched? || report.AlreadyPatched? ==>
      Installation(old(p.mem), p.mem, modules, c, ready, plan) && (report.Patched? <==> AnyNew(plan))
    ensures report.NotRestored? ==>
      && Planned(old(p.mem), modules, c, ready, plan)
      && Underway(old(p.mem), p.mem, plan) && Reserves(old(p.blocks), p.blocks, FreshSpans(plan))
    ensures !report.Refused? ==>
      InOneProcess(modules) && InAddressSpace(modules) && InNoOther(modules)
          && EachPasses(old(p.mem), modules, c, ready)
    ensures !FilesFit(modules) ==> report.Refused?
    ensures |old(p.trace)| <= |p.trace| && p.trace[..|old(p.trace)|] == old(p.trace)
    ensures Course(old(p.mem), p.trace, |old(p.trace)|, modules, c, ready, plan)
    ensures p.clean ==> old(p.clean) && !report.NotRestored?
    ensures p.clean && report.Refused? ==>
      Explained(old(p.mem), old(p.blocks), p.trace[|old(p.trace)|..], modules, c, ready, plan, report.error)
    ensures p.clean && (exists r :: Installed(old(p.mem), modules, c, r)) ==> report.AlreadyPatched?
  {
    hide EachReady, PlanOk, PlanLinked, PlanReused, Quiet, Preparing, HooksReady, Loaded, Safe, SameBut, Underway,
         Preflight, Holds, InBlocks, InSpans, Installation, PreparationFails, ModuleInstalled, AnyNew, LastFails,
         Reserved, InOneProcess, InAddressSpace, InNoOther, EachPasses, FilesFit, StopsAt, Targets;
    ready, plan := [], [];
    ghost var m0, b0, t0 := p.mem, p.blocks, |p.trace|;
    var targets := ValidateTargets(modules);
    if targets.Err? {
      assert !exists r :: Installed(m0, modules, c, r);
      return Refused(targets.error), ready, plan;
    }
    TargetsApart(modules);
    TargetsDecide(modules);
    var checked := CheckModules(p, modules, c);
    InstalledPassesPreflight(m0, modules, c);
    if checked.Err? {
      if p.clean {
        PreflightStops(m0, modules, c, checked.error);
      }
      return Refused(checked.error), ready, plan;
    }
    ready := checked.value;
    PreflightIsEach(m0, modules, c, checked.value);
    EachReadyPasses(m0, modules, c, checked.value);
    ReadyFits(m0, modules, c, checked.value);
    var failure, prepared := PrepareModules(p, modules, checked.value, c);
    plan := prepared;
    PlanSites(m0, modules, c, ready, plan);
    InstalledNeverFails(m0, b0, p.mem, p.blocks, modules, c, ready, plan);
    if failure.Some? {
      BlocksAreNew(m0, b0, p.mem, p.blocks, plan);
      ghost var m, trace := p.mem, p.trace;
      QuietMoments(m0, p.trace, t0, plan);
      GiveBack(p, prepared, m0, b0, t0);
      EndStaysIn(m0, m, trace, p.trace, t0);
      return Refused(failure.value), ready, plan;
    }
    report := Commit(p, modules, c, m0, b0, t0, ready, prepared);
    MomentsAreSafe(m0, p.trace, t0, plan);
  }

  lemma {:induction false} BlocksAreNew(m0: Mem, b0: map<nat, nat>, m: Mem, b: map<nat, nat>, plan: seq<Prepared>)
    requires Preparing(m0, b0, m, b, plan)
    ensures NewBlocks(m0, b0, FreshSpans(plan))
  {
  }

  lemma {:induction false} EndStaysIn(m0: Mem, m: Mem, a: seq<Mem>, b: seq<Mem>, start: nat)
    requires start <= |a| <= |b| && b[..|a|] == a && (m == m0 || EndsIn(a, start, m))
    ensures m == m0 || m in b[start..]
  {
    if m != m0 {
      assert b[start..][|a| - 1 - start] == b[..|a|][|a| - 1] == m;
    }
  }

  lemma {:induction false} InstalledPassesPreflight(m: Mem, modules: seq<Module>, c: Context)
    requires KeepsLength(c) && AllChecked(modules)
    ensures (exists r :: Installed(m, modules, c, r)) ==> Preflight(m, modules, c).Ok?
  {
    hide EachReady, ModuleInstalled, Preflight;
    if r :| Installed(m, modules, c, r) {
      PreflightIsEach(m, modules, c, r);
    }
  }

  /** When every module is installed there is nothing to reserve, and nothing preparing it can refuse. */
  lemma {:induction false} InstalledNeverFails(m0: Mem, b0: map<nat, nat>, m: Mem, b: map<nat, nat>,
                                               modules: seq<Module>, c: Context,
                            ready: seq<Ready>, plan: seq<Prepared>)
    requires KeepsLength(c) && AllChecked(modules) && EachReady(m0, modules, c, ready)
    requires PlanOk(modules, c, ready, plan) && Preparing(m0, b0, m, b, plan)
    ensures (exists r :: Installed(m0, modules, c, r)) ==> !AnyNew(plan)
    ensures (exists r :: Installed(m0, modules, c, r)) ==>
      forall e :: !LastFails(m, modules, c, ready, plan, e)
  {
    hide PreflightModule, LinkedFor, Quiet, ModuleInstalled, PreparationFails, Targets;
    if r :| Installed(m0, modules, c, r) {
      forall i | 0 <= i < |plan|
        ensures !plan[i].isNew && ModuleInstalled(m0, modules[i], c, ready[i])
          && plan[i].block == ready[i].installed.value
      {
        InstalledBlockIs(m0, modules[i], c, ready[i]);
        assert PreflightModule(m0, modules[i], c) == Ok(ready[i]) && PreflightModule(m0, modules[i], c) == Ok(r[i]);
        assert EntryOk(modules[i], c, ready[i], plan[i]);
      }
      NothingNew(plan);
      NothingExtended(m0, b0, m, b);
      hide EntryOk, EachReady, PlanOk, Preparing, FreshSpans, AnyNew;
      if plan != [] {
        var last := |plan| - 1;
        InstalledPrepares(m, modules[last], c, ready[last], plan[last]);
      }
    }
  }

  lemma {:induction false} InstalledBlockIs(m: Mem, x: Module, c: Context, r: Ready)
    requires KeepsLength(c)
    ensures ModuleInstalled(m, x, c, r) ==> r.installed.Some?
  {
    hide LinkModule;
  }

  lemma {:induction false} InstalledPrepares(m: Mem, x: Module, c: Context, r: Ready, q: Prepared)
    requires KeepsLength(c) && ModuleInstalled(m, x, c, r)
    requires r.installed.Some? && q.block == r.installed.value
    ensures forall e :: !PreparationFails(m, x, c, r, q, e)
  {
    hide LinkModule, CodeIntact, PlacedHold, Fits;
  }

  lemma {:induction false} ReadyFits(m: Mem, modules: seq<Module>, c: Context, ready: seq<Ready>)
    requires AllChecked(modules) && EachReady(m, modules, c, ready)
    ensures |ready| == |modules| && forall i :: 0 <= i < |modules| ==> Fits(modules[i], ready[i].layout)
  {
    forall i | 0 <= i < |modules|
      ensures Fits(modules[i], ready[i].layout)
    {
      ModuleChecks(m, modules[i], c, ready[i]);
    }
  }

  /** The fresh blocks released after a failure that left everything else as it was. */
  method GiveBack(p: Process, plan: seq<Prepared>, ghost m0: Mem, ghost b0: map<nat, nat>, ghost t0: nat)
    requires Preparing(m0, b0, p.mem, p.blocks, plan)
    requires t0 <= |p.trace| && Moments(m0, p.trace, t0, plan)
    modifies p
    ensures p.mem == m0 && p.blocks == b0
    ensures |old(p.trace)| <= |p.trace| && p.trace[..|old(p.trace)|] == old(p.trace)
    ensures Moments(m0, p.trace, t0, plan) && p.trace[..t0] == old(p.trace[..t0])
    ensures old(QuietSince(m0, p.trace, t0)) ==> QuietSince(m0, p.trace, t0)
    ensures p.clean == old(p.clean)
  {
    hide Preparing, Quiet, Moment;
    ghost var trace := p.trace;
    ReleaseBlocks(p, plan, m0, b0);
    QuietMoments(m0, p.trace, |trace|, plan);
    MomentsJoin(m0, trace, p.trace, t0, plan);
    if QuietSince(m0, trace, t0) {
      QuietJoin(m0, trace, p.trace, t0);
    }
  }

  /** The payloads and then the hooks of a prepared plan. */
  method Commit(p: Process, modules: seq<Module>, c: Context, ghost m0: Mem, ghost b0: map<nat, nat>, ghost t0: nat,
                ghost ready: seq<Ready>, plan: seq<Prepared>) returns (report: Report)
    requires KeepsLength(c) && AllChecked(modules) && Targets(modules).Ok? && RangesApart(modules)
    requires EachReady(m0, modules, c, ready) && PlanLinked(modules, c, ready, plan)
    requires Preparing(m0, b0, p.mem, p.blocks, plan) && HooksReady(m0, plan)
    requires PlanReused(p.mem, modules, ready, plan)
    requires t0 <= |p.trace| && QuietSince(m0, p.trace, t0)
    modifies p
    ensures report.Refused? || report.AlreadyPatched? ==> p.mem == m0 && p.blocks == b0
    ensures report.Patched? || report.AlreadyPatched? ==>
      Installation(m0, p.mem, modules, c, ready, plan) && (report.Patched? <==> AnyNew(plan))
    ensures report.NotRestored? ==> Underway(m0, p.mem, plan) && Reserves(b0, p.blocks, FreshSpans(plan))
    ensures t0 <= |p.trace| && p.trace[..t0] == old(p.trace[..t0]) && Moments(m0, p.trace, t0, plan)
    ensures p.clean ==> old(p.clean) && (report.Patched? || report.AlreadyPatched?)
  {
    hide EachReady, PlanLinked, PlanReused, Quiet, Preparing, HooksReady, Loaded, Safe, SameBut, Holds, InBlocks,
         InSpans, Installation, Moment, Underway, Targets;
    LinkedSized(modules, c, ready, plan);
    BlocksMapped(m0, b0, p.mem, p.blocks, plan);
    PreparingQuiet(m0, b0, p.mem, p.blocks, plan);
    ghost var mp, trace := p.mem, p.trace;
    QuietMoments(m0, trace, t0, plan);
    var failure := WritePayloads(p, plan, m0);
    ghost var m1, written := p.mem, p.trace;
    PreparingKept(m0, b0, mp, p.blocks, plan, m1);
    QuietMoments(m0, written, |trace|, plan);
    MomentsJoin(m0, trace, written, t0, plan);
    if failure.Some? {
      GiveBack(p, plan, m0, b0, t0);
      return Refused(failure.value);
    }
    HooksReadyKept(m0, m1, plan);
    PayloadsUnderway(m0, b0, m1, p.blocks, plan);
    var outcome := WriteHooks(p, plan);
    HookMoments(m0, m1, p.trace, |written|, plan);
    MomentsJoin(m0, written, p.trace, t0, plan);
    match outcome {
      case Done =>
        InstallationMade(m0, b0, mp, m1, p.mem, p.blocks, modules, c, ready, plan);
        if AnyNew(plan) {
          return Patched;
        }
        NothingNew(plan);
        UntouchedRun(m0, b0, m1, p.mem, p.blocks, plan);
        return AlreadyPatched;
      case Undone(error) =>
        GiveBack(p, plan, m0, b0, t0);
        return Refused(error);
      case Stuck(error) =>
        StuckKeeps(m0, b0, m1, p.mem, p.blocks, plan);
        KeptBlocks(p.mem, p.blocks, plan);
        ReleaseBlocks(p, Keep(plan), p.mem, p.blocks);
        return NotRestored(error);
    }
  }

  lemma {:induction false} PayloadsUnderway(m0: Mem, b0: map<nat, nat>, m: Mem, b: map<nat, nat>, plan: seq<Prepared>)
    requires Preparing(m0, b0, m, b, plan) && Loaded(m, plan)
    ensures Underway(m0, m, plan)
  {
    hide Loaded, NewBlocks;
  }

  lemma {:induction false} NothingNew(plan: seq<Prepared>)
    requires !AnyNew(plan)
    ensures FreshSpans(plan) == [] && FreshWrites(plan) == []
  {
    if plan != [] {
      assert !plan[0].isNew;
      forall i | 0 <= i < |plan[1..]|
        ensures !plan[1..][i].isNew
      {
        assert plan[i + 1] == plan[1..][i];
      }
      NothingNew(plan[1..]);
    }
  }

  lemma {:induction false} UntouchedRun(m0: Mem, b0: map<nat, nat>, m1: Mem, m2: Mem, b: map<nat, nat>,
                                        plan: seq<Prepared>)
    requires FreshSpans(plan) == [] && FreshWrites(plan) == []
    requires Preparing(m0, b0, m1, b, plan) && SameBut(m1, m2, FreshWrites(plan))
    ensures m2 == m0 && b == b0
  {
    NothingExtended(m0, b0, m1, b);
    assert m2 == m1;
  }

  lemma {:induction false} StuckKeeps(m0: Mem, b0: map<nat, nat>, m1: Mem, m2: Mem, b: map<nat, nat>,
                                      plan: seq<Prepared>)
    requires Preparing(m0, b0, m1, b, plan) && HooksReady(m0, plan) && Sized(plan) && Loaded(m1, plan)
    requires SameBut(m1, m2, FreshWrites(plan))
    ensures Underway(m0, m2, plan) && Reserves(b0, b, FreshSpans(plan))
  {
    hide InBlocks, InSpans, Loaded, HooksReady, Sized, NewBlocks;
    FreshIsUnmapped(m0, b0, m1, b, plan);
    LoadedKept(m0, m1, m2, plan);
    assert forall k :: k in m2 <==> k in m1;
  }

  lemma {:induction false} FreshIsUnmapped(m0: Mem, b0: map<nat, nat>, m1: Mem, b: map<nat, nat>, plan: seq<Prepared>)
    requires Preparing(m0, b0, m1, b, plan)
    ensures forall k :: k in m0 ==> !InBlocks(FreshSpans(plan), k)
  {
    hide FreshSpans;
  }

  lemma {:induction false} KeptBlocks(m: Mem, b: map<nat, nat>, plan: seq<Prepared>)
    ensures Preparing(m, b, m, b, Keep(plan))
  {
    NothingPrepared(m, b);
    assert FreshSpans(Keep(plan)) == FreshSpans([]);
  }

  lemma {:induction false} ReuseUntouched(mp: Mem, m: Mem, x: Module, l: Layout, q: Prepared)
    requires ReuseHolds(mp, x, l, q)
    requires forall k :: q.block <= k < q.block + |q.code| && k in mp ==> k in m && m[k] == mp[k]
    requires PlacedHold(m, q.writes).Ok?
    ensures ReuseHolds(m, x, l, q)
  {
    assert Read(m, q.block, |q.code|) == Read(mp, q.block, |q.code|) by {
      assert Mapped(mp, q.block, |q.code|);
      assert Peek(m, q.block, |q.code|) == Peek(mp, q.block, |q.code|);
    }
  }

  // ----- a reused module's hooks are still there

  /** A recovered block is really the module's: its identity header and every placed byte of every unit
      are in memory. */
  lemma {:induction false} RecoveredBlockHolds(m: Mem, x: Module, c: Context, r: Ready)
    requires Checked(x.payloads) && LayoutOf(x.payloads, c.describe) == Ok(r.layout) && Fits(x, r.layout)
    requires InstalledBlock(m, x, c) == Ok(r.installed) && r.installed.Some?
    ensures Holds(m, r.installed.value, r.layout.identity)
    ensures var placed := PlacedAll(x.payloads, r.layout.offsets, x.target.base, r.installed.value);
      placed.Ok? && PlacedHold(m, placed.value).Ok?
  {
    hide LayoutOf, CheckSpans, FindHook, PlacedHold, PlacedAll, UnitsHold, Read, Holds;
    var block := r.installed.value;
    assert Confirm(m, x, r.layout, block).Ok?;
    HoldsIsRead(m, block, r.layout.identity);
    UnitsHoldExactly(m, x.payloads, r.layout.offsets, x.target.base, block);
  }

  lemma {:induction false} PlacedHoldUntouched(m: Mem, m': Mem, placed: seq<Placed>)
    requires PlacedHold(m, placed).Ok?
    requires forall w, k :: w in placed && InSpan(w, k) && k in m ==> k in m' && m'[k] == m[k]
    ensures PlacedHold(m', placed).Ok?
  {
    if placed != [] {
      var w := placed[0];
      assert Mapped(m, w.address, |w.after|);
      forall k | w.address <= k < w.address + |w.after|
        ensures k in m' && m'[k] == m[k]
      {
        assert InSpan(w, k);
      }
      assert Peek(m', w.address, |w.after|) == Peek(m, w.address, |w.after|);
      PlacedHoldUntouched(m, m', placed[1..]);
    }
  }

  /** The sites of a reused module are not sites of a fresh one. */
  lemma {:induction false} ReusedSitesApart(m0: Mem, modules: seq<Module>, c: Context, ready: seq<Ready>,
                                            plan: seq<Prepared>, i: nat, w: Placed, k: nat)
    requires KeepsLength(c) && AllChecked(modules) && RangesApart(modules)
    requires EachReady(m0, modules, c, ready) && PlanLinked(modules, c, ready, plan)
    requires i < |plan| && !plan[i].isNew && w in plan[i].writes && InSpan(w, k)
    ensures !InSpans(FreshWrites(plan), k)
  {
    LinkedIsOk(modules, c, ready, plan);
    hide PreflightModule, LinkedFor, HooksReady, PlanOk;
    PlanSites(m0, modules, c, ready, plan);
    ModuleSites(m0, modules[i], c, ready[i], plan[i]);
    hide EachReady, PlanLinked, AllLandOver;
    forall v | v in FreshWrites(plan)
      ensures !InSpan(v, k)
    {
      var j :| 0 <= j < |plan| && plan[j].isNew && v in plan[j].writes && Within(v, modules[j]);
      OtherModule(modules, i, j, w, v, k);
    }
  }

  lemma {:induction false} OtherModule(modules: seq<Module>, i: nat, j: nat, w: Placed, v: Placed, k: nat)
    requires RangesApart(modules) && i < |modules| && j < |modules| && i != j
    requires Within(w, modules[i]) && Within(v, modules[j]) && InSpan(w, k)
    ensures !InSpan(v, k)
  {
    var a, b := if i < j then i else j, if i < j then j else i;
    assert Apart(Ranges(modules)[a], Ranges(modules)[b]);
  }

  lemma {:induction false} LinkedIsOk(modules: seq<Module>, c: Context, ready: seq<Ready>, plan: seq<Prepared>)
    requires KeepsLength(c) && PlanLinked(modules, c, ready, plan)
    ensures PlanOk(modules, c, ready, plan)
  {
  }

  lemma {:induction false} ReusedHooksHold(m0: Mem, m2: Mem, modules: seq<Module>, c: Context, ready: seq<Ready>,
                                           plan: seq<Prepared>, i: nat)
    requires KeepsLength(c) && AllChecked(modules) && RangesApart(modules)
    requires EachReady(m0, modules, c, ready) && PlanLinked(modules, c, ready, plan)
    requires forall k :: k in m0 && !InSpans(FreshWrites(plan), k) ==> k in m2 && m2[k] == m0[k]
    requires i < |plan| && !plan[i].isNew
    ensures PlacedHold(m2, plan[i].writes).Ok?
  {
    var x, r, q := modules[i], ready[i], plan[i];
    assert LinkedFor(x, c, r, q) && PreflightModule(m0, x, c) == Ok(r);
    ModuleChecks(m0, x, c, r);
    ModulePlaced(x, c, r, q);
    hide PreflightModule, InSpans, LinkedFor, PlanLinked, EachReady;
    RecoveredBlockHolds(m0, x, c, r);
    forall w, k | w in q.writes && InSpan(w, k) && k in m0
      ensures k in m2 && m2[k] == m0[k]
    {
      ReusedSitesApart(m0, modules, c, ready, plan, i, w, k);
    }
    PlacedHoldUntouched(m0, m2, q.writes);
  }

  lemma {:induction false} InstallationMade(m0: Mem, b0: map<nat, nat>, mp: Mem, m1: Mem, m2: Mem, b: map<nat, nat>,
                                            modules: seq<Module>,
                         c: Context, ready: seq<Ready>, plan: seq<Prepared>)
    requires KeepsLength(c) && AllChecked(modules) && Targets(modules).Ok? && RangesApart(modules)
    requires EachReady(m0, modules, c, ready) && PlanLinked(modules, c, ready, plan)
    requires Preparing(m0, b0, mp, b, plan) && Preparing(m0, b0, m1, b, plan) && HooksReady(m0, plan)
    requires PlanReused(mp, modules, ready, plan)
    requires Sized(plan) && Loaded(m1, plan) && SameBut(m1, m2, FreshWrites(plan))
    requires forall w :: w in FreshWrites(plan) ==> Holds(m2, w.address, w.after)
    ensures Installation(m0, m2, modules, c, ready, plan)
  {
    hide EachReady, PlanLinked, PlanReused, HooksReady, Loaded, InBlocks, InSpans, ReuseHolds, ReuseApart, Preparing,
         SameBut, Holds;
    StuckKeeps(m0, b0, m1, m2, b, plan);
    BlocksMapped(m0, b0, mp, b, plan);
    PlanLengths(modules, c, ready, plan);
    forall i | 0 <= i < |plan| && !plan[i].isNew && ReuseApart(plan, i)
      ensures ReuseHolds(m2, modules[i], ready[i].layout, plan[i])
    {
      ReusedHooksHold(m0, m2, modules, c, ready, plan, i);
      ReuseStays(m0, b0, mp, m2, b, modules, ready, plan, i);
    }
  }

  lemma {:induction false} PlanLengths(modules: seq<Module>, c: Context, ready: seq<Ready>, plan: seq<Prepared>)
    requires KeepsLength(c) && PlanLinked(modules, c, ready, plan)
    ensures |plan| == |modules| == |ready|
  {
  }

  lemma {:induction false} ReuseStays(m0: Mem, b0: map<nat, nat>, mp: Mem, m2: Mem, b: map<nat, nat>,
                                      modules: seq<Module>, ready: seq<Ready>, plan: seq<Prepared>, i: nat)
    requires |plan| == |modules| == |ready| && Preparing(m0, b0, mp, b, plan) && Maps(m0, m2, FreshSpans(plan))
      && Sized(plan)
    requires forall k :: k in m0 && !InSpans(FreshWrites(plan), k) ==> k in m2 && m2[k] == m0[k]
    requires i < |plan| && !plan[i].isNew && ReuseApart(plan, i) && PlanReused(mp, modules, ready, plan)
    requires PlacedHold(m2, plan[i].writes).Ok?
    ensures ReuseHolds(m2, modules[i], ready[i].layout, plan[i])
  {
    hide InBlocks, InSpans, ReuseHolds, PlacedHold;
    assert ReuseHolds(mp, modules[i], ready[i].layout, plan[i]);
    forall k | plan[i].block <= k < plan[i].block + |plan[i].code| && k in mp
      ensures k in m2 && m2[k] == mp[k]
    {
      assert !InBlocks(FreshSpans(plan), k) && k in m0;
    }
    ReuseUntouched(mp, m2, modules[i], ready[i].layout, plan[i]);
  }

  // ----- what a hook enters

  /** What is placed for `w` is its branch, at its site; executed there it lands at `to`. */
  predicate LeadsTo(p: Placed, w: Write, base: nat, to: nat)
    requires !w.kind.Edit?
  {
    && p.address == base + w.rva && |p.after| >= 5
    && p.after[0] == (if w.kind.Jmp? then 0xe9 else 0xe8) && p.address + 5 + I32(p.after[1..5]) == to
  }

  /** Write `i` of unit `u`, counted through the whole module. */
  function WriteIndex(payloads: seq<Payload>, u: nat, i: nat): nat
    requires u <= |payloads|
  {
    |WritesOf(payloads[..u])| + i
  }

  lemma {:induction false} PlacedAllAt(payloads: seq<Payload>, offsets: seq<nat>, base: nat, block: nat, u: nat, i: nat)
    requires |offsets| == |payloads| && PlacedAll(payloads, offsets, base, block).Ok?
    requires u < |payloads| && i < |payloads[u].unit.writes|
    ensures var placed, writes, n := PlacedAll(payloads, offsets, base, block).value, WritesOf(payloads),
        WriteIndex(payloads, u, i);
      && n < |placed| && n < |writes| && writes[n] == payloads[u].unit.writes[i]
      && PlacedWrite(writes[n], base, block + offsets[u]) == Ok(placed[n])
  {
    hide PlacedWrite, PlacedFrom, WritesOf, WriteIndex;
    var first, rest := PlacedWrites(payloads[0].unit, base, block + offsets[0]).value,
        PlacedAll(payloads[1..], offsets[1..], base, block).value;
    IndexCons(payloads, u, i);
    if u > 0 {
      PlacedAllAt(payloads[1..], offsets[1..], base, block, u - 1, i);
      InSecond(first, rest, WriteIndex(payloads[1..], u - 1, i));
      InSecond(payloads[0].unit.writes, WritesOf(payloads[1..]), WriteIndex(payloads[1..], u - 1, i));
    } else {
      InFirst(first, rest, i);
      InFirst(payloads[0].unit.writes, WritesOf(payloads[1..]), i);
    }
  }

  lemma {:induction false} InFirst<T>(a: seq<T>, b: seq<T>, i: nat)
    requires i < |a|
    ensures (a + b)[i] == a[i]
  {
  }

  lemma {:induction false} InSecond<T>(a: seq<T>, b: seq<T>, i: nat)
    requires i < |b|
    ensures (a + b)[|a| + i] == b[i]
  {
  }

  lemma {:induction false} IndexCons(payloads: seq<Payload>, u: nat, i: nat)
    requires payloads != [] && u <= |payloads|
    ensures WritesOf(payloads) == payloads[0].unit.writes + WritesOf(payloads[1..])
    ensures u == 0 ==> WriteIndex(payloads, u, i) == i
    ensures u > 0 ==> WriteIndex(payloads, u, i) == |payloads[0].unit.writes| + WriteIndex(payloads[1..], u - 1, i)
  {
    if u > 0 {
      assert payloads[..u][0] == payloads[0] && payloads[..u][1..] == payloads[1..][..u - 1];
    }
  }

  lemma {:induction false} PlacedLeads(w: Write, unitBytes: nat, base: nat, at: nat)
    requires WriteFits(w, unitBytes) && !w.kind.Edit? && PlacedWrite(w, base, at).Ok?
    ensures LeadsTo(PlacedWrite(w, base, at).value, w, base, at + w.entry) && w.entry < unitBytes
  {
    var p := PlacedWrite(w, base, at).value;
    assert p.after[1..5] == Rel32(base + w.rva + 5, at + w.entry).value;
  }

  lemma {:induction false} CheckedWrite(u: Unit, i: nat)
    requires Check(u) && i < |u.writes|
    ensures WriteFits(u.writes[i], u.unitBytes)
  {
  }

  lemma {:induction false} AllLandLength(placed: seq<Placed>, base: nat, writes: seq<Write>)
    requires AllLandOver(placed, base, writes)
    ensures |placed| == |writes|
  {
  }

  /** The branch of write `i` of unit `u`. */
  lemma {:induction false} HookPlaced(x: Module, c: Context, r: Ready, q: Prepared, u: nat, i: nat)
    requires KeepsLength(c) && Checked(x.payloads) && LinkedFor(x, c, r, q) && |r.layout.offsets| == |x.payloads|
    requires u < |x.payloads| && i < |x.payloads[u].unit.writes| && !x.payloads[u].unit.writes[i].kind.Edit?
    ensures var n, w := WriteIndex(x.payloads, u, i), x.payloads[u].unit.writes[i];
      && n < |q.writes| == |WritesOf(x.payloads)| && WritesOf(x.payloads)[n] == w
      && LeadsTo(q.writes[n], w, x.target.base, q.block + r.layout.offsets[u] + w.entry)
      && w.entry < x.payloads[u].unit.unitBytes
  {
    hide LinkedFor, PlacedAll, PlacedWrite, LeadsTo, WriteFits, WritesOf, WriteIndex, AllLandOver, Check;
    ModulePlaced(x, c, r, q);
    AllLandLength(q.writes, x.target.base, WritesOf(x.payloads));
    PlacedAllAt(x.payloads, r.layout.offsets, x.target.base, q.block, u, i);
    CheckedWrite(x.payloads[u].unit, i);
    PlacedLeads(x.payloads[u].unit.writes[i], x.payloads[u].unit.unitBytes, x.target.base,
                q.block + r.layout.offsets[u]);
  }

  lemma {:induction false} LinkedShape(x: Module, c: Context, r: Ready, q: Prepared)
    requires KeepsLength(c) && LinkedFor(x, c, r, q)
    ensures Fits(x, r.layout) && |r.layout.offsets| == |x.payloads|
    ensures LinkModule(x, r.layout, q.block, c) == Ok(Linked(q.code, q.writes))
  {
  }

  /** The branch of a linked module leads to its own entry of its own unit, and there the whole linked code of
      that unit stands. */
  lemma {:induction false} HookEntersItsUnit(x: Module, c: Context, r: Ready, q: Prepared, u: nat, i: nat)
    requires KeepsLength(c) && Checked(x.payloads) && LinkedFor(x, c, r, q)
    requires LayoutOf(x.payloads, c.describe) == Ok(r.layout)
    requires u < |x.payloads| && i < |x.payloads[u].unit.writes| && !x.payloads[u].unit.writes[i].kind.Edit?
    ensures |r.layout.offsets| == |x.payloads|
    ensures var w, n := x.payloads[u].unit.writes[i], WriteIndex(x.payloads, u, i);
      && n < |q.writes| == |WritesOf(x.payloads)| && WritesOf(x.payloads)[n] == w
      && LeadsTo(q.writes[n], w, x.target.base, q.block + r.layout.offsets[u] + w.entry)
      && w.entry < x.payloads[u].unit.unitBytes
    ensures UnitStands(x, r.layout, q.block, c, q.code, u)
  {
    hide LayoutOf, LinkedFor, LinkUnit, LinkModule, LeadsTo, WritesOf, WriteIndex, Check, Fits, UnitStands;
    LinkedShape(x, c, r, q);
    HookPlaced(x, c, r, q, u, i);
    LinkedUnitStands(x, r.layout, q.block, c, u);
  }

  /** In memory `m`, the branch at the site of write `i` of unit `u` leads to its own entry of its own unit, and the
      whole linked code of that unit is there. */
  ghost predicate EntersUnit(m: Mem, x: Module, c: Context, r: Ready, q: Prepared, u: nat, i: nat)
    requires |r.layout.offsets| == |x.payloads| && u < |x.payloads| && i < |x.payloads[u].unit.writes|
    requires Check(x.payloads[u].unit) && !x.payloads[u].unit.writes[i].kind.Edit?
  {
    var p, w, offset := x.payloads[u], x.payloads[u].unit.writes[i], r.layout.offsets[u];
    var unit, site := LinkUnit(p, x.target.base, q.block + offset, q.block + r.layout.ring, c), x.target.base + w.rva;
    && Mapped(m, site, 5) && m[site] == (if w.kind.Jmp? then 0xe9 else 0xe8)
    && site + 5 + I32(Peek(m, site + 1, 4)) == q.block + offset + w.entry && w.entry < p.unit.unitBytes
    && unit.Ok? && |unit.value| == p.unit.unitBytes && Holds(m, q.block + offset, unit.value)
  }

  lemma {:induction false} StandingEnters(m: Mem, x: Module, c: Context, r: Ready, q: Prepared, u: nat, i: nat,
                                          p: Placed)
    requires |r.layout.offsets| == |x.payloads| && u < |x.payloads| && i < |x.payloads[u].unit.writes|
    requires Check(x.payloads[u].unit) && !x.payloads[u].unit.writes[i].kind.Edit?
    requires UnitStands(x, r.layout, q.block, c, q.code, u) && Holds(m, q.block, q.code)
    requires Holds(m, p.address, p.after) && x.payloads[u].unit.writes[i].entry < x.payloads[u].unit.unitBytes
    requires var w := x.payloads[u].unit.writes[i];
      LeadsTo(p, w, x.target.base, q.block + r.layout.offsets[u] + w.entry)
    ensures EntersUnit(m, x, c, r, q, u, i)
  {
    hide LinkUnit, Check, Holds, LeadsTo, Peek, Mapped;
    var load, w, offset := x.payloads[u], x.payloads[u].unit.writes[i], r.layout.offsets[u];
    BranchInMemory(m, p, w, x.target.base, q.block + offset + w.entry);
    SliceHolds(m, q.block, q.code, offset, load.unit.unitBytes);
  }

  lemma {:induction false} BranchInMemory(m: Mem, p: Placed, w: Write, base: nat, to: nat)
    requires !w.kind.Edit? && LeadsTo(p, w, base, to) && Holds(m, p.address, p.after)
    ensures var site := base + w.rva;
      && Mapped(m, site, 5) && m[site] == (if w.kind.Jmp? then 0xe9 else 0xe8)
      && Mapped(m, site + 1, 4) && site + 5 + I32(Peek(m, site + 1, 4)) == to
  {
    var site := base + w.rva;
    assert forall k :: site <= k < site + 5 ==> k in m && m[k] == p.after[k - site];
    assert Peek(m, site + 1, 4) == p.after[1..5];
  }

  lemma {:induction false} SliceHolds(m: Mem, a: nat, data: seq<byte>, start: nat, n: nat)
    requires Holds(m, a, data) && start + n <= |data|
    ensures Holds(m, a + start, data[start..start + n])
  {
    forall k | a + start <= k < a + start + n
      ensures k in m && m[k] == data[start..start + n][k - a - start]
    {
      assert data[start..start + n][k - a - start] == data[k - a];
    }
  }

  /** At every moment of a run either no byte of before differs, or each finished branch of a module that was not
      installed leads, in that memory, to its own entry in the whole linked code of its own unit. */
  lemma {:induction false} FinishedBranchEnters(m0: Mem, trace: seq<Mem>, start: nat, modules: seq<Module>, c: Context,
                                                ready: seq<Ready>, plan: seq<Prepared>, t: nat, x: nat, u: nat, i: nat)
    requires KeepsLength(c) && AllChecked(modules) && Course(m0, trace, start, modules, c, ready, plan)
    requires start <= t < |trace| && x < |modules| && u < |modules[x].payloads|
    requires i < |modules[x].payloads[u].unit.writes| && !modules[x].payloads[u].unit.writes[i].kind.Edit?
    ensures Quiet(m0, trace[t])
         || (var n := WriteIndex(modules[x].payloads, u, i);
             && |plan| == |modules| == |ready| && n < |plan[x].writes|
             && |ready[x].layout.offsets| == |modules[x].payloads|
             && ((plan[x].isNew && Armed(trace[t], plan[x].writes[n]))
                 ==> EntersUnit(trace[t], modules[x], c, ready[x], plan[x], u, i)))
  {
    hide Quiet, PreflightModule, LinkedFor, HooksReady, Moments, Armed, Holds, UnitStands, EntersUnit, LeadsTo,
         LayoutOf, WriteIndex, WritesOf, Check, Fits;
    if !Quiet(m0, trace[t]) {
      var q, r, n := plan[x], ready[x], WriteIndex(modules[x].payloads, u, i);
      assert LinkedFor(modules[x], c, r, q) && PreflightModule(m0, modules[x], c) == Ok(r);
      ModuleChecks(m0, modules[x], c, r);
      HookEntersItsUnit(modules[x], c, r, q, u, i);
      if q.isNew && Armed(trace[t], q.writes[n]) {
        assert q.writes[n] in q.writes;
        assert Safe(trace[t], plan);
        ArmedHolds(trace[t], q.writes[n]);
        StandingEnters(trace[t], modules[x], c, r, q, u, i, q.writes[n]);
      }
    }
  }

  lemma {:induction false} ArmedHolds(m: Mem, w: Placed)
    requires Armed(m, w)
    ensures Holds(m, w.address, w.after)
  {
  }
}
