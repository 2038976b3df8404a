/** Running the installer again (crates/core/src/unit_apply.rs): whatever the hooks did to their cells
    and to the trace ring since, the second run finds everything installed. */
module Repeat {
  import opened Outcome
  import opened Bytes
  import opened Memory
  import opened Units
  import opened Spans
  import opened Layouts
  import opened Recovery
  import opened Checks
  import opened Transaction
  import opened Phases
  import opened Apply

  // ----- what a run changes

  /** Only a module that was not installed is changed, and only at its sites: when one of two modules was installed,
      no byte of it differs after the run. */
  lemma {:induction false} OnlyNewModulesChange(m0: Mem, m1: Mem, modules: seq<Module>, c: Context, ready: seq<Ready>,
                                                plan: seq<Prepared>, k: nat)
    requires KeepsLength(c) && AllChecked(modules) && Installation(m0, m1, modules, c, ready, plan)
    requires k in m0 && m1[k] != m0[k]
    ensures exists i ::
      && 0 <= i < |modules| == |ready| == |plan| && ready[i].installed.None? && InSpans(plan[i].writes, k)
      && modules[i].target.base <= k < modules[i].target.base + modules[i].target.size
  {
    hide PreflightModule, Fits, LinkModule, FreshSpans, FreshWrites, Targets, HooksReady, PlanOk;
    TargetsApart(modules);
    LinkedIsOk(modules, c, ready, plan);
    PlanSites(m0, modules, c, ready, plan);
    assert InSpans(FreshWrites(plan), k);
    var w :| w in FreshWrites(plan) && InSpan(w, k);
    var i :| 0 <= i < |plan| && plan[i].isNew && w in plan[i].writes && Within(w, modules[i]);
    assert LinkedFor(modules[i], c, ready[i], plan[i]);
    assert InSpans(plan[i].writes, k);
  }

  // ----- what hooks may change

  predicate InUnitCells(cells: seq<Cell>, offset: nat, k: int) {
    exists c :: c in cells && offset + c.offset <= k < offset + c.offset + c.bytes
  }

  predicate InCells(payloads: seq<Payload>, offsets: seq<nat>, k: int)
    requires |offsets| == |payloads|
  {
    exists i :: 0 <= i < |payloads| && InUnitCells(payloads[i].unit.cells, offsets[i], k)
  }

  /** Offset `k` of a block belongs to a named cell or to the trace ring. */
  predicate Mutable(x: Module, l: Layout, k: int)
    requires |l.offsets| == |x.payloads|
  {
    l.ring <= k || InCells(x.payloads, l.offsets, k)
  }

  // ----- splicing the cells back

  lemma {:induction false} SpliceCellsMeaning(now: seq<byte>, code: seq<byte>, cells: seq<Cell>, offset: nat, k: nat)
    requires |now| == |code| && k < |code|
    requires forall i :: 0 <= i < |cells| ==> offset + cells[i].offset + cells[i].bytes <= |code|
    ensures SpliceCells(now, code, cells, offset)[k] == if InUnitCells(cells, offset, k) then code[k] else now[k]
    decreases cells
  {
    if cells != [] {
      var c := cells[0];
      var at := offset + c.offset;
      var next := Put(now, at, code[at..at + c.bytes]);
      SpliceCellsMeaning(next, code, cells[1..], offset, k);
      if at <= k < at + c.bytes {
        assert next[k] == next[at..at + c.bytes][k - at] == code[k];
        assert c in cells;
      } else if InUnitCells(cells, offset, k) {
        var d :| d in cells && offset + d.offset <= k < offset + d.offset + d.bytes;
        assert d in cells[1..];
      }
    }
  }

  lemma {:induction false} InCellsCons(payloads: seq<Payload>, offsets: seq<nat>, k: int)
    requires |offsets| == |payloads| > 0
    ensures InCells(payloads, offsets, k)
       <==> InUnitCells(payloads[0].unit.cells, offsets[0], k) || InCells(payloads[1..], offsets[1..], k)
  {
    hide InUnitCells;
    if InCells(payloads, offsets, k) && !InUnitCells(payloads[0].unit.cells, offsets[0], k) {
      var i :| 0 <= i < |payloads| && InUnitCells(payloads[i].unit.cells, offsets[i], k);
      assert payloads[1..][i - 1] == payloads[i] && offsets[1..][i - 1] == offsets[i];
    }
    if InCells(payloads[1..], offsets[1..], k) {
      var i :| 0 <= i < |payloads[1..]| && InUnitCells(payloads[1..][i].unit.cells, offsets[1..][i], k);
      assert payloads[1..][i] == payloads[i + 1] && offsets[1..][i] == offsets[i + 1];
    }
  }

  lemma {:induction false} SpliceUnitsMeaning(now: seq<byte>, code: seq<byte>, payloads: seq<Payload>,
                                              offsets: seq<nat>, k: nat)
    requires |now| == |code| && UnitsFit(payloads, offsets, |code|) && k < |code|
    ensures SpliceUnits(now, code, payloads, offsets)[k] == if InCells(payloads, offsets, k) then code[k] else now[k]
    decreases payloads
  {
    hide InCells, InUnitCells;
    if payloads == [] {
      NoCells(k);
    } else {
      InCellsCons(payloads, offsets, k);
      var next := SpliceCells(now, code, payloads[0].unit.cells, offsets[0]);
      SpliceCellsMeaning(now, code, payloads[0].unit.cells, offsets[0], k);
      SpliceUnitsMeaning(next, code, payloads[1..], offsets[1..], k);
    }
  }

  lemma {:induction false} NoCells(k: int)
    ensures !InCells([], [], k)
  {
  }

  /** A byte of the block with the cells and the ring spliced in from the linked code. */
  lemma {:induction false} SplicedByte(m: Mem, x: Module, l: Layout, block: nat, code: seq<byte>, k: nat)
    requires Fits(x, l) && |code| == l.bytes && Mapped(m, block, |code|) && k < |code|
    ensures l.ring <= |code|
    ensures var ringed := Put(Peek(m, block, |code|), l.ring, code[l.ring..]);
            var spliced := SpliceUnits(ringed, code, x.payloads, l.offsets);
            |spliced| == |code| && spliced[k] == if Mutable(x, l, k) then code[k] else m[block + k]
  {
    var ringed := Put(Peek(m, block, |code|), l.ring, code[l.ring..]);
    SpliceUnitsMeaning(ringed, code, x.payloads, l.offsets, k);
    if l.ring <= k {
      assert ringed[k] == ringed[l.ring..l.ring + |code[l.ring..]|][k - l.ring];
    }
  }

  /** The code check passes exactly when the mapped block is as linked outside its cells and the ring. */
  lemma {:induction false} CodeIntactMeaning(m: Mem, x: Module, l: Layout, block: nat, code: seq<byte>)
    requires Fits(x, l) && |code| == l.bytes
    ensures CodeIntact(m, x, l, block, code).Ok?
       <==> (Mapped(m, block, |code|)
             && forall k :: 0 <= k < |code| && !Mutable(x, l, k) ==> m[block + k] == code[k])
  {
    if Mapped(m, block, |code|) {
      var now := Peek(m, block, |code|);
      var ringed := Put(now, l.ring, code[l.ring..]);
      var spliced := SpliceUnits(ringed, code, x.payloads, l.offsets);
      forall k | 0 <= k < |code|
        ensures spliced[k] == if Mutable(x, l, k) then code[k] else m[block + k]
      {
        SplicedByte(m, x, l, block, code, k);
      }
      if spliced == code {
        forall k | 0 <= k < |code| && !Mutable(x, l, k)
          ensures m[block + k] == code[k]
        {
          assert spliced[k] == code[k];
        }
      }
    }
  }

  // ----- finding the block again

  /** The site of a write that was placed for `block` leads back to it, unless nothing changed there. */
  lemma {:induction false} PlacedSiteRecovers(m: Mem, w: Write, unitBytes: nat, base: nat, block: nat, offset: nat)
    requires WriteFits(w, unitBytes) && PlacedWrite(w, base, block + offset).Ok?
    requires block + offset + w.entry < WORD64
    requires var placed := PlacedWrite(w, base, block + offset).value; Holds(m, placed.address, placed.after)
    ensures SiteBlock(m, w, base, offset)
         == Ok(if !w.kind.Edit? && PlacedWrite(w, base, block + offset).value.after != w.before
               then Some(block) else None)
  {
    hide PlacedWrite, RecoveredBlock, Holds, Read, WriteFits;
    var placed := PlacedWrite(w, base, block + offset).value;
    PlacedKeepsLength(w, unitBytes, base, block + offset);
    if !w.kind.Edit? {
      RecoveryInvertsPlacement(w, unitBytes, base, block, offset);
      HoldsIsRead(m, placed.address, placed.after);
    }
  }

  predicate Telling(w: Write, p: Placed) {
    !w.kind.Edit? && p.after != w.before
  }

  /** Some branch of the module changes its site. */
  predicate AnyTelling(writes: seq<Write>, placed: seq<Placed>)
    requires |writes| == |placed|
  {
    exists i :: 0 <= i < |writes| && Telling(writes[i], placed[i])
  }

  lemma {:induction false} PlacedWritesRecover(m: Mem, writes: seq<Write>, unitBytes: nat, base: nat, block: nat,
                                               offset: nat)
    requires forall i :: 0 <= i < |writes| ==> WriteFits(writes[i], unitBytes)
    requires PlacedFrom(writes, base, block + offset).Ok? && block + offset + unitBytes <= WORD64
    requires forall p :: p in PlacedFrom(writes, base, block + offset).value ==> Holds(m, p.address, p.after)
    ensures FindInWrites(m, writes, base, offset)
         == Ok(if AnyTelling(writes, PlacedFrom(writes, base, block + offset).value) then Some(block) else None)
  {
    hide SiteBlock, PlacedWrite, Holds, Telling;
    if writes != [] {
      var w := writes[0];
      var placed := PlacedFrom(writes, base, block + offset).value;
      var rest := PlacedFrom(writes[1..], base, block + offset).value;
      assert placed == [placed[0]] + rest;
      assert placed[0] in placed;
      PlacedWritesRecover(m, writes[1..], unitBytes, base, block, offset);
      if w.kind.Edit? {
        assert PlacedWrite(w, base, block + offset).Ok?;
        EditIsSilent(m, w, base, offset, placed[0]);
      } else {
        PlacedSiteRecovers(m, w, unitBytes, base, block, offset);
        TellingMeans(w, placed[0]);
      }
      AnyTellingCons(writes, placed);
    }
  }

  lemma {:induction false} EditIsSilent(m: Mem, w: Write, base: nat, offset: nat, p: Placed)
    requires w.kind.Edit?
    ensures SiteBlock(m, w, base, offset) == Ok(None) && !Telling(w, p)
  {
  }

  lemma {:induction false} TellingMeans(w: Write, p: Placed)
    ensures Telling(w, p) <==> !w.kind.Edit? && p.after != w.before
  {
  }

  lemma {:induction false} AnyTellingCons(writes: seq<Write>, placed: seq<Placed>)
    requires |writes| == |placed| > 0
    ensures AnyTelling(writes, placed) <==> Telling(writes[0], placed[0]) || AnyTelling(writes[1..], placed[1..])
  {
    hide Telling;
    if AnyTelling(writes, placed) && !Telling(writes[0], placed[0]) {
      var i :| 0 <= i < |writes| && Telling(writes[i], placed[i]);
      assert writes[1..][i - 1] == writes[i] && placed[1..][i - 1] == placed[i];
    }
    if AnyTelling(writes[1..], placed[1..]) {
      var i :| 0 <= i < |writes[1..]| && Telling(writes[1..][i], placed[1..][i]);
      assert writes[1..][i] == writes[i + 1] && placed[1..][i] == placed[i + 1];
    }
  }

  lemma {:induction false} AnyTellingAppend(a: seq<Write>, b: seq<Write>, p: seq<Placed>, q: seq<Placed>)
    requires |a| == |p| && |b| == |q|
    ensures AnyTelling(a + b, p + q) <==> AnyTelling(a, p) || AnyTelling(b, q)
  {
    hide Telling;
    if AnyTelling(a + b, p + q) {
      var i :| 0 <= i < |a + b| && Telling((a + b)[i], (p + q)[i]);
      if i < |a| {
        assert Telling(a[i], p[i]);
      } else {
        assert Telling(b[i - |a|], q[i - |a|]);
      }
    }
    if AnyTelling(a, p) {
      var i :| 0 <= i < |a| && Telling(a[i], p[i]);
      assert Telling((a + b)[i], (p + q)[i]);
    }
    if AnyTelling(b, q) {
      var i :| 0 <= i < |b| && Telling(b[i], q[i]);
      assert Telling((a + b)[|a| + i], (p + q)[|a| + i]);
    }
  }

  /** With every placed byte in memory, the first branch that changed its site leads back to the block. */
  lemma {:induction false} PlacedModuleRecovers(m: Mem, payloads: seq<Payload>, offsets: seq<nat>, base: nat,
                                                block: nat, size: nat)
    requires UnitsFit(payloads, offsets, size) && block + size <= WORD64
    requires PlacedAll(payloads, offsets, base, block).Ok?
    requires forall p :: p in PlacedAll(payloads, offsets, base, block).value ==> Holds(m, p.address, p.after)
    requires |PlacedAll(payloads, offsets, base, block).value| == |WritesOf(payloads)|
    ensures FindHook(m, payloads, offsets, base)
         == Ok(if AnyTelling(WritesOf(payloads), PlacedAll(payloads, offsets, base, block).value)
               then Some(block) else None)
  {
    hide FindInWrites, Holds, AnyTelling;
    if payloads == [] {
      NoneTelling();
    } else {
      var u := payloads[0].unit;
      var first := PlacedWrites(u, base, block + offsets[0]).value;
      var rest := PlacedAll(payloads[1..], offsets[1..], base, block).value;
      assert PlacedAll(payloads, offsets, base, block).value == first + rest;
      PlacedWritesRecover(m, u.writes, u.unitBytes, base, block, offsets[0]);
      PlacedModuleRecovers(m, payloads[1..], offsets[1..], base, block, size);
      AnyTellingAppend(u.writes, WritesOf(payloads[1..]), first, rest);
    }
  }

  lemma {:induction false} NoneTelling()
    ensures !AnyTelling([], [])
  {
  }

  /** A module linked into `q`, its placed bytes and its code outside the mutable bytes in memory, is found at
      `q.block` when some branch tells, and not found otherwise. */
  lemma {:induction false} ModuleRecovers(m: Mem, x: Module, c: Context, r: Ready, q: Prepared)
    requires KeepsLength(c) && Checked(x.payloads) && LinkedFor(x, c, r, q) && q.block + q.size <= WORD64
    requires CheckSpans(x.payloads, x.target.size).Ok? && LayoutOf(x.payloads, c.describe) == Ok(r.layout)
    requires PlacedHold(m, q.writes).Ok? && CodeIntact(m, x, r.layout, q.block, q.code).Ok?
    ensures InstalledBlock(m, x, c) == Ok(if Hooked(x, q) then Some(q.block) else None)
  {
    hide LinkedFor, CodeIntact, Mutable, PlacedHold, Holds, LayoutOf, CheckSpans, WritesOf, AnyTelling, FindHook,
         PlacedAll, Confirm, UnitsFit, AllLandOver;
    var l := r.layout;
    LinkedFits(x, c, r, q);
    ModulePlaced(x, c, r, q);
    AllLandLength(q.writes, x.target.base, WritesOf(x.payloads));
    PlacedHoldMeaning(m, q.writes);
    CodeIntactMeaning(m, x, l, q.block, q.code);
    HeaderHolds(m, x, l, q);
    ConfirmHolds(m, x, l, q);
    PlacedModuleRecovers(m, x.payloads, l.offsets, x.target.base, q.block, l.ring);
  }

  lemma {:induction false} LinkedFits(x: Module, c: Context, r: Ready, q: Prepared)
    requires KeepsLength(c) && LinkedFor(x, c, r, q)
    ensures Fits(x, r.layout) && q.size == r.layout.bytes == |q.code| && r.layout.ring <= q.size
  {
  }

  lemma {:induction false} ConfirmHolds(m: Mem, x: Module, l: Layout, q: Prepared)
    requires Fits(x, l) && Holds(m, q.block, l.identity) && PlacedHold(m, q.writes).Ok?
    requires PlacedAll(x.payloads, l.offsets, x.target.base, q.block) == Ok(q.writes)
    ensures Confirm(m, x, l, q.block).Ok?
  {
    hide Holds, PlacedHold, PlacedAll, UnitsHold;
    HoldsIsRead(m, q.block, l.identity);
    UnitsHoldExactly(m, x.payloads, l.offsets, x.target.base, q.block);
  }

  lemma {:induction false} HeaderHolds(m: Mem, x: Module, l: Layout, q: Prepared)
    requires Fits(x, l) && |q.code| == l.bytes && q.code[..HEADER] == l.identity
    requires Mapped(m, q.block, |q.code|)
    requires forall k :: 0 <= k < |q.code| && !Mutable(x, l, k) ==> m[q.block + k] == q.code[k]
    ensures Holds(m, q.block, l.identity)
  {
    forall k | q.block <= k < q.block + HEADER
      ensures k in m && m[k] == l.identity[k - q.block]
    {
      assert l.identity[k - q.block] == q.code[..HEADER][k - q.block];
      assert m[q.block + (k - q.block)] == q.code[k - q.block];
    }
  }

  // ----- the second run

  /** What the hooks may have done to the installed memory: their cells and the trace ring, nothing else. */
  ghost predicate CellsOnly(m1: Mem, m2: Mem, modules: seq<Module>, ready: seq<Ready>, plan: seq<Prepared>)
    requires |modules| == |ready| == |plan|
    requires forall i :: 0 <= i < |modules| ==> Fits(modules[i], ready[i].layout)
  {
    && m2.Keys == m1.Keys
    && forall k :: k in m1 && m2[k] != m1[k] ==>
         exists i :: 0 <= i < |plan| && BlockMutable(modules[i], ready[i].layout, plan[i], k)
  }

  ghost predicate BlockMutable(x: Module, l: Layout, q: Prepared, k: nat)
    requires Fits(x, l)
  {
    q.block <= k < q.block + q.size && Mutable(x, l, k - q.block)
  }

  function BlockSpan(q: Prepared): Span {
    Span(q.block, q.block + q.size)
  }

  /** A block found by an earlier run lies where a reservation could have put it. */
  ghost predicate Reusable(modules: seq<Module>, plan: seq<Prepared>)
    requires |modules| == |plan|
  {
    forall i :: 0 <= i < |plan| && !plan[i].isNew ==>
      && plan[i].block + plan[i].size <= WORD64
      && (forall j :: 0 <= j < |modules| ==> Apart(BlockSpan(plan[i]), Ranges(modules)[j]))
      && (forall j :: 0 <= j < |plan| && j != i ==> Apart(BlockSpan(plan[i]), BlockSpan(plan[j])))
  }

  /** The module has a branch whose placed bytes differ from what they replace. */
  ghost predicate Hooked(x: Module, q: Prepared) {
    |q.writes| == |WritesOf(x.payloads)| && AnyTelling(WritesOf(x.payloads), q.writes)
  }

  predicate AnchorCovers(a: Anchor, base: nat, k: nat) {
    base + a.rva <= k < base + a.rva + |a.bytes|
  }

  /** Where the anchor lies on a placed byte, it asks for just that byte. */
  ghost predicate AnchorStands(a: Anchor, base: nat, placed: seq<Placed>) {
    forall w, k: nat :: w in placed && AnchorCovers(a, base, k) && InSpan(w, k)
      ==> w.after[k - w.address] == a.bytes[k - base - a.rva]
  }

  ghost predicate AnchorsStand(x: Module, placed: seq<Placed>) {
    forall p, a :: p in x.payloads && a in p.unit.anchors ==> AnchorStands(a, x.target.base, placed)
  }

  /** No write of the module changes its site. */
  predicate Silent(placed: seq<Placed>) {
    forall w :: w in placed ==> w.after == w.before
  }

  /** Every module has a branch that changes its site, and no anchor asks for a byte that was overwritten. */
  ghost predicate Recognizable(modules: seq<Module>, plan: seq<Prepared>)
    requires |modules| == |plan|
  {
    forall i :: 0 <= i < |modules| ==> Hooked(modules[i], plan[i]) && AnchorsStand(modules[i], plan[i].writes)
  }

  lemma {:induction false} BlocksApart(modules: seq<Module>, plan: seq<Prepared>, i: nat, j: nat)
    requires |modules| == |plan| && Reusable(modules, plan) && PairwiseApart(FreshSpans(plan))
    requires i < |plan| && j < |plan| && i != j
    ensures Apart(BlockSpan(plan[i]), BlockSpan(plan[j]))
  {
    if plan[i].isNew && plan[j].isNew {
      if i < j {
        FreshSpansApart(plan, i, j);
      } else {
        FreshSpansApart(plan, j, i);
      }
    }
  }

  /** `m2` is what hooks may have made of the installation `m1`. */
  ghost predicate Second(m0: Mem, m1: Mem, m2: Mem, modules: seq<Module>, c: Context, ready: seq<Ready>,
                         plan: seq<Prepared>)
    requires KeepsLength(c) && AllChecked(modules)
  {
    && Installation(m0, m1, modules, c, ready, plan)
    && (forall i :: 0 <= i < |modules| ==> Fits(modules[i], ready[i].layout))
    && Reusable(modules, plan)
    && CellsOnly(m1, m2, modules, ready, plan)
  }

  ghost predicate Shape(modules: seq<Module>, ready: seq<Ready>, plan: seq<Prepared>) {
    |modules| == |ready| == |plan| && forall i :: 0 <= i < |modules| ==> Fits(modules[i], ready[i].layout)
  }

  lemma {:induction false} SecondParts(m0: Mem, m1: Mem, m2: Mem, modules: seq<Module>, c: Context, ready: seq<Ready>,
                                       plan: seq<Prepared>)
    requires KeepsLength(c) && AllChecked(modules) && Second(m0, m1, m2, modules, c, ready, plan)
    ensures Shape(modules, ready, plan) && CellsOnly(m1, m2, modules, ready, plan) && Reusable(modules, plan)
    ensures Targets(modules).Ok?
    ensures EachReady(m0, modules, c, ready) && PlanLinked(modules, c, ready, plan)
    ensures PairwiseApart(FreshSpans(plan)) && Maps(m0, m1, FreshSpans(plan))
    ensures forall k :: k in m0 ==> !InBlocks(FreshSpans(plan), k)
    ensures forall k :: k in m0 && !InSpans(FreshWrites(plan), k) ==> k in m1 && m1[k] == m0[k]
    ensures Installation(m0, m1, modules, c, ready, plan)
  {
  }

  /** A byte of a module that was mapped from the start is not in any block. */
  lemma {:induction false} ModuleByteKept(m0: Mem, m1: Mem, m2: Mem, modules: seq<Module>, ready: seq<Ready>,
                                          plan: seq<Prepared>, i: nat, k: nat)
    requires Shape(modules, ready, plan) && CellsOnly(m1, m2, modules, ready, plan) && Reusable(modules, plan)
    requires Maps(m0, m1, FreshSpans(plan)) && k in m0 && !InBlocks(FreshSpans(plan), k)
    requires i < |modules| && modules[i].target.base <= k < modules[i].target.base + modules[i].target.size
    ensures k in m1 && k in m2 && m2[k] == m1[k]
  {
    hide Fits, Mutable;
    assert k in m1;
    forall j | 0 <= j < |plan|
      ensures !(plan[j].block <= k < plan[j].block + plan[j].size)
    {
      if plan[j].isNew {
        FreshSpanIn(plan, j);
      } else {
        assert Apart(BlockSpan(plan[j]), Ranges(modules)[i]);
      }
    }
  }

  /** A byte of a block that is neither a cell nor the ring is what the first run left. */
  lemma {:induction false} BlockByteKept(m1: Mem, m2: Mem, modules: seq<Module>, ready: seq<Ready>,
                                         plan: seq<Prepared>, i: nat, k: nat)
    requires Shape(modules, ready, plan) && CellsOnly(m1, m2, modules, ready, plan) && Reusable(modules, plan)
    requires PairwiseApart(FreshSpans(plan))
    requires i < |modules| && k < plan[i].size && !Mutable(modules[i], ready[i].layout, k) && plan[i].block + k in m1
    ensures m2[plan[i].block + k] == m1[plan[i].block + k]
  {
    hide Fits, Mutable, FreshSpans, PairwiseApart;
    var a := plan[i].block + k;
    assert a - plan[i].block == k;
    forall j | 0 <= j < |plan| && j != i
      ensures !(plan[j].block <= a < plan[j].block + plan[j].size)
    {
      BlocksApart(modules, plan, i, j);
    }
  }

  lemma {:induction false} ReusedApart(m0: Mem, m1: Mem, modules: seq<Module>, c: Context, ready: seq<Ready>,
                                       plan: seq<Prepared>, i: nat)
    requires KeepsLength(c) && AllChecked(modules) && Installation(m0, m1, modules, c, ready, plan)
    requires RangesApart(modules) && |plan| == |modules| && Reusable(modules, plan) && i < |plan| && !plan[i].isNew
    ensures ReuseApart(plan, i)
  {
    LinkedIsOk(modules, c, ready, plan);
    hide Installation, EachReady, PlanOk, HooksReady, FreshSpans, FreshWrites, Within, Reusable, RangesApart,
         ReuseApart, Apart;
    PlanSites(m0, modules, c, ready, plan);
    ReusedFromBlocks(modules, plan, i);
    forall w | w in FreshWrites(plan)
      ensures Apart(BlockSpan(plan[i]), SpanOfPlaced(w))
    {
      var j :| 0 <= j < |plan| && plan[j].isNew && w in plan[j].writes && Within(w, modules[j]);
      ReusedFromHook(modules, plan, i, j, w);
    }
    ApartIsReuseApart(plan, i);
  }

  lemma {:induction false} ApartIsReuseApart(plan: seq<Prepared>, i: nat)
    requires i < |plan|
    requires forall s :: s in FreshSpans(plan) ==> Apart(BlockSpan(plan[i]), s)
    requires forall w :: w in FreshWrites(plan) ==> Apart(BlockSpan(plan[i]), SpanOfPlaced(w))
    ensures ReuseApart(plan, i)
  {
    hide FreshSpans, FreshWrites;
  }

  lemma {:induction false} ReusedFromBlocks(modules: seq<Module>, plan: seq<Prepared>, i: nat)
    requires |plan| == |modules| && Reusable(modules, plan) && i < |plan| && !plan[i].isNew
    ensures forall s :: s in FreshSpans(plan) ==> Apart(BlockSpan(plan[i]), s)
  {
    hide FreshSpans;
    forall s | s in FreshSpans(plan)
      ensures Apart(BlockSpan(plan[i]), s)
    {
      var j := FreshSpanFrom(plan, s);
      assert Apart(BlockSpan(plan[i]), BlockSpan(plan[j]));
    }
  }

  lemma {:induction false} ReusedFromHook(modules: seq<Module>, plan: seq<Prepared>, i: nat, j: nat, w: Placed)
    requires |plan| == |modules| && Reusable(modules, plan) && i < |plan| && !plan[i].isNew
    requires j < |modules| && Within(w, modules[j])
    ensures Apart(BlockSpan(plan[i]), SpanOfPlaced(w))
  {
    assert Apart(BlockSpan(plan[i]), Ranges(modules)[j]);
  }

  lemma {:induction false} FreshSpanFrom(plan: seq<Prepared>, s: Span) returns (i: nat)
    requires s in FreshSpans(plan)
    ensures i < |plan| && plan[i].isNew && s == BlockSpan(plan[i])
  {
    if plan[0].isNew && s == BlockSpan(plan[0]) {
      i := 0;
    } else {
      i := FreshSpanFrom(plan[1..], s);
      i := i + 1;
    }
  }

  /** After the first run every module's hooks and code are in place. */
  lemma {:induction false} FirstRunHolds(m0: Mem, m1: Mem, modules: seq<Module>, c: Context, ready: seq<Ready>,
                                         plan: seq<Prepared>, i: nat)
    requires KeepsLength(c) && AllChecked(modules) && Installation(m0, m1, modules, c, ready, plan)
    requires RangesApart(modules) && |plan| == |modules| && Reusable(modules, plan) && i < |plan|
    ensures ReuseHolds(m1, modules[i], ready[i].layout, plan[i])
  {
    var x, l, q := modules[i], ready[i].layout, plan[i];
    if q.isNew {
      assert LinkedFor(x, c, ready[i], q);
      LinkedFits(x, c, ready[i], q);
      assert Holds(m1, q.block, q.code);
      WholeIsIntact(m1, x, l, q.block, q.code);
      forall w | w in q.writes
        ensures Holds(m1, w.address, w.after)
      {
        FreshWriteIn(plan, i, w);
      }
      PlacedHoldMeaning(m1, q.writes);
    } else {
      ReusedApart(m0, m1, modules, c, ready, plan, i);
    }
  }

  lemma {:induction false} WholeIsIntact(m: Mem, x: Module, l: Layout, block: nat, code: seq<byte>)
    requires Fits(x, l) && |code| == l.bytes && Holds(m, block, code)
    ensures CodeIntact(m, x, l, block, code).Ok?
  {
    CodeIntactMeaning(m, x, l, block, code);
  }

  /** The sites of every module were mapped when the run began. */
  lemma {:induction false} SitesWereMapped(m0: Mem, modules: seq<Module>, c: Context, ready: seq<Ready>,
                                           plan: seq<Prepared>, i: nat, w: Placed, k: nat)
    requires KeepsLength(c) && AllChecked(modules) && EachReady(m0, modules, c, ready)
      && PlanLinked(modules, c, ready, plan)
    requires i < |plan| && w in plan[i].writes && InSpan(w, k)
    ensures k in m0
    ensures modules[i].target.base <= k < modules[i].target.base + modules[i].target.size
  {
    var x, r, q := modules[i], ready[i], plan[i];
    assert LinkedFor(x, c, r, q) && PreflightModule(m0, x, c) == Ok(r);
    ModuleSites(m0, x, c, r, q);
    assert Within(w, x);
    if q.isNew {
      assert Holds(m0, w.address, w.before) && |w.after| == |w.before|;
    } else {
      ModuleChecks(m0, x, c, r);
      ModulePlaced(x, c, r, q);
      RecoveredBlockHolds(m0, x, c, r);
      PlacedHoldMeaning(m0, q.writes);
      assert Holds(m0, w.address, w.after);
    }
  }

  lemma {:induction false} SecondHolds(m0: Mem, m1: Mem, m2: Mem, modules: seq<Module>, c: Context, ready: seq<Ready>,
                                       plan: seq<Prepared>, i: nat)
    requires KeepsLength(c) && AllChecked(modules) && Second(m0, m1, m2, modules, c, ready, plan) && i < |modules|
    ensures PlacedHold(m2, plan[i].writes).Ok?
    ensures CodeIntact(m2, modules[i], ready[i].layout, plan[i].block, plan[i].code).Ok?
  {
    hide Second, Installation, EachReady, LinkedFor, Fits, Mutable, CodeIntact, PlacedHold, CellsOnly, FreshSpans,
         FreshWrites, InBlocks, InSpans, Reusable, PairwiseApart, Maps, Targets;
    SecondParts(m0, m1, m2, modules, c, ready, plan);
    TargetsApart(modules);
    FirstRunHolds(m0, m1, modules, c, ready, plan, i);
    var q := plan[i];
    assert LinkedFor(modules[i], c, ready[i], q);
    LinkedFits(modules[i], c, ready[i], q);
    forall w, k | w in q.writes && InSpan(w, k) && k in m1
      ensures k in m2 && m2[k] == m1[k]
    {
      SitesWereMapped(m0, modules, c, ready, plan, i, w, k);
      ModuleByteKept(m0, m1, m2, modules, ready, plan, i, k);
    }
    PlacedHoldUntouched(m1, m2, q.writes);
    CodeStillIntact(m1, m2, modules, ready, plan, i);
  }

  lemma {:induction false} ShapeFits(modules: seq<Module>, ready: seq<Ready>, plan: seq<Prepared>, i: nat)
    requires Shape(modules, ready, plan) && i < |modules|
    ensures |modules| == |ready| == |plan| && Fits(modules[i], ready[i].layout)
    ensures |ready[i].layout.offsets| == |modules[i].payloads|
  {
  }

  lemma {:induction false} SameKeys(m1: Mem, m2: Mem, modules: seq<Module>, ready: seq<Ready>, plan: seq<Prepared>)
    requires Shape(modules, ready, plan) && CellsOnly(m1, m2, modules, ready, plan)
    ensures m1.Keys == m2.Keys
  {
  }

  lemma {:induction false} CodeStillIntact(m1: Mem, m2: Mem, modules: seq<Module>, ready: seq<Ready>,
                                           plan: seq<Prepared>, i: nat)
    requires Shape(modules, ready, plan) && CellsOnly(m1, m2, modules, ready, plan) && Reusable(modules, plan)
    requires PairwiseApart(FreshSpans(plan)) && i < |modules|
    requires plan[i].size == ready[i].layout.bytes == |plan[i].code|
    requires CodeIntact(m1, modules[i], ready[i].layout, plan[i].block, plan[i].code).Ok?
    ensures CodeIntact(m2, modules[i], ready[i].layout, plan[i].block, plan[i].code).Ok?
  {
    hide Fits, Mutable, CodeIntact, FreshSpans, PairwiseApart, Reusable, CellsOnly, Shape;
    ShapeFits(modules, ready, plan, i);
    var x, l, q := modules[i], ready[i].layout, plan[i];
    SameKeys(m1, m2, modules, ready, plan);
    forall k: nat | k < |q.code| && !Mutable(x, l, k) && q.block + k in m1
      ensures m2[q.block + k] == m1[q.block + k]
    {
      BlockByteKept(m1, m2, modules, ready, plan, i, k);
    }
    IntactStays(m1, m2, x, l, q.block, q.code);
  }

  lemma {:induction false} IntactStays(m1: Mem, m2: Mem, x: Module, l: Layout, block: nat, code: seq<byte>)
    requires Fits(x, l) && |code| == l.bytes && m1.Keys == m2.Keys
    requires forall k: nat :: k < |code| && !Mutable(x, l, k) && block + k in m1 ==> m2[block + k] == m1[block + k]
    requires CodeIntact(m1, x, l, block, code).Ok?
    ensures CodeIntact(m2, x, l, block, code).Ok?
  {
    hide Fits, Mutable, CodeIntact;
    CodeIntactMeaning(m1, x, l, block, code);
    CodeIntactMeaning(m2, x, l, block, code);
    assert Mapped(m2, block, |code|);
  }

  // ----- what the second run checks

  /** With every placed byte in memory, the sites look untouched exactly when no write changed anything. */
  lemma {:induction false} SitesOfPlaced(m: Mem, placed: seq<Placed>, base: nat, writes: seq<Write>)
    requires AllLandOver(placed, base, writes)
    requires forall w :: w in placed ==> Holds(m, w.address, w.after)
    ensures SitesIn(m, writes, base) <==> Silent(placed)
  {
    hide Holds;
    forall i | 0 <= i < |placed|
      ensures Holds(m, base + writes[i].rva, writes[i].before) <==> placed[i].after == placed[i].before
      ensures placed[i] in placed && writes[i] in writes
    {
      assert LandsOver(placed[i], base, writes[i]);
      if Holds(m, placed[i].address, placed[i].before) {
        HoldsTwice(m, placed[i].address, placed[i].after, placed[i].before);
      }
    }
  }

  lemma {:induction false} HoldsTwice(m: Mem, a: nat, x: seq<byte>, y: seq<byte>)
    requires Holds(m, a, x) && Holds(m, a, y) && |x| == |y|
    ensures x == y
  {
    forall i | 0 <= i < |x|
      ensures x[i] == y[i]
    {
      assert m[a + i] == x[i] && m[a + i] == y[i];
    }
  }

  /** An anchor that held is found again exactly when it asks for what was written over it. */
  lemma {:induction false} AnchorNow(m0: Mem, m: Mem, a: Anchor, base: nat, placed: seq<Placed>)
    requires Holds(m0, base + a.rva, a.bytes)
    requires forall w :: w in placed ==> Holds(m, w.address, w.after)
    requires forall k: nat :: AnchorCovers(a, base, k) && !InSpans(placed, k) && k in m0 ==> k in m && m[k] == m0[k]
    ensures Holds(m, base + a.rva, a.bytes) <==> AnchorStands(a, base, placed)
  {
    if AnchorStands(a, base, placed) {
      forall k: nat | AnchorCovers(a, base, k)
        ensures k in m && m[k] == a.bytes[k - base - a.rva]
      {
        if InSpans(placed, k) {
          var w :| w in placed && InSpan(w, k);
          assert Holds(m, w.address, w.after);
        }
      }
    }
    if Holds(m, base + a.rva, a.bytes) {
      forall w, k: nat | w in placed && AnchorCovers(a, base, k) && InSpan(w, k)
        ensures w.after[k - w.address] == a.bytes[k - base - a.rva]
      {
        assert Holds(m, w.address, w.after);
        assert m[w.address + (k - w.address)] == w.after[k - w.address];
        assert m[base + a.rva + (k - base - a.rva)] == a.bytes[k - base - a.rva];
      }
    }
  }

  // ----- the anchors again

  lemma {:induction false} AnchorInModule(x: Module, p: Payload, a: Anchor, k: nat)
    requires CheckSpans(x.payloads, x.target.size).Ok? && Checked(x.payloads)
    requires p in x.payloads && a in p.unit.anchors && AnchorCovers(a, x.target.base, k)
    ensures x.target.base <= k < x.target.base + x.target.size
  {
    hide CheckSpans;
    SpansDecideDisjointness(x.payloads, x.target.size);
    var i :| 0 <= i < |x.payloads| && x.payloads[i] == p;
    assert AnchorsInside(p.unit.anchors, x.target.size);
    var j :| 0 <= j < |p.unit.anchors| && p.unit.anchors[j] == a;
    assert AnchorInside(a, x.target.size);
  }

  /** A byte of a module outside the module's own sites is what it was before the first run. */
  lemma {:induction false} ModuleByteNow(m0: Mem, m1: Mem, m2: Mem, modules: seq<Module>, c: Context,
                                         ready: seq<Ready>, plan: seq<Prepared>,
                       i: nat, k: nat)
    requires KeepsLength(c) && AllChecked(modules) && Second(m0, m1, m2, modules, c, ready, plan) && i < |modules|
    requires modules[i].target.base <= k < modules[i].target.base + modules[i].target.size
    requires k in m0 && !InSpans(plan[i].writes, k)
    ensures k in m2 && m2[k] == m0[k]
  {
    hide Second, Installation, LinkedFor, PreflightModule, Fits, CellsOnly, FreshSpans, FreshWrites, InBlocks, Targets,
         Reusable, PairwiseApart, Maps, HooksReady, PlanOk, EachReady, PlanLinked;
    SecondParts(m0, m1, m2, modules, c, ready, plan);
    TargetsApart(modules);
    ModuleByteKept(m0, m1, m2, modules, ready, plan, i, k);
    LinkedIsOk(modules, c, ready, plan);
    PlanSites(m0, modules, c, ready, plan);
    forall w | w in FreshWrites(plan)
      ensures !InSpan(w, k)
    {
      var j :| 0 <= j < |plan| && plan[j].isNew && w in plan[j].writes && Within(w, modules[j]);
      if j != i {
        OtherRange(modules, i, j, w, k);
      }
    }
    assert !InSpans(FreshWrites(plan), k);
  }

  lemma {:induction false} OtherRange(modules: seq<Module>, i: nat, j: nat, w: Placed, k: nat)
    requires RangesApart(modules) && i < |modules| && j < |modules| && i != j && Within(w, modules[j])
    requires modules[i].target.base <= k < modules[i].target.base + modules[i].target.size
    ensures !InSpan(w, k)
  {
    var lo, hi := if i < j then i else j, if i < j then j else i;
    assert Apart(Ranges(modules)[lo], Ranges(modules)[hi]);
  }

  lemma {:induction false} SpansWereChecked(m: Mem, x: Module, c: Context, r: Ready)
    requires Checked(x.payloads) && PreflightModule(m, x, c) == Ok(r)
    ensures CheckSpans(x.payloads, x.target.size).Ok? && FileMatches(x).Ok?
  {
  }

  lemma {:induction false} AnchorsWere(m: Mem, x: Module, c: Context, r: Ready)
    requires Checked(x.payloads) && PreflightModule(m, x, c) == Ok(r)
    ensures CheckSpans(x.payloads, x.target.size).Ok? && AnchorsIn(m, x.payloads, x.target.base)
  {
    hide PreflightModule, UnitsMatch, CheckSpans, AnchorsIn, SitesIn, WritesInside, PairwiseApart, Fits, LayoutOf,
         InstalledBlock;
    SpansWereChecked(m, x, c, r);
    ModuleChecks(m, x, c, r);
    UnitsMatchMeaning(m, x.payloads, x.target.base, r.installed.None?);
  }

  lemma {:induction false} AnchorsNow(m0: Mem, m1: Mem, m2: Mem, modules: seq<Module>, c: Context, ready: seq<Ready>,
                                      plan: seq<Prepared>, i: nat)
    requires KeepsLength(c) && AllChecked(modules) && Second(m0, m1, m2, modules, c, ready, plan)
      && i < |modules| == |plan| == |ready|
    requires PreflightModule(m0, modules[i], c) == Ok(ready[i]) && PlacedHold(m2, plan[i].writes).Ok?
    ensures AnchorsIn(m2, modules[i].payloads, modules[i].target.base) <==> AnchorsStand(modules[i], plan[i].writes)
  {
    hide Second, PreflightModule, PlacedHold, CheckSpans, Holds, AnchorStands;
    var x, placed := modules[i], plan[i].writes;
    AnchorsWere(m0, x, c, ready[i]);
    PlacedHoldMeaning(m2, placed);
    forall p, a | p in x.payloads && a in p.unit.anchors
      ensures Holds(m2, x.target.base + a.rva, a.bytes) <==> AnchorStands(a, x.target.base, placed)
    {
      AnchorAgain(m0, m1, m2, modules, c, ready, plan, i, p, a);
    }
  }

  lemma {:induction false} AnchorAgain(m0: Mem, m1: Mem, m2: Mem, modules: seq<Module>, c: Context, ready: seq<Ready>,
                                       plan: seq<Prepared>, i: nat, p: Payload, a: Anchor)
    requires KeepsLength(c) && AllChecked(modules) && Second(m0, m1, m2, modules, c, ready, plan)
      && i < |modules| == |plan|
    requires CheckSpans(modules[i].payloads, modules[i].target.size).Ok? && p in modules[i].payloads
      && a in p.unit.anchors
    requires Holds(m0, modules[i].target.base + a.rva, a.bytes)
    requires forall w :: w in plan[i].writes ==> Holds(m2, w.address, w.after)
    ensures Holds(m2, modules[i].target.base + a.rva, a.bytes)
      <==> AnchorStands(a, modules[i].target.base, plan[i].writes)
  {
    hide Second, CheckSpans, Holds, AnchorStands, InSpans, AnchorCovers;
    var x := modules[i];
    forall k: nat | AnchorCovers(a, x.target.base, k) && !InSpans(plan[i].writes, k) && k in m0
      ensures k in m2 && m2[k] == m0[k]
    {
      AnchorInModule(x, p, a, k);
      ModuleByteNow(m0, m1, m2, modules, c, ready, plan, i, k);
    }
    AnchorNow(m0, m2, a, x.target.base, plan[i].writes);
  }

  // ----- what the second run finds

  function Found(ready: seq<Ready>, plan: seq<Prepared>): (r: seq<Ready>)
    requires |ready| == |plan|
    ensures |r| == |ready|
    ensures forall i :: 0 <= i < |r| ==> r[i] == Ready(ready[i].layout, Some(plan[i].block))
  {
    seq(|ready|, i requires 0 <= i < |ready| => Ready(ready[i].layout, Some(plan[i].block)))
  }

  /** The preflight of the second run, module by module: refused where an anchor was overwritten, or where only
      edits changed something; found in its block where a branch tells; and taken for a module without an
      installation where no write changed anything. */
  lemma {:induction false} SecondModule(m0: Mem, m1: Mem, m2: Mem, modules: seq<Module>, c: Context, ready: seq<Ready>,
                                        plan: seq<Prepared>, i: nat)
    requires KeepsLength(c) && AllChecked(modules) && Second(m0, m1, m2, modules, c, ready, plan) && i < |modules|
    ensures var x, q := modules[i], plan[i];
      var a := PreflightModule(m2, x, c);
      && (a.Ok? <==> AnchorsStand(x, q.writes) && (Hooked(x, q) || Silent(q.writes)))
      && (a.Ok? ==> a.value == Ready(ready[i].layout, if Hooked(x, q) then Some(q.block) else None))
      && (a.Ok? && Hooked(x, q) ==> ModuleInstalled(m2, x, c, a.value))
  {
    var x, r, q := modules[i], ready[i], plan[i];
    assert LinkedFor(x, c, r, q) && PreflightModule(m0, x, c) == Ok(r);
    SecondHolds(m0, m1, m2, modules, c, ready, plan, i);
    BlockFits(modules, c, ready, plan, i);
    AnchorsNow(m0, m1, m2, modules, c, ready, plan, i);
    ChecksAgain(m0, m2, x, c, r, q);
  }

  lemma {:induction false} BlockFits(modules: seq<Module>, c: Context, ready: seq<Ready>, plan: seq<Prepared>, i: nat)
    requires KeepsLength(c) && PlanLinked(modules, c, ready, plan) && Reusable(modules, plan) && i < |plan|
    ensures plan[i].block + plan[i].size <= WORD64
  {
    assert LinkedFor(modules[i], c, ready[i], plan[i]);
  }

  lemma {:induction false} ChecksAgain(m0: Mem, m2: Mem, x: Module, c: Context, r: Ready, q: Prepared)
    requires KeepsLength(c) && Checked(x.payloads) && LinkedFor(x, c, r, q) && PreflightModule(m0, x, c) == Ok(r)
    requires q.block + q.size <= WORD64
    requires PlacedHold(m2, q.writes).Ok? && CodeIntact(m2, x, r.layout, q.block, q.code).Ok?
    requires AnchorsIn(m2, x.payloads, x.target.base) <==> AnchorsStand(x, q.writes)
    ensures var a := PreflightModule(m2, x, c);
      && (a.Ok? <==> AnchorsStand(x, q.writes) && (Hooked(x, q) || Silent(q.writes)))
      && (a.Ok? ==> a.value == Ready(r.layout, if Hooked(x, q) then Some(q.block) else None))
      && (a.Ok? && Hooked(x, q) ==> ModuleInstalled(m2, x, c, a.value))
  {
    hide LinkModule, CodeIntact, PlacedHold, UnitsMatch, CheckSpans, LayoutOf, FileMatches, InstalledBlock, WritesOf,
         Hooked, AnchorsStand, AnchorsIn, SitesIn, Silent, AllLandOver;
    ModuleChecks(m0, x, c, r);
    SpansWereChecked(m0, x, c, r);
    ModuleRecovers(m2, x, c, r, q);
    ModulePlaced(x, c, r, q);
    PlacedHoldMeaning(m2, q.writes);
    SitesOfPlaced(m2, q.writes, x.target.base, WritesOf(x.payloads));
    UnitsMatchMeaning(m2, x.payloads, x.target.base, !Hooked(x, q));
  }

  /** Repeat install is exact: after a run that patched, and whatever the hooks did to their cells and to the trace
      ring, the modules are found installed if and only if every one has a branch that changed its site and no
      anchor asks for a byte that was overwritten with another. */
  lemma {:induction false} RepeatFindsInstalled(m0: Mem, m1: Mem, m2: Mem, modules: seq<Module>, c: Context,
                                                ready: seq<Ready>, plan: seq<Prepared>)
    requires KeepsLength(c) && AllChecked(modules)
    requires Second(m0, m1, m2, modules, c, ready, plan)
    ensures (exists r :: Installed(m2, modules, c, r)) <==> Recognizable(modules, plan)
    ensures Recognizable(modules, plan) ==> Installed(m2, modules, c, Found(ready, plan))
  {
    hide Second, Installed, Recognizable;
    SecondLengths(m0, m1, m2, modules, c, ready, plan);
    if Recognizable(modules, plan) {
      RecognizedAgain(m0, m1, m2, modules, c, ready, plan);
    }
    if r :| Installed(m2, modules, c, r) {
      SomeInstalled(m2, modules, c, r);
      AllFound(m0, m1, m2, modules, c, ready, plan, r);
    }
  }

  lemma {:induction false} SecondLengths(m0: Mem, m1: Mem, m2: Mem, modules: seq<Module>, c: Context,
                                         ready: seq<Ready>, plan: seq<Prepared>)
    requires KeepsLength(c) && AllChecked(modules) && Second(m0, m1, m2, modules, c, ready, plan)
    ensures |modules| == |ready| == |plan|
  {
  }

  lemma {:induction false} RecognizedAgain(m0: Mem, m1: Mem, m2: Mem, modules: seq<Module>, c: Context,
                                           ready: seq<Ready>, plan: seq<Prepared>)
    requires KeepsLength(c) && AllChecked(modules)
    requires Second(m0, m1, m2, modules, c, ready, plan) && Recognizable(modules, plan)
    ensures Installed(m2, modules, c, Found(ready, plan))
  {
    hide PreflightModule, ModuleInstalled, Targets, Hooked, AnchorsStand, Silent;
    forall i | 0 <= i < |modules|
      ensures PreflightModule(m2, modules[i], c) == Ok(Found(ready, plan)[i])
      ensures ModuleInstalled(m2, modules[i], c, Found(ready, plan)[i])
    {
      SecondModule(m0, m1, m2, modules, c, ready, plan, i);
    }
  }

  lemma {:induction false} SomeInstalled(m: Mem, modules: seq<Module>, c: Context, r: seq<Ready>)
    requires KeepsLength(c) && AllChecked(modules) && Installed(m, modules, c, r)
    ensures EachReady(m, modules, c, r) && forall i :: 0 <= i < |modules| ==> r[i].installed.Some?
  {
    hide PreflightModule, Targets, LinkModule, CodeIntact;
    forall i | 0 <= i < |modules|
      ensures r[i].installed.Some?
    {
      assert ModuleInstalled(m, modules[i], c, r[i]);
    }
  }

  /** A preflight of the second run that finds every module in a block finds them recognizable. */
  lemma {:induction false} AllFound(m0: Mem, m1: Mem, m2: Mem, modules: seq<Module>, c: Context, ready: seq<Ready>,
                                    plan: seq<Prepared>, r: seq<Ready>)
    requires KeepsLength(c) && AllChecked(modules) && Second(m0, m1, m2, modules, c, ready, plan)
    requires EachReady(m2, modules, c, r)
    ensures forall i :: 0 <= i < |modules| ==>
      AnchorsStand(modules[i], plan[i].writes) && (Hooked(modules[i], plan[i]) || Silent(plan[i].writes))
    ensures (forall i :: 0 <= i < |modules| ==> r[i].installed.Some?) ==> Recognizable(modules, plan)
  {
    hide PreflightModule, ModuleInstalled, Second, Hooked, AnchorsStand, Silent;
    SecondLengths(m0, m1, m2, modules, c, ready, plan);
    forall i | 0 <= i < |modules|
      ensures AnchorsStand(modules[i], plan[i].writes) && (Hooked(modules[i], plan[i]) || Silent(plan[i].writes))
      ensures r[i].installed.Some? ==> Hooked(modules[i], plan[i])
    {
      SecondModule(m0, m1, m2, modules, c, ready, plan, i);
      assert PreflightModule(m2, modules[i], c) == Ok(r[i]);
    }
  }

  /** The second run itself: without faults it answers "already patched" and writes nothing exactly when the
      modules are recognizable, and a module that only edits, or whose anchor it overwrote, makes it refuse. */
  method RunAgain(p: Process, modules: seq<Module>, c: Context, ghost m0: Mem, ghost m1: Mem, ghost ready: seq<Ready>,
                  ghost plan: seq<Prepared>) returns (report: Report)
    requires KeepsLength(c) && AllChecked(modules)
    requires Second(m0, m1, p.mem, modules, c, ready, plan)
    modifies p
    ensures report.AlreadyPatched? ==> Recognizable(modules, plan) && p.mem == old(p.mem) && p.blocks == old(p.blocks)
    ensures p.clean && Recognizable(modules, plan) ==> report.AlreadyPatched?
    ensures p.clean && (exists i :: 0 <= i < |modules| && !(AnchorsStand(modules[i], plan[i].writes)
                                                           && (Hooked(modules[i], plan[i]) || Silent(plan[i].writes))))
      ==> report.Refused?
  {
    hide Second, Installed, Installation, Preflight, Recognizable, Hooked, AnchorsStand, Silent, Course, Explained,
         AnyNew;
    RepeatFindsInstalled(m0, m1, p.mem, modules, c, ready, plan);
    ghost var m2 := p.mem;
    ghost var ready', plan';
    report, ready', plan' := Install(p, modules, c);
    if report.Patched? || report.AlreadyPatched? {
      InstalledReady(m2, p.mem, modules, c, ready', plan');
      AllFound(m0, m1, m2, modules, c, ready, plan, ready');
    }
  }

  lemma {:induction false} InstalledReady(m0: Mem, m1: Mem, modules: seq<Module>, c: Context, ready: seq<Ready>,
                                          plan: seq<Prepared>)
    requires KeepsLength(c) && AllChecked(modules) && Installation(m0, m1, modules, c, ready, plan)
    ensures EachReady(m0, modules, c, ready)
    ensures !AnyNew(plan) ==> forall i :: 0 <= i < |modules| ==> ready[i].installed.Some?
  {
    hide PreflightModule, Targets, LinkModule;
    if !AnyNew(plan) {
      forall i | 0 <= i < |modules|
        ensures ready[i].installed.Some?
      {
        assert LinkedFor(modules[i], c, ready[i], plan[i]);
      }
    }
  }
}
