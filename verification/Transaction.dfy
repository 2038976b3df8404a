/** What a run of the installer may and may not do to a process's memory. */
module Transaction {
  import opened Outcome
  import opened Bytes
  import opened Memory
  import opened Units
  import opened Spans

  /** How a run ends. `NotRestored` is the one failure after which the game must be closed. */
  datatype Report = Patched | AlreadyPatched | Refused(error: Error) | NotRestored(error: Error)

  /** A module ready to be written: its block and what goes where. */
  datatype Prepared = Prepared(block: nat, size: nat, code: seq<byte>, writes: seq<Placed>, isNew: bool)

  // ----- the reserved blocks

  function FreshSpans(plan: seq<Prepared>): seq<Span> {
    if plan == [] then []
    else (if plan[0].isNew then [Span(plan[0].block, plan[0].block + plan[0].size)] else []) + FreshSpans(plan[1..])
  }

  predicate InBlocks(blocks: seq<Span>, k: nat) {
    exists s :: s in blocks && s.start <= k < s.end
  }

  /** The blocks are nonempty, pairwise apart, and none was mapped or reserved before. */
  ghost predicate NewBlocks(m0: Mem, b0: map<nat, nat>, blocks: seq<Span>) {
    && PairwiseApart(blocks) && Nonempty(blocks)
    && (forall s :: s in blocks ==> s.start !in b0)
    && (forall k :: k in m0 ==> !InBlocks(blocks, k))
  }

  /** Exactly the bytes of these blocks are mapped on top of what there was. */
  ghost predicate Maps(m0: Mem, m: Mem, blocks: seq<Span>) {
    forall k :: k in m <==> k in m0 || InBlocks(blocks, k)
  }

  function Starts(blocks: seq<Span>): set<nat> {
    set s | s in blocks :: s.start
  }

  /** Exactly these blocks are reserved on top of what there was. */
  ghost predicate Reserves(b0: map<nat, nat>, b: map<nat, nat>, blocks: seq<Span>) {
    && b.Keys == b0.Keys + Starts(blocks)
    && (forall a :: a in b0 ==> b[a] == b0[a])
    && (forall s :: s in blocks ==> b[s.start] == s.end - s.start)
  }

  ghost predicate Extended(m0: Mem, b0: map<nat, nat>, m: Mem, b: map<nat, nat>, blocks: seq<Span>) {
    Maps(m0, m, blocks) && Reserves(b0, b, blocks)
  }

  /** `m` with the new blocks of the plan mapped and zeroed, one after another. */
  function Reserved(m: Mem, plan: seq<Prepared>): Mem {
    if plan == [] then m
    else
      var before, last := Reserved(m, plan[..|plan| - 1]), plan[|plan| - 1];
      if last.isNew then WithBlock(before, last.block, last.size) else before
  }

  /** Everything mapped at first still holds what it held. */
  predicate Quiet(m0: Mem, m: Mem) {
    forall k :: k in m0 ==> k in m && m[k] == m0[k]
  }

  lemma {:induction false} FreshSpansAppend(plan: seq<Prepared>, p: Prepared)
    ensures FreshSpans(plan + [p])
         == FreshSpans(plan) + if p.isNew then [Span(p.block, p.block + p.size)] else []
  {
    if plan == [] {
      assert plan + [p] == [p];
      assert FreshSpans([p]) == (if p.isNew then [Span(p.block, p.block + p.size)] else []) + [];
    } else {
      assert (plan + [p])[1..] == plan[1..] + [p];
      FreshSpansAppend(plan[1..], p);
    }
  }

  lemma {:induction false} InBlocksAppend(blocks: seq<Span>, s: Span, k: nat)
    ensures InBlocks(blocks + [s], k) <==> InBlocks(blocks, k) || s.start <= k < s.end
  {
    if InBlocks(blocks, k) {
      var t :| t in blocks && t.start <= k < t.end;
      assert t in blocks + [s];
    }
    if s.start <= k < s.end {
      assert s in blocks + [s];
    }
  }

  lemma {:induction false} PairwiseApartAppend(blocks: seq<Span>, s: Span)
    requires PairwiseApart(blocks) && ApartFromAll(s, blocks)
    ensures PairwiseApart(blocks + [s])
  {
    var r := blocks + [s];
    forall i, j | 0 <= i < j < |r|
      ensures Apart(r[i], r[j])
    {
      if j < |blocks| {
        assert Apart(blocks[i], blocks[j]);
      } else {
        assert blocks[i] in blocks;
      }
    }
  }

  lemma {:induction false} InBlocksOf(blocks: seq<Span>, s: Span, k: nat)
    requires s in blocks && s.start <= k < s.end
    ensures InBlocks(blocks, k)
  {
  }

  /** A block that avoids everything mapped is apart from the earlier blocks. */
  lemma {:induction false} ReservedApart(m0: Mem, m: Mem, blocks: seq<Span>, s: Span)
    requires Nonempty(blocks) && Maps(m0, m, blocks)
    requires s.start < s.end && Unmapped(m, s.start, s.end - s.start)
    ensures ApartFromAll(s, blocks)
  {
    forall k | s.start <= k < s.end
      ensures !InBlocks(blocks, k)
    {
      assert k !in m;
    }
    forall t | t in blocks
      ensures Apart(s, t)
    {
      var k := if s.start < t.start then t.start else s.start;
      if k < t.end {
        InBlocksOf(blocks, t, k);
      }
    }
  }

  lemma {:induction false} ReserveIsNew(m0: Mem, b0: map<nat, nat>, m: Mem, b: map<nat, nat>, blocks: seq<Span>,
                                        s: Span)
    requires NewBlocks(m0, b0, blocks) && Extended(m0, b0, m, b, blocks)
    requires s.start < s.end && Unmapped(m, s.start, s.end - s.start) && s.start !in b
    ensures NewBlocks(m0, b0, blocks + [s])
  {
    var more := blocks + [s];
    ReservedApart(m0, m, blocks, s);
    hide Apart, PairwiseApart, InBlocks;
    PairwiseApartAppend(blocks, s);
    assert Nonempty(more);
    forall k | k in m0
      ensures !InBlocks(more, k)
    {
      InBlocksAppend(blocks, s, k);
      assert k in m;
    }
  }

  /** Reserving one more block. */
  lemma {:induction false} ReserveExtends(m0: Mem, b0: map<nat, nat>, m: Mem, b: map<nat, nat>, blocks: seq<Span>,
                                          s: Span)
    requires NewBlocks(m0, b0, blocks) && Extended(m0, b0, m, b, blocks) && Quiet(m0, m)
    requires s.start < s.end && Unmapped(m, s.start, s.end - s.start) && s.start !in b
    ensures var n := s.end - s.start;
      && NewBlocks(m0, b0, blocks + [s])
      && Extended(m0, b0, WithBlock(m, s.start, n), b[s.start := n], blocks + [s])
      && Quiet(m0, WithBlock(m, s.start, n))
  {
    ReserveIsNew(m0, b0, m, b, blocks, s);
    ReserveReserves(b0, b, blocks, s);
    ReserveMaps(m0, m, blocks, s);
    hide NewBlocks, Reserves, Maps;
  }

  lemma {:induction false} ReserveMaps(m0: Mem, m: Mem, blocks: seq<Span>, s: Span)
    requires Maps(m0, m, blocks) && s.start < s.end
    ensures Maps(m0, WithBlock(m, s.start, s.end - s.start), blocks + [s])
  {
    hide InBlocks;
    forall k: nat
      ensures InBlocks(blocks + [s], k) <==> InBlocks(blocks, k) || s.start <= k < s.end
    {
      InBlocksAppend(blocks, s, k);
    }
  }

  lemma {:induction false} ReserveReserves(b0: map<nat, nat>, b: map<nat, nat>, blocks: seq<Span>, s: Span)
    requires Reserves(b0, b, blocks) && s.start !in b && s.start < s.end
    ensures Reserves(b0, b[s.start := s.end - s.start], blocks + [s])
  {
    assert Starts(blocks + [s]) == Starts(blocks) + {s.start};
    forall t | t in blocks
      ensures t.start in b
    {
      assert t.start in Starts(blocks);
    }
  }

  lemma {:induction false} RestIsApart(blocks: seq<Span>, t: Span)
    requires blocks != [] && PairwiseApart(blocks) && Nonempty(blocks) && t in blocks[1..]
    ensures Apart(blocks[0], t) && t.start != blocks[0].start && t in blocks
  {
    var i :| 0 <= i < |blocks[1..]| && blocks[1..][i] == t;
    assert Apart(blocks[0], blocks[i + 1]);
    assert blocks[i + 1].start < blocks[i + 1].end && blocks[0].start < blocks[0].end;
  }

  lemma {:induction false} InRest(blocks: seq<Span>, k: nat)
    requires blocks != [] && PairwiseApart(blocks) && Nonempty(blocks)
    ensures InBlocks(blocks[1..], k) <==> InBlocks(blocks, k) && !(blocks[0].start <= k < blocks[0].end)
  {
    if InBlocks(blocks[1..], k) {
      var t :| t in blocks[1..] && t.start <= k < t.end;
      RestIsApart(blocks, t);
    }
    if InBlocks(blocks, k) && !(blocks[0].start <= k < blocks[0].end) {
      var t :| t in blocks && t.start <= k < t.end;
      assert blocks == [blocks[0]] + blocks[1..];
      assert t in blocks[1..];
    }
  }

  lemma {:induction false} RestIsNew(m0: Mem, b0: map<nat, nat>, blocks: seq<Span>)
    requires blocks != [] && NewBlocks(m0, b0, blocks)
    ensures NewBlocks(m0, b0, blocks[1..])
  {
    var rest := blocks[1..];
    assert forall i :: 0 <= i < |rest| ==> rest[i] == blocks[i + 1];
    forall i, j | 0 <= i < j < |rest| ensures Apart(rest[i], rest[j]) { assert Apart(blocks[i + 1], blocks[j + 1]); }
    forall k | k in m0 ensures !InBlocks(rest, k) { InRest(blocks, k); }
  }

  /** Releasing the first remaining block. */
  lemma {:induction false} ReleaseShrinks(m0: Mem, b0: map<nat, nat>, m: Mem, b: map<nat, nat>, blocks: seq<Span>)
    requires blocks != [] && NewBlocks(m0, b0, blocks) && Extended(m0, b0, m, b, blocks) && Quiet(m0, m)
    ensures var s := blocks[0];
      && s.start in b
      && NewBlocks(m0, b0, blocks[1..])
      && Extended(m0, b0, Without(m, s.start, b[s.start]), b - {s.start}, blocks[1..])
      && Quiet(m0, Without(m, s.start, b[s.start]))
  {
    var s := blocks[0];
    assert s in blocks && s.start in Starts(blocks);
    RestIsNew(m0, b0, blocks);
    RestMaps(m0, m, blocks, s.end - s.start);
    RestReserves(b0, b, blocks);
    forall k | k in m0
      ensures !(s.start <= k < s.end)
    {
      if s.start <= k < s.end {
        InBlocksOf(blocks, s, k);
      }
    }
  }

  lemma {:induction false} RestMaps(m0: Mem, m: Mem, blocks: seq<Span>, n: nat)
    requires blocks != [] && PairwiseApart(blocks) && Nonempty(blocks) && Maps(m0, m, blocks)
    requires forall k :: k in m0 ==> !InBlocks(blocks, k)
    requires n == blocks[0].end - blocks[0].start
    ensures Maps(m0, Without(m, blocks[0].start, n), blocks[1..])
  {
    var s := blocks[0];
    forall k: nat
      ensures InBlocks(blocks[1..], k) <==> InBlocks(blocks, k) && !(s.start <= k < s.end)
      ensures s.start <= k < s.end ==> InBlocks(blocks, k)
    {
      InRest(blocks, k);
      if s.start <= k < s.end {
        InBlocksOf(blocks, s, k);
      }
    }
    hide InBlocks;
  }

  lemma {:induction false} RestReserves(b0: map<nat, nat>, b: map<nat, nat>, blocks: seq<Span>)
    requires blocks != [] && PairwiseApart(blocks) && Nonempty(blocks) && Reserves(b0, b, blocks)
    requires forall s :: s in blocks ==> s.start !in b0
    ensures Reserves(b0, b - {blocks[0].start}, blocks[1..])
  {
    var s, rest := blocks[0], blocks[1..];
    assert blocks == [s] + rest;
    forall t | t in rest
      ensures t.start != s.start && t in blocks
    {
      RestIsApart(blocks, t);
    }
    assert Starts(blocks) == Starts(rest) + {s.start};
    assert s.start !in Starts(rest);
  }

  /** With no block left, the memory and the reservations are the original ones. */
  lemma {:induction false} NothingExtended(m0: Mem, b0: map<nat, nat>, m: Mem, b: map<nat, nat>)
    requires Extended(m0, b0, m, b, []) && Quiet(m0, m)
    ensures m == m0 && b == b0
  {
  }

  // ----- writes and the spans they touch

  predicate InSpan(w: Placed, k: nat) {
    w.address <= k < w.address + |w.after|
  }

  predicate InSpans(ws: seq<Placed>, k: nat) {
    exists w :: w in ws && InSpan(w, k)
  }

  /** The memories differ at most inside the spans of `ws`. */
  predicate SameBut(m: Mem, m': Mem, ws: seq<Placed>) {
    && m.Keys == m'.Keys
    && forall k :: k in m && !InSpans(ws, k) ==> m'[k] == m[k]
  }

  function SpanOfPlaced(w: Placed): Span {
    Span(w.address, w.address + |w.after|)
  }

  predicate PlacedApart(ws: seq<Placed>) {
    forall i, j :: 0 <= i < j < |ws| ==> Apart(SpanOfPlaced(ws[i]), SpanOfPlaced(ws[j]))
  }

  predicate SameLengths(ws: seq<Placed>) {
    forall w :: w in ws ==> |w.after| == |w.before| > 0
  }

  /** Every write of the plan's fresh modules, in the order they are made. */
  function FreshWrites(plan: seq<Prepared>): seq<Placed> {
    if plan == [] then []
    else (if plan[0].isNew then plan[0].writes else []) + FreshWrites(plan[1..])
  }

  lemma {:induction false} FreshWritesAppend(a: seq<Prepared>, b: seq<Prepared>)
    ensures FreshWrites(a + b) == FreshWrites(a) + FreshWrites(b)
  {
    if a == [] {
      assert a + b == b;
      assert FreshWrites(a) == [];
    } else {
      assert (a + b)[1..] == a[1..] + b;
      FreshWritesAppend(a[1..], b);
    }
  }

  lemma {:induction false} FreshWriteIn(plan: seq<Prepared>, i: nat, w: Placed)
    requires i < |plan| && plan[i].isNew && w in plan[i].writes
    ensures w in FreshWrites(plan)
  {
    if i > 0 {
      FreshWriteIn(plan[1..], i - 1, w);
    }
  }

  lemma {:induction false} FreshWriteFrom(plan: seq<Prepared>, w: Placed) returns (i: nat)
    requires w in FreshWrites(plan)
    ensures i < |plan| && plan[i].isNew && w in plan[i].writes
  {
    if plan[0].isNew && w in plan[0].writes {
      i := 0;
    } else {
      i := FreshWriteFrom(plan[1..], w);
      i := i + 1;
    }
  }

  lemma {:induction false} SameButStep(m: Mem, m1: Mem, m2: Mem, ws: seq<Placed>, w: Placed)
    requires SameBut(m, m1, ws) && w in ws && AgreeOutside(m1, m2, w.address, |w.after|)
    ensures SameBut(m, m2, ws)
  {
    forall k | k in m && !InSpans(ws, k)
      ensures m2[k] == m[k]
    {
      assert !InSpan(w, k);
    }
  }

  lemma {:induction false} HoldsKept(m: Mem, m': Mem, ws: seq<Placed>, a: nat, data: seq<byte>)
    requires Holds(m, a, data) && SameBut(m, m', ws)
    requires forall k :: a <= k < a + |data| ==> !InSpans(ws, k)
    ensures Holds(m', a, data)
  {
  }

  // ----- the safety of every moment

  /** A finished hook of the run: its site holds what was placed, and did not before. */
  predicate Armed(m: Mem, w: Placed) {
    Holds(m, w.address, w.after) && w.after != w.before
  }

  /** Every finished hook enters a block that is mapped and holds its whole payload. */
  ghost predicate Safe(m: Mem, plan: seq<Prepared>) {
    forall i, w :: 0 <= i < |plan| && plan[i].isNew && w in plan[i].writes && Armed(m, w)
      ==> Holds(m, plan[i].block, plan[i].code)
  }

  predicate Loaded(m: Mem, plan: seq<Prepared>) {
    forall i :: 0 <= i < |plan| && plan[i].isNew ==> Holds(m, plan[i].block, plan[i].code)
  }

  predicate SitesStock(m: Mem, ws: seq<Placed>) {
    forall w :: w in ws ==> Holds(m, w.address, w.before)
  }

  lemma {:induction false} StockIsNotArmed(m: Mem, w: Placed)
    requires Holds(m, w.address, w.before) && |w.before| == |w.after|
    ensures !Armed(m, w)
  {
    if forall i :: 0 <= i < |w.after| ==> w.after[i] == w.before[i] {
      assert w.after == w.before;
    } else {
      var i :| 0 <= i < |w.after| && w.after[i] != w.before[i];
      assert m[w.address + i] == w.before[i];
    }
  }

  /** Before any hook is touched, no hook of the run is finished. */
  lemma {:induction false} QuietIsSafe(m0: Mem, m: Mem, plan: seq<Prepared>)
    requires Quiet(m0, m)
    requires SitesStock(m0, FreshWrites(plan)) && SameLengths(FreshWrites(plan))
    ensures Safe(m, plan)
  {
    forall i, w | 0 <= i < |plan| && plan[i].isNew && w in plan[i].writes
      ensures !Armed(m, w)
    {
      FreshWriteIn(plan, i, w);
      assert Holds(m, w.address, w.before);
      StockIsNotArmed(m, w);
    }
  }
}
