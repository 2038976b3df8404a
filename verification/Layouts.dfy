/** Where a module's units go in their block, and the block as it is linked
    (crates/core/src/unit_apply.rs: `layout`, `linked`). */
module Layouts {
  import opened Outcome
  import opened Bytes
  import opened Units
  import opened Spans
  import Sha256

  const HEADER := 32
  const TRACE_RING := 0x10 + 32 * 16

  /** What the installer is told about the module's file on disk. */
  datatype File = Absent | Unreadable | Hashed(sha: string)

  datatype Target = Target(pid: int, base: nat, size: nat, file: File)

  datatype Module = Module(target: Target, payloads: seq<Payload>)

  /** The callbacks a caller supplies, and the rendering of a unit that is hashed into an identity. */
  datatype Context = Context(exports: Exports, initialize: (Unit, seq<byte>) -> Result<seq<byte>>,
                             describe: Unit -> seq<byte>)

  datatype Layout = Layout(offsets: seq<nat>, ring: nat, bytes: nat, identity: seq<byte>)

  /** A block's contents and what is written at the module's sites. */
  datatype Linked = Linked(code: seq<byte>, writes: seq<Placed>)

  /** `initialize` fills cells in place, so it cannot change a unit's length. */
  ghost predicate KeepsLength(c: Context) {
    forall u: Unit, code: seq<byte> :: c.initialize(u, code).Ok? ==> |c.initialize(u, code).value| == |code|
  }

  function PREFIX(): seq<byte> {
    // "Defiance injector units v1"
    [68, 101, 102, 105, 97, 110, 99, 101, 32, 105, 110, 106, 101, 99, 116, 111, 114, 32,
     117, 110, 105, 116, 115, 32, 118, 49]
  }

  function Align16(v: nat): nat {
    v / 16 * 16
  }

  /** The rest of the layout, with the units so far ending at `end`, and all that is hashed. */
  function LayoutFrom(payloads: seq<Payload>, end: nat, offsets: seq<nat>, hashed: seq<byte>,
                      describe: Unit -> seq<byte>)
    : (r: Result<Layout>)
    ensures r.Ok? ==> |r.value.identity| == 32
  {
    if payloads == [] then Ok(Layout(offsets, end, end + TRACE_RING, Sha256.Digest(hashed)))
    else
      var p := payloads[0];
      if |p.code| != p.unit.unitBytes then Err(PayloadLength)
      else if end + |p.code| + 15 >= WORD64 then Err(AllocationOverflow)
      else LayoutFrom(payloads[1..], Align16(end + |p.code| + 15), offsets + [end],
                      hashed + describe(p.unit) + p.code, describe)
  }

  function LayoutOf(payloads: seq<Payload>, describe: Unit -> seq<byte>): Result<Layout> {
    LayoutFrom(payloads, HEADER, [], PREFIX(), describe)
  }

  /** A payload's description and code into the identity. */
  method FeedPayload(hasher: Sha256.Hasher, description: seq<byte>, code: seq<byte>)
    requires hasher.Valid() && hasher.Counting()
    modifies hasher, hasher.state, hasher.buffer
    ensures hasher.Valid() && hasher.Counting()
    ensures hasher.Fed() == old(hasher.Fed()) + description + code
  {
    hasher.Update(description);
    hasher.Update(code);
  }

  /** The loop of `layout`, hashing as it goes. */
  method ComputeLayout(payloads: seq<Payload>, describe: Unit -> seq<byte>) returns (r: Result<Layout>)
    ensures r == LayoutOf(payloads, describe)
  {
    hide Sha256.Digest, Sha256.Absorb, Sha256.Hasher.Valid, Sha256.Hasher.Fed, PREFIX, Align16;
    var hasher := new Sha256.Hasher();
    hasher.Update(PREFIX());
    assert hasher.Fed() == PREFIX();
    var end: nat := HEADER;
    var offsets: seq<nat> := [];
    for i := 0 to |payloads|
      invariant hasher.Valid() && hasher.Counting()
      invariant fresh(hasher) && fresh(hasher.state) && fresh(hasher.buffer)
      invariant LayoutOf(payloads, describe) == LayoutFrom(payloads[i..], end, offsets, hasher.Fed(), describe)
    {
      var p := payloads[i];
      assert payloads[i..][1..] == payloads[i + 1..];
      if |p.code| != p.unit.unitBytes {
        return Err(PayloadLength);
      }
      if end + |p.code| + 15 >= WORD64 {
        return Err(AllocationOverflow);
      }
      offsets := offsets + [end];
      end := Align16(end + |p.code| + 15);
      FeedPayload(hasher, describe(p.unit), p.code);
    }
    var identity := hasher.Finish();
    return Ok(Layout(offsets, end, end + TRACE_RING, identity));
  }

  /** The text that starts every identity, as bytes. */
  function Ascii(s: string): (r: seq<byte>)
    requires forall i :: 0 <= i < |s| ==> s[i] as int < 0x80
  {
    seq(|s|, i requires 0 <= i < |s| => s[i] as int)
  }

  /** Every unit's description and code. */
  function Described(payloads: seq<Payload>, describe: Unit -> seq<byte>): seq<byte> {
    if payloads == [] then [] else describe(payloads[0].unit) + payloads[0].code + Described(payloads[1..], describe)
  }

  /** Behind a unit at `start`, as long as its descriptor says, the next one is at `next`: the first multiple of 16. */
  predicate Follows(p: Payload, start: nat, next: nat) {
    && |p.code| == p.unit.unitBytes && start + |p.code| + 15 < WORD64
    && next % 16 == 0 && 0 <= next - (start + |p.code|) < 16
  }

  /** Where unit `i` starts; the trace ring starts behind the last one. */
  function StartOf(offsets: seq<nat>, ring: nat, i: nat): nat {
    if i < |offsets| then offsets[i] else ring
  }

  /** From `start` on the units follow one another, and the trace ring the last. */
  predicate Stacks(payloads: seq<Payload>, offsets: seq<nat>, start: nat, ring: nat) {
    && |offsets| == |payloads| && StartOf(offsets, ring, 0) == start
    && forall i :: 0 <= i < |payloads| ==>
         Follows(payloads[i], StartOf(offsets, ring, i), StartOf(offsets, ring, i + 1))
  }

  /** `l` is the layout: behind a header of 32 bytes the units, each as long as its descriptor says, at multiples of 16,
      then a trace ring of 528 bytes; the identity is the digest of the installer's name and of every unit. */
  predicate LaysOut(payloads: seq<Payload>, describe: Unit -> seq<byte>, l: Layout) {
    && Stacks(payloads, l.offsets, 32, l.ring) && l.bytes == l.ring + 528
    && l.identity == Sha256.Digest(Ascii("Defiance injector units v1") + Described(payloads, describe))
  }

  lemma {:induction false} PrefixIsName()
    ensures PREFIX() == Ascii("Defiance injector units v1")
  {
  }

  lemma {:induction false} NextMultiple(v: nat, next: nat)
    ensures next == Align16(v + 15) <==> next % 16 == 0 && 0 <= next - v < 16
  {
    var q, r := (v + 15) / 16, next / 16;
    assert v + 15 == 16 * q + (v + 15) % 16;
    assert next == 16 * r + next % 16;
  }

  lemma {:induction false} FollowsExactly(p: Payload, start: nat, next: nat)
    ensures Follows(p, start, next)
       <==> |p.code| == p.unit.unitBytes && start + |p.code| + 15 < WORD64 && next == Align16(start + |p.code| + 15)
  {
    hide Align16;
    NextMultiple(start + |p.code|, next);
  }

  lemma {:induction false} StacksCons(payloads: seq<Payload>, offsets: seq<nat>, start: nat, ring: nat)
    requires |offsets| == |payloads| > 0
    ensures Stacks(payloads, offsets, start, ring)
       <==> && offsets[0] == start && Follows(payloads[0], start, StartOf(offsets[1..], ring, 0))
            && Stacks(payloads[1..], offsets[1..], StartOf(offsets[1..], ring, 0), ring)
  {
    hide Follows;
    var next := StartOf(offsets[1..], ring, 0);
    if Stacks(payloads, offsets, start, ring) {
      forall i | 0 <= i < |payloads[1..]|
        ensures Follows(payloads[1..][i], StartOf(offsets[1..], ring, i), StartOf(offsets[1..], ring, i + 1))
      {
        assert Follows(payloads[i + 1], StartOf(offsets, ring, i + 1), StartOf(offsets, ring, i + 1 + 1));
      }
      assert Follows(payloads[0], StartOf(offsets, ring, 0), StartOf(offsets, ring, 0 + 1));
    }
    if offsets[0] == start && Follows(payloads[0], start, next) && Stacks(payloads[1..], offsets[1..], next, ring) {
      forall i | 0 <= i < |payloads|
        ensures Follows(payloads[i], StartOf(offsets, ring, i), StartOf(offsets, ring, i + 1))
      {
        if i > 0 {
          assert Follows(payloads[1..][i - 1], StartOf(offsets[1..], ring, i - 1), StartOf(offsets[1..], ring,
                i - 1 + 1));
        }
      }
    }
  }

  lemma {:induction false} LayoutFromExactly(payloads: seq<Payload>, end: nat, offsets: seq<nat>, hashed: seq<byte>,
                                             describe: Unit -> seq<byte>, later: seq<nat>, ring: nat)
    ensures LayoutFrom(payloads, end, offsets, hashed, describe)
         == Ok(Layout(offsets + later, ring, ring + 528, Sha256.Digest(hashed + Described(payloads, describe))))
       <==> Stacks(payloads, later, end, ring)
    ensures var r := LayoutFrom(payloads, end, offsets, hashed, describe);
      r.Ok? ==> |r.value.offsets| == |offsets| + |payloads| && r.value.offsets[..|offsets|] == offsets
                && r.value.bytes == r.value.ring + 528
                && r.value.identity == Sha256.Digest(hashed + Described(payloads, describe))
  {
    hide Sha256.Digest, Align16;
    if payloads == [] {
      assert hashed + [] == hashed && offsets + [] == offsets;
      assert |offsets + later| == |offsets| ==> later == [];
    } else {
      var p := payloads[0];
      var next, more := Align16(end + |p.code| + 15), hashed + describe(p.unit) + p.code;
      assert hashed + Described(payloads, describe) == more + Described(payloads[1..], describe);
      if later != [] {
        LayoutFromExactly(payloads[1..], next, offsets + [end], more, describe, later[1..], ring);
        FollowsExactly(p, end, StartOf(later[1..], ring, 0));
        if |later| == |payloads| {
          StacksCons(payloads, later, end, ring);
        }
        assert (offsets + later)[|offsets|] == later[0];
        if later[0] == end {
          assert offsets + later == offsets + [end] + later[1..];
        }
      } else {
        LayoutFromExactly(payloads[1..], next, offsets + [end], more, describe, later, ring);
      }
      var r := LayoutFrom(payloads, end, offsets, hashed, describe);
      if r.Ok? {
        assert r.value.offsets[|offsets|] == r.value.offsets[..|offsets| + 1][|offsets|] == end;
        assert r.value.offsets[..|offsets|] == r.value.offsets[..|offsets| + 1][..|offsets|];
      }
    }
  }

  /** The layout, exactly: it is refused where some code is not as long as its unit says or the block would not fit the
      address space, and otherwise it is the one layout of these units. */
  lemma {:induction false} LayoutIsExact(payloads: seq<Payload>, describe: Unit -> seq<byte>, l: Layout)
    ensures LayoutOf(payloads, describe) == Ok(l) <==> LaysOut(payloads, describe, l)
  {
    hide LayoutFrom, Stacks, Sha256.Digest, PREFIX;
    PrefixIsName();
    LayoutFromExactly(payloads, 32, [], PREFIX(), describe, l.offsets, l.ring);
    assert [] + l.offsets == l.offsets;
  }

  /** The units from the first offset on lie one after another, before the ring. */
  predicate Stacked(payloads: seq<Payload>, offsets: seq<nat>, start: nat, ring: nat) {
    && |offsets| == |payloads|
    && if payloads == [] then start == ring
       else
         && offsets[0] == start
         && |payloads[0].code| == payloads[0].unit.unitBytes
         && exists next: nat ::
              start + |payloads[0].code| <= next <= ring && Stacked(payloads[1..], offsets[1..], next, ring)
  }

  lemma {:induction false} LayoutStacks(payloads: seq<Payload>, end: nat, offsets: seq<nat>, hashed: seq<byte>,
                                        describe: Unit -> seq<byte>)
    requires LayoutFrom(payloads, end, offsets, hashed, describe).Ok?
    ensures var l := LayoutFrom(payloads, end, offsets, hashed, describe).value;
      && |offsets| <= |l.offsets| && l.offsets[..|offsets|] == offsets
      && end <= l.ring && l.bytes == l.ring + TRACE_RING
      && Stacked(payloads, l.offsets[|offsets|..], end, l.ring)
  {
    hide Sha256.Digest;
    var l := LayoutFrom(payloads, end, offsets, hashed, describe).value;
    if payloads != [] {
      var p := payloads[0];
      var next := Align16(end + |p.code| + 15);
      LayoutStacks(payloads[1..], next, offsets + [end], hashed + describe(p.unit) + p.code, describe);
      var rest := l.offsets[|offsets|..];
      assert l.offsets[|offsets|] == l.offsets[..|offsets| + 1][|offsets|] == end;
      assert rest[1..] == l.offsets[|offsets| + 1..];
      assert l.offsets[..|offsets|] == l.offsets[..|offsets| + 1][..|offsets|];
    }
  }

  lemma {:induction false} StackedApart(payloads: seq<Payload>, offsets: seq<nat>, start: nat, ring: nat, i: nat,
                                        j: nat)
    requires Stacked(payloads, offsets, start, ring) && i <= j < |payloads|
    ensures start <= offsets[i] && offsets[i] + |payloads[i].code| <= ring
    ensures |payloads[i].code| == payloads[i].unit.unitBytes
    ensures i < j ==> offsets[i] + |payloads[i].code| <= offsets[j]
  {
    var next: nat :| start + |payloads[0].code| <= next <= ring && Stacked(payloads[1..], offsets[1..], next, ring);
    if j > 0 {
      StackedApart(payloads[1..], offsets[1..], next, ring, if i == 0 then j - 1 else i - 1, j - 1);
    }
  }

  /** Laid-out units, the header and the trace ring never overlap, and the block holds them all. */
  lemma {:induction false} LayoutIsDisjoint(payloads: seq<Payload>, describe: Unit -> seq<byte>)
    requires LayoutOf(payloads, describe).Ok?
    ensures var l := LayoutOf(payloads, describe).value;
      && |l.offsets| == |payloads| && l.bytes == l.ring + TRACE_RING && HEADER <= l.ring && |l.identity| == HEADER
      && (forall i :: 0 <= i < |payloads| ==>
            && HEADER <= l.offsets[i] && l.offsets[i] + |payloads[i].code| <= l.ring
            && |payloads[i].code| == payloads[i].unit.unitBytes)
      && (forall i, j :: 0 <= i < j < |payloads| ==> l.offsets[i] + |payloads[i].code| <= l.offsets[j])
  {
    hide Sha256.Digest, PREFIX;
    var l := LayoutOf(payloads, describe).value;
    LayoutStacks(payloads, HEADER, [], PREFIX(), describe);
    assert l.offsets[0..] == l.offsets;
    forall i, j | 0 <= i <= j < |payloads|
      ensures HEADER <= l.offsets[i] && l.offsets[i] + |payloads[i].code| <= l.ring
      ensures |payloads[i].code| == payloads[i].unit.unitBytes
      ensures i < j ==> l.offsets[i] + |payloads[i].code| <= l.offsets[j]
    {
      StackedApart(payloads, l.offsets, HEADER, l.ring, i, j);
    }
    forall i | 0 <= i < |payloads|
      ensures HEADER <= l.offsets[i] && l.offsets[i] + |payloads[i].code| <= l.ring
      ensures |payloads[i].code| == payloads[i].unit.unitBytes
    {
      StackedApart(payloads, l.offsets, HEADER, l.ring, i, i);
    }
  }

  // ----- linking every unit of a module into its block

  /** The only cell units share is the trace ring at the end of the block. */
  function SharedCells(ring: nat): Cells {
    name => if name == "trace_ring" then Some(ring) else None
  }

  /** In a linked unit every slot of a shared cell leads to the trace ring; a unit that asks for another is not linked.
      */
  lemma {:induction false} SharedSlots(u: Unit, blob: seq<byte>, base: nat, at: nat, ring: nat, exports: Exports,
                                       j: nat)
    requires Check(u) && SlotsDisjoint(u.fixups) && j < |u.fixups| && u.fixups[j].Imported?
    requires Link(u, blob, base, at, SharedCells(ring), exports).Ok?
    ensures var code, f := Link(u, blob, base, at, SharedCells(ring), exports).value, u.fixups[j];
      && f.cell == "trace_ring" && f.offset + 4 <= |code|
      && at + f.end + I32(code[f.offset..f.offset + 4]) == ring
  {
    hide Link, SlotsDisjoint, Check;
    LinkIsExact(u, blob, base, at, SharedCells(ring), exports);
    assert Resolved(u.fixups[j], Link(u, blob, base, at, SharedCells(ring), exports).value, base, at, SharedCells(ring),
                    exports);
  }

  /** A unit links over the shared cells exactly when each of its cells is the ring, in reach, and the other slots
      resolve without any. */
  lemma {:induction false} SharedLinks(u: Unit, blob: seq<byte>, base: nat, at: nat, ring: nat, exports: Exports)
    requires Check(u) && SlotsDisjoint(u.fixups)
    ensures Link(u, blob, base, at, SharedCells(ring), exports).Ok?
       <==> |blob| == u.unitBytes
            && forall j :: 0 <= j < |u.fixups| ==> SharedResolvable(u.fixups[j], base, at, ring, exports)
  {
    hide Link, SlotsDisjoint, Check;
    LinkIsExact(u, blob, base, at, SharedCells(ring), exports);
    forall j | 0 <= j < |u.fixups|
      ensures Resolvable(u.fixups[j], base, at, SharedCells(ring), exports)
         <==> SharedResolvable(u.fixups[j], base, at, ring, exports)
    {
    }
  }

  ghost predicate SharedResolvable(f: Fixup, base: nat, at: nat, ring: nat, exports: Exports) {
    match f
    case Imported(_, end, name) => name == "trace_ring" && -0x8000_0000 <= ring - (at + end) < 0x8000_0000
    case _ => Resolvable(f, base, at, _ => None, exports)
  }

  predicate UnitsFit(payloads: seq<Payload>, offsets: seq<nat>, size: nat) {
    && |offsets| == |payloads| && Checked(payloads)
    && forall i :: 0 <= i < |payloads| ==> offsets[i] + payloads[i].unit.unitBytes <= size
  }

  function LinkUnit(p: Payload, base: nat, at: nat, ring: nat, c: Context): (r: Result<seq<byte>>)
    requires Check(p.unit)
  {
    var unit :- Link(p.unit, p.code, base, at, SharedCells(ring), c.exports);
    c.initialize(p.unit, unit)
  }

  /** The rest of the block, with the earlier units already in `done`. */
  function LinkFromUnit(payloads: seq<Payload>, offsets: seq<nat>, base: nat, block: nat, ring: nat, c: Context,
                        done: Linked)
    : (r: Result<Linked>)
    requires KeepsLength(c) && UnitsFit(payloads, offsets, |done.code|)
    ensures r.Ok? ==> |r.value.code| == |done.code|
    decreases payloads
  {
    if payloads == [] then Ok(done)
    else
      var p, at := payloads[0], block + offsets[0];
      var unit :- LinkUnit(p, base, at, block + ring, c);
      var code := Put(done.code, offsets[0], unit);
      var placed :- PlacedWrites(p.unit, base, at);
      LinkFromUnit(payloads[1..], offsets[1..], base, block, ring, c, Linked(code, done.writes + placed))
  }

  function Blank(l: Layout): (r: seq<byte>)
    requires |l.identity| == HEADER <= l.bytes
    ensures |r| == l.bytes
  {
    l.identity + seq(l.bytes - HEADER, _ => 0)
  }

  /** `l` lays out `m`, so its units fit its block. */
  predicate Fits(m: Module, l: Layout) {
    && |l.identity| == HEADER <= l.ring && l.bytes == l.ring + TRACE_RING
    && UnitsFit(m.payloads, l.offsets, l.ring)
    && forall i :: 0 <= i < |l.offsets| ==> HEADER <= l.offsets[i]
  }

  lemma {:induction false} LayoutFits(m: Module, describe: Unit -> seq<byte>)
    requires Checked(m.payloads) && LayoutOf(m.payloads, describe).Ok?
    ensures Fits(m, LayoutOf(m.payloads, describe).value)
  {
    hide LayoutOf;
    LayoutIsDisjoint(m.payloads, describe);
  }

  function LinkModule(m: Module, l: Layout, block: nat, c: Context): (r: Result<Linked>)
    requires KeepsLength(c) && Fits(m, l)
    ensures r.Ok? ==> |r.value.code| == l.bytes
  {
    LinkFromUnit(m.payloads, l.offsets, m.target.base, block, l.ring, c, Linked(Blank(l), []))
  }

  /** The loop of `linked`. */
  method LinkBlock(m: Module, l: Layout, block: nat, c: Context) returns (r: Result<Linked>)
    requires KeepsLength(c) && Fits(m, l)
    ensures r == LinkModule(m, l, block, c)
  {
    hide Blank, Link, PlacedWrites, SharedCells, Put, Check;
    var code := Blank(l);
    var writes: seq<Placed> := [];
    for i := 0 to |m.payloads|
      invariant |code| == l.bytes
      invariant UnitsFit(m.payloads[i..], l.offsets[i..], |code|)
      invariant LinkModule(m, l, block, c)
             == LinkFromUnit(m.payloads[i..], l.offsets[i..], m.target.base, block, l.ring, c, Linked(code, writes))
    {
      var p, offset := m.payloads[i], l.offsets[i];
      assert m.payloads[i..][0] == p && l.offsets[i..][0] == offset;
      assert m.payloads[i..][1..] == m.payloads[i + 1..] && l.offsets[i..][1..] == l.offsets[i + 1..];
      var unit := LinkBlob(p.unit, p.code, m.target.base, block + offset, SharedCells(block + l.ring), c.exports);
      if unit.Err? {
        return Err(unit.error);
      }
      var filled := c.initialize(p.unit, unit.value);
      if filled.Err? {
        return Err(filled.error);
      }
      code := Put(code, offset, filled.value);
      var placed := PlacedWrites(p.unit, m.target.base, block + offset);
      if placed.Err? {
        return Err(placed.error);
      }
      writes := writes + placed.value;
    }
    return Ok(Linked(code, writes));
  }

  // ----- what a linked block holds

  /** The placed writes of every unit, in order. */
  function PlacedAll(payloads: seq<Payload>, offsets: seq<nat>, base: nat, block: nat): Result<seq<Placed>>
    requires |offsets| == |payloads|
  {
    if payloads == [] then Ok([])
    else
      var first :- PlacedWrites(payloads[0].unit, base, block + offsets[0]);
      var rest :- PlacedAll(payloads[1..], offsets[1..], base, block);
      Ok(first + rest)
  }

  predicate InUnit(p: Payload, offset: nat, k: int) {
    offset <= k < offset + p.unit.unitBytes
  }

  predicate InUnits(payloads: seq<Payload>, offsets: seq<nat>, k: int)
    requires |offsets| == |payloads|
  {
    exists i :: 0 <= i < |payloads| && InUnit(payloads[i], offsets[i], k)
  }

  lemma {:induction false} InLaterUnits(payloads: seq<Payload>, offsets: seq<nat>, k: int)
    requires |offsets| == |payloads| > 0 && !InUnits(payloads, offsets, k)
    ensures !InUnit(payloads[0], offsets[0], k) && !InUnits(payloads[1..], offsets[1..], k)
  {
    hide InUnit;
  }

  /** A linked block lists the writes of all its units and keeps every byte that lies in none of them. */
  lemma {:induction false} LinkedHolds(payloads: seq<Payload>, offsets: seq<nat>, base: nat, block: nat, ring: nat,
                                       c: Context, done: Linked)
    requires KeepsLength(c) && UnitsFit(payloads, offsets, |done.code|)
    requires LinkFromUnit(payloads, offsets, base, block, ring, c, done).Ok?
    ensures var r := LinkFromUnit(payloads, offsets, base, block, ring, c, done).value;
      && PlacedAll(payloads, offsets, base, block).Ok?
      && r.writes == done.writes + PlacedAll(payloads, offsets, base, block).value
      && (forall k :: 0 <= k < |r.code| && !InUnits(payloads, offsets, k) ==> r.code[k] == done.code[k])
    decreases payloads
  {
    hide Link, PlacedWrites, InUnits;
    if payloads == [] {
      assert done.writes + [] == done.writes;
    } else {
      var p, at := payloads[0], block + offsets[0];
      var unit := LinkUnit(p, base, at, block + ring, c).value;
      var code := Put(done.code, offsets[0], unit);
      var placed := PlacedWrites(p.unit, base, at).value;
      LinkedHolds(payloads[1..], offsets[1..], base, block, ring, c, Linked(code, done.writes + placed));
      var rest := PlacedAll(payloads[1..], offsets[1..], base, block).value;
      assert done.writes + placed + rest == done.writes + (placed + rest);
      forall k | 0 <= k < |done.code| && !InUnits(payloads, offsets, k)
        ensures !InUnits(payloads[1..], offsets[1..], k) && code[k] == done.code[k]
      {
        InLaterUnits(payloads, offsets, k);
      }
    }
  }

  /** The units lie one behind the other. */
  predicate InSequence(payloads: seq<Payload>, offsets: seq<nat>)
    requires |offsets| == |payloads|
  {
    forall i, j :: 0 <= i < j < |payloads| ==> offsets[i] + payloads[i].unit.unitBytes <= offsets[j]
  }

  /** The first unit linked, the others to come. */
  lemma {:induction false} LinkStep(payloads: seq<Payload>, offsets: seq<nat>, base: nat, block: nat, ring: nat,
                                    c: Context, done: Linked) returns (unit: seq<byte>, next: Linked)
    requires KeepsLength(c) && UnitsFit(payloads, offsets, |done.code|) && payloads != []
    requires LinkFromUnit(payloads, offsets, base, block, ring, c, done).Ok?
    ensures LinkUnit(payloads[0], base, block + offsets[0], block + ring, c) == Ok(unit)
    ensures |unit| == payloads[0].unit.unitBytes && |next.code| == |done.code|
    ensures next.code[offsets[0]..offsets[0] + |unit|] == unit
    ensures LinkFromUnit(payloads, offsets, base, block, ring, c, done)
         == LinkFromUnit(payloads[1..], offsets[1..], base, block, ring, c, next)
  {
    hide Link, PlacedWrites;
    var p, at := payloads[0], block + offsets[0];
    unit := LinkUnit(p, base, at, block + ring, c).value;
    next := Linked(Put(done.code, offsets[0], unit), done.writes + PlacedWrites(p.unit, base, at).value);
  }

  lemma {:induction false} FirstUnitStays(payloads: seq<Payload>, offsets: seq<nat>, base: nat, block: nat, ring: nat,
                                          c: Context, done: Linked, start: nat, end: nat)
    requires KeepsLength(c) && UnitsFit(payloads, offsets, |done.code|)
    requires LinkFromUnit(payloads, offsets, base, block, ring, c, done).Ok?
    requires start <= end <= |done.code| && forall k :: k < end ==> !InUnits(payloads, offsets, k)
    ensures LinkFromUnit(payloads, offsets, base, block, ring, c, done).value.code[start..end] == done.code[start..end]
  {
    hide LinkFromUnit, InUnits, PlacedAll, Check;
    LinkedHolds(payloads, offsets, base, block, ring, c, done);
  }

  /** No later unit overwrites an earlier one. */
  lemma {:induction false} LinkedUnitIn(payloads: seq<Payload>, offsets: seq<nat>, base: nat, block: nat, ring: nat,
                                        c: Context, done: Linked, i: nat)
    requires KeepsLength(c) && UnitsFit(payloads, offsets, |done.code|) && InSequence(payloads, offsets)
      && i < |payloads|
    requires LinkFromUnit(payloads, offsets, base, block, ring, c, done).Ok?
    ensures var unit := LinkUnit(payloads[i], base, block + offsets[i], block + ring, c);
      && unit.Ok?
      && LinkFromUnit(payloads, offsets, base, block, ring, c, done).value.code
           [offsets[i]..offsets[i] + payloads[i].unit.unitBytes] == unit.value
    decreases payloads
  {
    hide LinkUnit, LinkFromUnit, Check;
    var unit, next := LinkStep(payloads, offsets, base, block, ring, c, done);
    if i > 0 {
      LinkedUnitIn(payloads[1..], offsets[1..], base, block, ring, c, next, i - 1);
    } else {
      LaterUnitsBehind(payloads, offsets);
      FirstUnitStays(payloads[1..], offsets[1..], base, block, ring, c, next, offsets[0], offsets[0] + |unit|);
    }
  }

  lemma {:induction false} LaterUnitsBehind(payloads: seq<Payload>, offsets: seq<nat>)
    requires |offsets| == |payloads| > 0 && InSequence(payloads, offsets)
    ensures forall k :: k < offsets[0] + payloads[0].unit.unitBytes ==> !InUnits(payloads[1..], offsets[1..], k)
  {
  }

  lemma {:induction false} BlankHeader(l: Layout)
    requires |l.identity| == HEADER <= l.bytes
    ensures Blank(l)[..HEADER] == l.identity
  {
  }

  /** A linked module's block carries its identity, is zero between its units and in the ring, and its writes
      are its units' placed writes. */
  lemma {:induction false} LinkedModuleHolds(m: Module, l: Layout, block: nat, c: Context)
    requires KeepsLength(c) && Fits(m, l) && LinkModule(m, l, block, c).Ok?
    ensures var r := LinkModule(m, l, block, c).value;
      && |r.code| == l.bytes && r.code[..HEADER] == l.identity
      && (forall k :: HEADER <= k < l.bytes && !InUnits(m.payloads, l.offsets, k) ==> r.code[k] == 0)
      && PlacedAll(m.payloads, l.offsets, m.target.base, block) == Ok(r.writes)
  {
    hide LinkFromUnit, PlacedAll, Check;
    var r := LinkModule(m, l, block, c).value;
    LinkedHolds(m.payloads, l.offsets, m.target.base, block, l.ring, c, Linked(Blank(l), []));
    BlankHeader(l);
    assert r.code[..HEADER] == Blank(l)[..HEADER];
    var placed := PlacedAll(m.payloads, l.offsets, m.target.base, block).value;
    assert [] + placed == placed;
  }

  /** The linked code of unit `i` stands in the block at its offset, whole and before the ring. */
  predicate UnitStands(m: Module, l: Layout, block: nat, c: Context, code: seq<byte>, i: nat)
    requires |l.offsets| == |m.payloads| && i < |m.payloads| && Check(m.payloads[i].unit)
  {
    var p, offset := m.payloads[i], l.offsets[i];
    var unit := LinkUnit(p, m.target.base, block + offset, block + l.ring, c);
    && offset + p.unit.unitBytes <= l.ring <= |code|
    && unit.Ok? && code[offset..offset + p.unit.unitBytes] == unit.value
  }

  /** Every unit's linked code stands in the linked block: no later unit overwrites an earlier one. */
  lemma {:induction false} LinkedUnitStands(m: Module, l: Layout, block: nat, c: Context, i: nat)
    requires KeepsLength(c) && Fits(m, l) && LayoutOf(m.payloads, c.describe) == Ok(l)
    requires LinkModule(m, l, block, c).Ok? && i < |m.payloads|
    ensures UnitStands(m, l, block, c, LinkModule(m, l, block, c).value.code, i)
  {
    hide LayoutOf, LinkFromUnit, LinkUnit, Check, Blank;
    LayoutIsDisjoint(m.payloads, c.describe);
    LinkedUnitIn(m.payloads, l.offsets, m.target.base, block, l.ring, c, Linked(Blank(l), []), i);
  }

  predicate AllLandOver(placed: seq<Placed>, base: nat, writes: seq<Write>) {
    |placed| == |writes| && forall i :: 0 <= i < |placed| ==> LandsOver(placed[i], base, writes[i])
  }

  lemma {:induction false} AllLandOverAppend(a: seq<Placed>, b: seq<Placed>, base: nat, v: seq<Write>, w: seq<Write>)
    requires AllLandOver(a, base, v) && AllLandOver(b, base, w)
    ensures AllLandOver(a + b, base, v + w)
  {
    hide LandsOver;
    forall i | 0 <= i < |a + b|
      ensures LandsOver((a + b)[i], base, (v + w)[i])
    {
      if i >= |a| {
        assert (a + b)[i] == b[i - |a|] && (v + w)[i] == w[i - |a|];
      }
    }
  }

  lemma {:induction false} PlacedUnitSpans(u: Unit, base: nat, at: nat)
    requires Check(u) && PlacedWrites(u, base, at).Ok?
    ensures AllLandOver(PlacedWrites(u, base, at).value, base, u.writes)
  {
    forall i | 0 <= i < |u.writes|
      ensures LandsOver(PlacedWrites(u, base, at).value[i], base, u.writes[i])
    {
      assert WriteFits(u.writes[i], u.unitBytes);
      PlacedKeepsLength(u.writes[i], u.unitBytes, base, at);
    }
  }

  /** The placed writes of a module are its units' writes, each at its address. */
  lemma {:induction false} PlacedAllSpans(payloads: seq<Payload>, offsets: seq<nat>, base: nat, block: nat)
    requires |offsets| == |payloads| && Checked(payloads)
    requires PlacedAll(payloads, offsets, base, block).Ok?
    ensures AllLandOver(PlacedAll(payloads, offsets, base, block).value, base, WritesOf(payloads))
  {
    hide Check, PlacedWrites, AllLandOver;
    if payloads == [] {
      NoneLandOver(base);
    } else {
      var p, at := payloads[0], block + offsets[0];
      PlacedAllSpans(payloads[1..], offsets[1..], base, block);
      PlacedUnitSpans(p.unit, base, at);
      AllLandOverAppend(PlacedWrites(p.unit, base, at).value,
                        PlacedAll(payloads[1..], offsets[1..], base, block).value,
                        base, p.unit.writes, WritesOf(payloads[1..]));
    }
  }

  lemma {:induction false} NoneLandOver(base: nat)
    ensures AllLandOver([], base, [])
  {
  }
}
