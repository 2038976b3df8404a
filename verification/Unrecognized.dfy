/** Installations that a second run of the installer does not find again (crates/core/src/unit_apply.rs:140-179,
    251-268). */
module Unrecognized {
  import opened Outcome
  import opened Bytes
  import opened Memory
  import opened Units
  import opened Spans
  import opened Layouts
  import opened Recovery
  import opened Checks
  import opened Transaction
  import opened Phases
  import opened Apply
  import opened Repeat

  const BASE := 0x1_0000
  const BLOCK := 0x2_0000

  /** No export is known, and no cell is filled. */
  const PLAIN := Context((dll, name) => Err(NoExport), (u, code) => Ok(code), u => [])

  /** A module of sixteen bytes whose one unit is a single instruction and makes one write, at the module's start. */
  function Solo(w: Write, anchors: seq<Anchor>): Module {
    Module(Target(1, BASE, 16, Absent),
           [Payload(Unit("solo", "", "", "", 1, [], [w], [], [], anchors, [], []), [0xc3])])
  }

  /** The module before the run: the bytes the write replaces. */
  function Stock(w: Write): Mem {
    Poke(WithBlock(map[], BASE, |w.before|), BASE, w.before)
  }

  predicate Suits(w: Write, anchors: seq<Anchor>) {
    && WriteFits(w, 1) && w.rva == 0 && |w.before| <= 16
    && forall a :: a in anchors ==> a.rva + |a.bytes| <= |w.before| && a.bytes == w.before[a.rva..a.rva + |a.bytes|]
  }

  lemma {:induction false} SoloLayout(w: Write, anchors: seq<Anchor>) returns (l: Layout)
    ensures LayoutOf(Solo(w, anchors).payloads, PLAIN.describe) == Ok(l)
    ensures l.offsets == [HEADER] && l.ring == 48 && l.bytes == 48 + TRACE_RING && |l.identity| == HEADER
  {
    hide Sha256.Digest, PREFIX;
    var p := Solo(w, anchors).payloads[0];
    assert Align16(HEADER + 1 + 15) == 48;
    var hashed := PREFIX() + PLAIN.describe(p.unit) + p.code;
    assert LayoutFrom([p], HEADER, [], PREFIX(), PLAIN.describe)
        == LayoutFrom([p][1..], 48, [] + [HEADER], hashed, PLAIN.describe);
    l := LayoutOf(Solo(w, anchors).payloads, PLAIN.describe).value;
  }

  lemma {:induction false} StockHolds(w: Write, anchors: seq<Anchor>)
    requires Suits(w, anchors)
    ensures Holds(Stock(w), BASE, w.before) && forall k :: k in Stock(w) ==> BASE <= k < BASE + 16
    ensures forall a :: a in anchors ==> Holds(Stock(w), BASE + a.rva, a.bytes)
  {
    forall a | a in anchors
      ensures Holds(Stock(w), BASE + a.rva, a.bytes)
    {
      forall k | BASE + a.rva <= k < BASE + a.rva + |a.bytes|
        ensures k in Stock(w) && Stock(w)[k] == a.bytes[k - BASE - a.rva]
      {
        assert w.before[a.rva..a.rva + |a.bytes|][k - BASE - a.rva] == w.before[k - BASE];
      }
    }
  }

  lemma {:induction false} SoloChecked(w: Write, anchors: seq<Anchor>)
    requires Suits(w, anchors)
    ensures var x := Solo(w, anchors);
      && Checked(x.payloads) && WritesOf(x.payloads) == [w]
      && CheckSpans(x.payloads, 16).Ok? && Targets([x]).Ok?
  {
    var x := Solo(w, anchors);
    assert Check(x.payloads[0].unit);
    assert WritesOf(x.payloads) == [w] + WritesOf(x.payloads[1..]);
    assert WriteSpan(w, 16).Ok?;
    forall a | a in anchors ensures AnchorInside(a, 16) {}
    SpansDecideDisjointness(x.payloads, 16);
    assert |Sort(Ranges([x]))| == 1;
  }

  /** The preflight of a module that is not installed yet. */
  lemma {:induction false} SoloReady(w: Write, anchors: seq<Anchor>, l: Layout)
    requires Suits(w, anchors) && LayoutOf(Solo(w, anchors).payloads, PLAIN.describe) == Ok(l) && l.offsets == [HEADER]
    ensures Checked(Solo(w, anchors).payloads)
    ensures PreflightModule(Stock(w), Solo(w, anchors), PLAIN) == Ok(Ready(l, None))
  {
    hide LayoutOf, CheckSpans, Targets, UnitsMatch, Stock, Holds, Check;
    var x := Solo(w, anchors);
    SoloChecked(w, anchors);
    StockHolds(w, anchors);
    HoldsIsRead(Stock(w), BASE, w.before);
    assert SiteBlock(Stock(w), w, BASE, HEADER) == Ok(None);
    assert FindInWrites(Stock(w), [w][1..], BASE, HEADER) == Ok(None);
    assert FindInWrites(Stock(w), [w], BASE, HEADER) == Ok(None);
    assert FindHook(Stock(w), x.payloads[1..], l.offsets[1..], BASE) == Ok(None);
    assert FindHook(Stock(w), x.payloads, l.offsets, BASE) == Ok(None);
    assert InstalledBlock(Stock(w), x, PLAIN) == Ok(None);
    UnitsMatchMeaning(Stock(w), x.payloads, BASE, true);
    assert AnchorsIn(Stock(w), x.payloads, BASE);
    assert SitesIn(Stock(w), [w], BASE);
    assert UnitsMatch(Stock(w), x.payloads, BASE, true).Ok?;
  }

  /** The block of the module, linked. */
  lemma {:induction false} SoloLinked(w: Write, anchors: seq<Anchor>, l: Layout) returns (q: Prepared)
    requires KeepsLength(PLAIN) && Suits(w, anchors) && LayoutOf(Solo(w, anchors).payloads, PLAIN.describe) == Ok(l)
    requires l.offsets == [HEADER] && l.ring == 48 && l.bytes == 48 + TRACE_RING && |l.identity| == HEADER
    requires PlacedWrite(w, BASE, BLOCK + HEADER).Ok?
    ensures LinkedFor(Solo(w, anchors), PLAIN, Ready(l, None), q)
    ensures q.isNew && q.block == BLOCK && q.size == l.bytes == |q.code|
      && q.writes == [PlacedWrite(w, BASE, BLOCK + HEADER).value]
  {
    hide LayoutOf, PlacedWrite, Blank;
    var x := Solo(w, anchors);
    SoloChecked(w, anchors);
    var p, pw := x.payloads[0], PlacedWrite(w, BASE, BLOCK + HEADER).value;
    assert Link(p.unit, p.code, BASE, BLOCK + HEADER, SharedCells(BLOCK + 48), PLAIN.exports) == Ok(p.code);
    assert LinkUnit(p, BASE, BLOCK + HEADER, BLOCK + 48, PLAIN) == Ok(p.code);
    assert PlacedFrom([w][1..], BASE, BLOCK + HEADER) == Ok([]);
    assert [pw] + [] == [pw];
    assert PlacedWrites(p.unit, BASE, BLOCK + HEADER) == Ok([pw]);
    assert UnitsFit(x.payloads, l.offsets, l.ring);
    var linked := Linked(Put(Blank(l), HEADER, p.code), [pw]);
    assert [] + [pw] == [pw];
    assert LinkFromUnit([p][1..], [HEADER][1..], BASE, BLOCK, 48, PLAIN, linked) == Ok(linked);
    assert LinkModule(x, l, BLOCK, PLAIN) == Ok(linked);
    q := Prepared(BLOCK, l.bytes, linked.code, linked.writes, true);
  }

  lemma {:induction false} PlainKeepsLength()
    ensures KeepsLength(PLAIN)
  {
  }

  /** The memory once the module is installed. */
  function Patched(w: Write, q: Prepared): Mem
    requires q.writes != []
  {
    Poke(Poke(WithBlock(Stock(w), q.block, q.size), q.block, q.code), BASE, q.writes[0].after)
  }

  lemma {:induction false} PatchedHolds(w: Write, anchors: seq<Anchor>, q: Prepared, pw: Placed)
    requires Suits(w, anchors) && q.block == BLOCK && q.size == |q.code| && q.writes == [pw]
    requires pw.address == BASE && pw.before == w.before && |pw.after| == |w.before|
    ensures var m := Patched(w, q);
      && Holds(m, BASE, pw.after) && Holds(m, BLOCK, q.code)
      && (forall k :: k in m <==> k in Stock(w) || BLOCK <= k < BLOCK + q.size)
      && (forall k :: k in Stock(w) && !InSpan(pw, k) ==> m[k] == Stock(w)[k])
  {
    StockHolds(w, anchors);
  }

  /** What the installation changed, apart from what the modules are. */
  lemma {:induction false} SoloChanges(w: Write, anchors: seq<Anchor>, q: Prepared, pw: Placed)
    requires Suits(w, anchors) && q.isNew && q.block == BLOCK && q.size == |q.code| > 0 && q.writes == [pw]
    requires pw.address == BASE && pw.before == w.before && |pw.after| == |w.before|
    ensures var m0, m1, plan := Stock(w), Patched(w, q), [q];
      && (forall k :: k in m0 ==> !InBlocks(FreshSpans(plan), k))
      && PairwiseApart(FreshSpans(plan)) && Maps(m0, m1, FreshSpans(plan))
      && (forall k :: k in m0 && !InSpans(FreshWrites(plan), k) ==> m1[k] == m0[k])
      && HooksReady(m0, plan) && Loaded(m1, plan)
      && FreshWrites(plan) == [pw] && Holds(m1, BASE, pw.after)
  {
    hide Stock, Patched;
    StockHolds(w, anchors);
    PatchedHolds(w, anchors, q, pw);
    var plan := [q];
    assert FreshSpans(plan) == [Span(BLOCK, BLOCK + q.size)] + FreshSpans(plan[1..]) == [Span(BLOCK, BLOCK + q.size)];
    assert FreshWrites(plan) == [pw] + FreshWrites(plan[1..]) == [pw];
    assert Holds(Stock(w), pw.address, pw.before);
  }

  /** The run that installs the module. */
  lemma {:induction false} SoloInstalls(w: Write, anchors: seq<Anchor>) returns (m1: Mem, ready: seq<Ready>,
                                        plan: seq<Prepared>)
    requires Suits(w, anchors) && PlacedWrite(w, BASE, BLOCK + HEADER).Ok?
    ensures KeepsLength(PLAIN) && AllChecked([Solo(w, anchors)])
    ensures Second(Stock(w), m1, m1, [Solo(w, anchors)], PLAIN, ready, plan)
    ensures |plan| == 1 && plan[0].writes == [PlacedWrite(w, BASE, BLOCK + HEADER).value]
    ensures Holds(m1, BASE, plan[0].writes[0].after)
  {
    hide LayoutOf, PlacedWrite, PreflightModule, Stock, LinkModule, Patched, Targets, Suits, HooksReady, Loaded, Holds,
         Maps, InBlocks, InSpans, PairwiseApart, FreshSpans, FreshWrites, Solo;
    PlainKeepsLength();
    SoloChecked(w, anchors);
    var pw := PlacedWrite(w, BASE, BLOCK + HEADER).value;
    var l := SoloLayout(w, anchors);
    SoloReady(w, anchors, l);
    var q := SoloLinked(w, anchors, l);
    SoloLands(w, anchors);
    SoloChanges(w, anchors, q, pw);
    m1, ready, plan := Patched(w, q), [Ready(l, None)], [q];
  }

  lemma {:induction false} SoloLands(w: Write, anchors: seq<Anchor>)
    requires Suits(w, anchors) && PlacedWrite(w, BASE, BLOCK + HEADER).Ok?
    ensures var pw := PlacedWrite(w, BASE, BLOCK + HEADER).value;
      pw.address == BASE && pw.before == w.before && |pw.after| == |w.before|
  {
    PlacedKeepsLength(w, 1, BASE, BLOCK + HEADER);
  }

  /** The preflight of the second run gets as far as the anchors and the sites. */
  lemma {:induction false} SoloAgain(w: Write, anchors: seq<Anchor>, m1: Mem, ready: seq<Ready>, plan: seq<Prepared>)
    requires KeepsLength(PLAIN) && Suits(w, anchors) && AllChecked([Solo(w, anchors)])
    requires Second(Stock(w), m1, m1, [Solo(w, anchors)], PLAIN, ready, plan) && |plan| == 1
    ensures var answer := UnitsMatch(m1, Solo(w, anchors).payloads, BASE, !Hooked(Solo(w, anchors), plan[0]));
      answer.Err? ==> Preflight(m1, [Solo(w, anchors)], PLAIN) == Err(answer.error)
  {
    hide LayoutOf, CheckSpans, Targets, UnitsMatch, Stock, Installation, LinkModule, PlacedHold, CodeIntact, Hooked;
    var x := Solo(w, anchors);
    SecondParts(Stock(w), m1, m1, [x], PLAIN, ready, plan);
    SecondHolds(Stock(w), m1, m1, [x], PLAIN, ready, plan, 0);
    BlockFits([x], PLAIN, ready, plan, 0);
    assert LinkedFor(x, PLAIN, ready[0], plan[0]);
    assert PreflightModule(Stock(w), [x][0], PLAIN) == Ok(ready[0]);
    ModuleChecks(Stock(w), x, PLAIN, ready[0]);
    SpansWereChecked(Stock(w), x, PLAIN, ready[0]);
    ModuleRecovers(m1, x, PLAIN, ready[0], plan[0]);
  }

  /** A conditional jump made unconditional in place. */
  const EDIT := Write(Edit, 0, [0x74], 0, "", [], [0xeb], 0)

  /** A module that only edits is installed, and the second run refuses it. */
  lemma {:induction false} EditsAloneAreNotFound() returns (m1: Mem, ready: seq<Ready>, plan: seq<Prepared>)
    ensures KeepsLength(PLAIN) && AllChecked([Solo(EDIT, [])])
    ensures Second(Stock(EDIT), m1, m1, [Solo(EDIT, [])], PLAIN, ready, plan) && |plan| == 1
    ensures !Recognizable([Solo(EDIT, [])], plan)
    ensures Preflight(m1, [Solo(EDIT, [])], PLAIN) == Err(SiteDiffers)
  {
    hide Second, Preflight, Holds, Stock;
    m1, ready, plan := SoloInstalls(EDIT, []);
    var x := Solo(EDIT, []);
    SoloChecked(EDIT, []);
    assert forall i :: 0 <= i < |WritesOf(x.payloads)| ==> WritesOf(x.payloads)[i].kind.Edit?;
    assert !Hooked([x][0], plan[0]);
    SoloAgain(EDIT, [], m1, ready, plan);
    HoldsIsRead(m1, BASE, [0xeb]);
    assert [0xeb][0] != [0x74][0];
    assert SitesHold(m1, [EDIT], BASE) == Err(SiteDiffers);
  }

  /** Five bytes of padding made a jump into the block. */
  const JUMP := Write(Jmp, 0, [0x90, 0x90, 0x90, 0x90, 0x90], 0, "", [], [], 0)

  const OVERWRITTEN := Anchor(0, [0x90])

  lemma {:induction false} JumpLands()
    ensures Suits(JUMP, [OVERWRITTEN]) && PlacedWrite(JUMP, BASE, BLOCK + HEADER).Ok?
    ensures var pw := PlacedWrite(JUMP, BASE, BLOCK + HEADER).value;
      pw.address == BASE && pw.before == JUMP.before && |pw.after| == 5 && pw.after[0] == 0xe9
  {
    PlacedKeepsLength(JUMP, 1, BASE, BLOCK + HEADER);
  }

  /** A module that overwrites its own anchor is installed, and the second run refuses it. */
  lemma {:induction false} OverwrittenAnchorIsNotFound() returns (m1: Mem, ready: seq<Ready>, plan: seq<Prepared>)
    ensures KeepsLength(PLAIN) && AllChecked([Solo(JUMP, [OVERWRITTEN])])
    ensures Second(Stock(JUMP), m1, m1, [Solo(JUMP, [OVERWRITTEN])], PLAIN, ready, plan) && |plan| == 1
    ensures Hooked(Solo(JUMP, [OVERWRITTEN]), plan[0]) && !Recognizable([Solo(JUMP, [OVERWRITTEN])], plan)
    ensures Preflight(m1, [Solo(JUMP, [OVERWRITTEN])], PLAIN) == Err(AnchorDiffers)
  {
    hide Second, Preflight, Stock, PlacedWrite, Suits, CheckSpans, Targets;
    JumpLands();
    m1, ready, plan := SoloInstalls(JUMP, [OVERWRITTEN]);
    var x, pw := Solo(JUMP, [OVERWRITTEN]), plan[0].writes[0];
    SoloChecked(JUMP, [OVERWRITTEN]);
    assert pw.after[0] == 0xe9 && pw.before[0] == 0x90;
    assert Telling(WritesOf(x.payloads)[0], pw);
    assert AnchorCovers(OVERWRITTEN, BASE, BASE) && InSpan(pw, BASE);
    assert !AnchorStands(OVERWRITTEN, BASE, plan[0].writes);
    assert OVERWRITTEN in x.payloads[0].unit.anchors && x.payloads[0] in x.payloads;
    assert !AnchorsStand([x][0], plan[0].writes);
    SoloAgain(JUMP, [OVERWRITTEN], m1, ready, plan);
    assert m1[BASE] == 0xe9;
    HoldsIsRead(m1, BASE, [0x90]);
    assert AnchorsHold(m1, [OVERWRITTEN], BASE).error == AnchorDiffers;
  }
}
