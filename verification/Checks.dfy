/** What passing the checks before a run means (crates/core/src/unit_apply.rs: `spans`, `layout`, `installed_block` and
    the preflight of `apply`), said of the module's descriptors and of memory alone. */
module Checks {
  import opened Outcome
  import opened Bytes
  import opened Memory
  import opened Units
  import opened Spans
  import opened Layouts
  import opened Recovery

  // ----- the descriptors of a module

  /** Every write and anchor lies in the module, and no two writes share a byte. */
  ghost predicate SpansFit(x: Module) {
    var writes, size := WritesOf(x.payloads), x.target.size;
    && (forall w :: w in writes ==> w.rva + |w.before| < WORD64 && w.rva + |w.before| <= size)
    && (forall p, a :: p in x.payloads && a in p.unit.anchors
          ==> a.rva + |a.bytes| < WORD64 && a.rva + |a.bytes| <= size)
    && (forall i, j :: 0 <= i < j < |writes|
          ==> (writes[i].rva + |writes[i].before| <= writes[j].rva
               || writes[j].rva + |writes[j].before| <= writes[i].rva))
  }

  lemma {:induction false} WritesFitExactly(writes: seq<Write>, size: nat)
    ensures WritesInside(writes, size)
       <==> forall w :: w in writes ==> w.rva + |w.before| < WORD64 && w.rva + |w.before| <= size
  {
    if WritesInside(writes, size) {
      forall w | w in writes
        ensures w.rva + |w.before| < WORD64 && w.rva + |w.before| <= size
      {
        assert WriteSpan(w, size).Ok?;
      }
    }
  }

  lemma {:induction false} AnchorsFitExactly(payloads: seq<Payload>, size: nat)
    ensures AllAnchorsInside(payloads, size)
       <==> forall p, a :: p in payloads && a in p.unit.anchors
              ==> a.rva + |a.bytes| < WORD64 && a.rva + |a.bytes| <= size
  {
    if AllAnchorsInside(payloads, size) {
      forall p, a | p in payloads && a in p.unit.anchors
        ensures a.rva + |a.bytes| < WORD64 && a.rva + |a.bytes| <= size
      {
        assert AnchorsInside(p.unit.anchors, size) && AnchorInside(a, size);
      }
    }
  }

  lemma {:induction false} WritesApartExactly(writes: seq<Write>)
    ensures PairwiseApart(SpansOf(writes))
       <==> forall i, j :: 0 <= i < j < |writes|
              ==> (writes[i].rva + |writes[i].before| <= writes[j].rva
                   || writes[j].rva + |writes[j].before| <= writes[i].rva)
  {
    if PairwiseApart(SpansOf(writes)) {
      forall i, j | 0 <= i < j < |writes|
        ensures writes[i].rva + |writes[i].before| <= writes[j].rva
             || writes[j].rva + |writes[j].before| <= writes[i].rva
      {
        assert Apart(SpansOf(writes)[i], SpansOf(writes)[j]);
      }
    }
  }

  lemma {:induction false} SpansFitExactly(x: Module)
    requires Checked(x.payloads)
    ensures CheckSpans(x.payloads, x.target.size).Ok? <==> SpansFit(x)
  {
    hide CheckSpans, WritesOf, Check, WritesInside, AllAnchorsInside, PairwiseApart, SpansOf;
    SpansDecideDisjointness(x.payloads, x.target.size);
    WritesFitExactly(WritesOf(x.payloads), x.target.size);
    AnchorsFitExactly(x.payloads, x.target.size);
    WritesApartExactly(WritesOf(x.payloads));
  }

  /** The target's file, where it is on disk, can be read and is the one every unit of the module was made for. */
  ghost predicate FileFits(x: Module) {
    && !x.target.file.Unreadable?
    && (x.target.file.Hashed? ==> forall p :: p in x.payloads ==> p.unit.sourceSha == x.target.file.sha)
  }

  ghost predicate FilesFit(modules: seq<Module>) {
    forall x :: x in modules ==> FileFits(x)
  }

  lemma {:induction false} FileFitsExactly(x: Module)
    ensures FileMatches(x).Ok? <==> FileFits(x)
    ensures !FileFits(x) ==> FileMatches(x) == Err(if x.target.file.Unreadable? then HashUnreadable else HashDiffers)
  {
    if FileFits(x) && x.target.file.Hashed? {
      forall i | 0 <= i < |x.payloads|
        ensures x.payloads[i].unit.sourceSha == x.target.file.sha
      {
        assert x.payloads[i] in x.payloads;
      }
    }
  }

  // ----- a module's installed block

  /** The branch `w` of a unit laid out at `offset` is changed, and leads to its entry in a block at `block`. */
  ghost predicate LeadsInto(m: Mem, w: Write, base: nat, offset: nat, block: nat) {
    var site := base + w.rva;
    && !w.kind.Edit? && |w.before| >= 5 && Mapped(m, site, |w.before|) && !Holds(m, site, w.before)
    && m[site] == (if w.kind.Jmp? then 0xe9 else 0xe8)
    && site + 5 + I32(Peek(m, site + 1, 4)) == block + offset + w.entry < WORD64
  }

  /** `w` is an edit, or a branch whose site holds its stock bytes. */
  ghost predicate Untold(m: Mem, w: Write, base: nat) {
    w.kind.Edit? || Holds(m, base + w.rva, w.before)
  }

  ghost predicate NoneTold(m: Mem, writes: seq<Write>, base: nat) {
    forall w :: w in writes ==> Untold(m, w, base)
  }

  /** The first changed branch of the writes leads into `block`. */
  ghost predicate FirstLeads(m: Mem, writes: seq<Write>, base: nat, offset: nat, block: nat) {
    exists i :: 0 <= i < |writes| && LeadsInto(m, writes[i], base, offset, block) && NoneTold(m, writes[..i], base)
  }

  /** The first changed branch of the module leads into `block`. */
  ghost predicate ModuleLeads(m: Mem, payloads: seq<Payload>, offsets: seq<nat>, base: nat, block: nat)
    requires |offsets| == |payloads|
  {
    exists u :: 0 <= u < |payloads| && FirstLeads(m, payloads[u].unit.writes, base, offsets[u], block)
      && NoneTold(m, WritesOf(payloads[..u]), base)
  }

  lemma {:induction false} SiteBlockExactly(m: Mem, w: Write, base: nat, offset: nat, block: nat)
    ensures SiteBlock(m, w, base, offset) == Ok(None) <==> Untold(m, w, base)
    ensures SiteBlock(m, w, base, offset) == Ok(Some(block)) <==> LeadsInto(m, w, base, offset, block)
  {
    hide Holds;
    var site := base + w.rva;
    HoldsIsRead(m, site, w.before);
    if Mapped(m, site, |w.before|) && |w.before| >= 5 {
      SiteDisplacement(m, site, |w.before|);
    }
  }

  lemma {:induction false} SiteDisplacement(m: Mem, site: nat, n: nat)
    requires Mapped(m, site, n) && n >= 5
    ensures Mapped(m, site + 1, 4) && Peek(m, site, n)[1..5] == Peek(m, site + 1, 4) && Peek(m, site, n)[0] == m[site]
  {
    assert Mapped(m, site + 1, 4);
    assert Peek(m, site, n)[1..5] == Peek(m, site + 1, 4);
  }

  lemma {:induction false} NoneToldCons(m: Mem, writes: seq<Write>, base: nat)
    requires writes != []
    ensures NoneTold(m, writes, base) <==> Untold(m, writes[0], base) && NoneTold(m, writes[1..], base)
  {
    hide Untold;
    assert writes == [writes[0]] + writes[1..];
  }

  lemma {:induction false} FirstLeadsCons(m: Mem, writes: seq<Write>, base: nat, offset: nat, block: nat)
    requires writes != []
    ensures FirstLeads(m, writes, base, offset, block)
       <==> LeadsInto(m, writes[0], base, offset, block)
            || (Untold(m, writes[0], base) && FirstLeads(m, writes[1..], base, offset, block))
  {
    hide LeadsInto, NoneTold;
    var rest := writes[1..];
    if FirstLeads(m, writes, base, offset, block) {
      var i :| 0 <= i < |writes| && LeadsInto(m, writes[i], base, offset, block) && NoneTold(m, writes[..i], base);
      if i > 0 {
        NoneToldCons(m, writes[..i], base);
        assert writes[..i][1..] == rest[..i - 1] && rest[i - 1] == writes[i];
      }
    }
    if LeadsInto(m, writes[0], base, offset, block) {
      NothingTold(m, base);
      assert writes[..0] == [];
    }
    if Untold(m, writes[0], base) && FirstLeads(m, rest, base, offset, block) {
      var i :| 0 <= i < |rest| && LeadsInto(m, rest[i], base, offset, block) && NoneTold(m, rest[..i], base);
      NoneToldCons(m, writes[..i + 1], base);
      assert writes[..i + 1][1..] == rest[..i] && rest[i] == writes[i + 1];
    }
  }

  lemma {:induction false} NothingTold(m: Mem, base: nat)
    ensures NoneTold(m, [], base)
  {
  }

  lemma {:induction false} FindInWritesExactly(m: Mem, writes: seq<Write>, base: nat, offset: nat, block: nat)
    ensures FindInWrites(m, writes, base, offset) == Ok(None) <==> NoneTold(m, writes, base)
    ensures FindInWrites(m, writes, base, offset) == Ok(Some(block)) <==> FirstLeads(m, writes, base, offset, block)
  {
    hide SiteBlock, LeadsInto, Untold;
    if writes != [] {
      SiteBlockExactly(m, writes[0], base, offset, block);
      FindInWritesExactly(m, writes[1..], base, offset, block);
      NoneToldCons(m, writes, base);
      FirstLeadsCons(m, writes, base, offset, block);
    }
  }

  lemma {:induction false} ModuleLeadsCons(m: Mem, payloads: seq<Payload>, offsets: seq<nat>, base: nat, block: nat)
    requires |offsets| == |payloads| > 0
    ensures ModuleLeads(m, payloads, offsets, base, block)
       <==> FirstLeads(m, payloads[0].unit.writes, base, offsets[0], block)
            || (NoneTold(m, payloads[0].unit.writes, base)
                && ModuleLeads(m, payloads[1..], offsets[1..], base, block))
    ensures NoneTold(m, WritesOf(payloads), base)
       <==> NoneTold(m, payloads[0].unit.writes, base) && NoneTold(m, WritesOf(payloads[1..]), base)
  {
    hide FirstLeads, NoneTold;
    var first, rest, later := payloads[0].unit.writes, payloads[1..], offsets[1..];
    NoneToldAppend(m, first, WritesOf(rest), base);
    if ModuleLeads(m, payloads, offsets, base, block) {
      var u :| 0 <= u < |payloads| && FirstLeads(m, payloads[u].unit.writes, base, offsets[u], block)
        && NoneTold(m, WritesOf(payloads[..u]), base);
      if u > 0 {
        WritesOfFront(payloads, u);
        NoneToldAppend(m, first, WritesOf(rest[..u - 1]), base);
        assert rest[u - 1] == payloads[u] && later[u - 1] == offsets[u];
      }
    }
    if FirstLeads(m, first, base, offsets[0], block) {
      NothingTold(m, base);
      assert payloads[..0] == [] && WritesOf(payloads[..0]) == [];
    }
    if NoneTold(m, first, base) && ModuleLeads(m, rest, later, base, block) {
      var u :| 0 <= u < |rest| && FirstLeads(m, rest[u].unit.writes, base, later[u], block)
        && NoneTold(m, WritesOf(rest[..u]), base);
      WritesOfFront(payloads, u + 1);
      NoneToldAppend(m, first, WritesOf(rest[..u]), base);
      assert rest[u] == payloads[u + 1] && later[u] == offsets[u + 1];
    }
  }

  lemma {:induction false} WritesOfFront(payloads: seq<Payload>, u: nat)
    requires 0 < u <= |payloads|
    ensures WritesOf(payloads[..u]) == payloads[0].unit.writes + WritesOf(payloads[1..][..u - 1])
  {
    assert payloads[..u][0] == payloads[0] && payloads[..u][1..] == payloads[1..][..u - 1];
  }

  lemma {:induction false} NoneToldAppend(m: Mem, a: seq<Write>, b: seq<Write>, base: nat)
    ensures NoneTold(m, a + b, base) <==> NoneTold(m, a, base) && NoneTold(m, b, base)
  {
    hide Untold;
    assert forall w :: w in a + b <==> w in a || w in b;
  }

  lemma {:induction false} FindHookExactly(m: Mem, payloads: seq<Payload>, offsets: seq<nat>, base: nat, block: nat)
    requires |offsets| == |payloads|
    ensures FindHook(m, payloads, offsets, base) == Ok(None) <==> NoneTold(m, WritesOf(payloads), base)
    ensures FindHook(m, payloads, offsets, base) == Ok(Some(block)) <==> ModuleLeads(m, payloads, offsets, base, block)
  {
    hide FindInWrites, FirstLeads, NoneTold;
    if payloads != [] {
      FindInWritesExactly(m, payloads[0].unit.writes, base, offsets[0], block);
      FindHookExactly(m, payloads[1..], offsets[1..], base, block);
      ModuleLeadsCons(m, payloads, offsets, base, block);
    } else {
      NothingTold(m, base);
    }
  }

  lemma {:induction false} PlacedHoldMeaning(m: Mem, placed: seq<Placed>)
    ensures PlacedHold(m, placed).Ok? <==> forall p :: p in placed ==> Holds(m, p.address, p.after)
  {
    hide Holds, Read;
    if placed != [] {
      HoldsIsRead(m, placed[0].address, placed[0].after);
      PlacedHoldMeaning(m, placed[1..]);
      assert placed == [placed[0]] + placed[1..];
    }
  }

  lemma {:induction false} PlacedHoldAppend(m: Mem, a: seq<Placed>, b: seq<Placed>)
    ensures PlacedHold(m, a + b).Ok? <==> PlacedHold(m, a).Ok? && PlacedHold(m, b).Ok?
  {
    if a == [] {
      assert a + b == b;
    } else {
      assert (a + b)[1..] == a[1..] + b;
      PlacedHoldAppend(m, a[1..], b);
    }
  }

  /** Comparing unit by unit compares every placed write of the module. */
  lemma {:induction false} UnitsHoldExactly(m: Mem, payloads: seq<Payload>, offsets: seq<nat>, base: nat, block: nat)
    requires |offsets| == |payloads|
    ensures UnitsHold(m, payloads, offsets, base, block).Ok?
       <==> PlacedAll(payloads, offsets, base, block).Ok?
            && PlacedHold(m, PlacedAll(payloads, offsets, base, block).value).Ok?
  {
    hide PlacedWrites;
    if payloads != [] {
      UnitsHoldExactly(m, payloads[1..], offsets[1..], base, block);
      var first := PlacedWrites(payloads[0].unit, base, block + offsets[0]);
      var rest := PlacedAll(payloads[1..], offsets[1..], base, block);
      if first.Ok? && rest.Ok? {
        PlacedHoldAppend(m, first.value, rest.value);
      }
    }
  }

  /** At `block` stands the header of this module's layout, and every byte its writes would place for a block there is
      in memory. */
  ghost predicate BlockStands(m: Mem, x: Module, l: Layout, block: nat)
    requires |l.offsets| == |x.payloads|
  {
    var placed := PlacedAll(x.payloads, l.offsets, x.target.base, block);
    && Holds(m, block, l.identity)
    && placed.Ok? && forall p :: p in placed.value ==> Holds(m, p.address, p.after)
  }

  /** The block of an installed module is the one its first changed branch leads into, if it stands there; a module none
      of whose branches is changed is not installed. */
  ghost predicate Recovers(m: Mem, x: Module, l: Layout, installed: Option<nat>)
    requires |l.offsets| == |x.payloads|
  {
    match installed
    case None => NoneTold(m, WritesOf(x.payloads), x.target.base)
    case Some(block) =>
      ModuleLeads(m, x.payloads, l.offsets, x.target.base, block) && BlockStands(m, x, l, block)
  }

  lemma {:induction false} ConfirmExactly(m: Mem, x: Module, l: Layout, block: nat)
    requires Fits(x, l)
    ensures Confirm(m, x, l, block).Ok? <==> BlockStands(m, x, l, block)
  {
    hide Holds, PlacedAll, PlacedHold, UnitsHold, Read;
    HoldsIsRead(m, block, l.identity);
    UnitsHoldExactly(m, x.payloads, l.offsets, x.target.base, block);
    var placed := PlacedAll(x.payloads, l.offsets, x.target.base, block);
    if placed.Ok? {
      PlacedHoldMeaning(m, placed.value);
    }
  }

  lemma {:induction false} RecoversExactly(m: Mem, x: Module, c: Context, installed: Option<nat>)
    requires Checked(x.payloads) && SpansFit(x) && LayoutOf(x.payloads, c.describe).Ok?
    ensures var l := LayoutOf(x.payloads, c.describe).value;
      |l.offsets| == |x.payloads| && (InstalledBlock(m, x, c) == Ok(installed) <==> Recovers(m, x, l, installed))
  {
    hide LayoutOf, CheckSpans, SpansFit, FindHook, Confirm, NoneTold, ModuleLeads, BlockStands, WritesOf, Check;
    SpansFitExactly(x);
    LayoutFits(x, c.describe);
    var l := LayoutOf(x.payloads, c.describe).value;
    match installed {
      case None => FindHookExactly(m, x.payloads, l.offsets, x.target.base, 0);
      case Some(block) =>
        FindHookExactly(m, x.payloads, l.offsets, x.target.base, block);
        ConfirmExactly(m, x, l, block);
    }
  }

  // ----- the bytes a module is checked against

  lemma {:induction false} AnchorsHoldMeaning(m: Mem, anchors: seq<Anchor>, base: nat)
    ensures AnchorsHold(m, anchors, base).Ok? <==> forall a :: a in anchors ==> Holds(m, base + a.rva, a.bytes)
  {
    hide Holds, Read;
    if anchors != [] {
      HoldsIsRead(m, base + anchors[0].rva, anchors[0].bytes);
      AnchorsHoldMeaning(m, anchors[1..], base);
      assert anchors == [anchors[0]] + anchors[1..];
    }
  }

  lemma {:induction false} SitesHoldMeaning(m: Mem, writes: seq<Write>, base: nat)
    ensures SitesHold(m, writes, base).Ok? <==> forall w :: w in writes ==> Holds(m, base + w.rva, w.before)
  {
    hide Holds, Read;
    if writes != [] {
      HoldsIsRead(m, base + writes[0].rva, writes[0].before);
      SitesHoldMeaning(m, writes[1..], base);
      assert writes == [writes[0]] + writes[1..];
    }
  }

  ghost predicate AnchorsIn(m: Mem, payloads: seq<Payload>, base: nat) {
    forall p, a :: p in payloads && a in p.unit.anchors ==> Holds(m, base + a.rva, a.bytes)
  }

  ghost predicate SitesIn(m: Mem, writes: seq<Write>, base: nat) {
    forall w :: w in writes ==> Holds(m, base + w.rva, w.before)
  }

  lemma {:induction false} SitesInAppend(m: Mem, a: seq<Write>, b: seq<Write>, base: nat)
    ensures SitesIn(m, a + b, base) <==> SitesIn(m, a, base) && SitesIn(m, b, base)
  {
    hide Holds;
    assert forall w :: w in a + b <==> w in a || w in b;
  }

  lemma {:induction false} UnitsMatchMeaning(m: Mem, payloads: seq<Payload>, base: nat, pristine: bool)
    ensures UnitsMatch(m, payloads, base, pristine).Ok?
       <==> AnchorsIn(m, payloads, base) && (pristine ==> SitesIn(m, WritesOf(payloads), base))
  {
    hide Holds, AnchorsHold, SitesHold;
    if payloads != [] {
      var u := payloads[0].unit;
      AnchorsHoldMeaning(m, u.anchors, base);
      SitesHoldMeaning(m, u.writes, base);
      UnitsMatchMeaning(m, payloads[1..], base, pristine);
      SitesInAppend(m, u.writes, WritesOf(payloads[1..]), base);
      assert payloads == [payloads[0]] + payloads[1..];
    }
  }

  // ----- the whole preflight

  /** A module passes: its writes and anchors lie apart in it, its file is the one its units were made for, `r` is how
      its units are laid out and the block they are installed in, every anchor is in memory, and where it is not
      installed every site holds its stock bytes. */
  ghost predicate Passes(m: Mem, x: Module, c: Context, r: Ready) {
    && SpansFit(x) && FileFits(x)
    && LaysOut(x.payloads, c.describe, r.layout) && Recovers(m, x, r.layout, r.installed)
    && AnchorsIn(m, x.payloads, x.target.base)
    && (r.installed.None? ==> SitesIn(m, WritesOf(x.payloads), x.target.base))
  }

  /** The preflight of a module, exactly. */
  lemma {:induction false} PreflightDecides(m: Mem, x: Module, c: Context, r: Ready)
    requires Checked(x.payloads)
    ensures PreflightModule(m, x, c) == Ok(r) <==> Passes(m, x, c, r)
  {
    hide CheckSpans, FileMatches, LayoutOf, InstalledBlock, UnitsMatch, SpansFit, FileFits, LaysOut, Recovers,
         AnchorsIn,
         SitesIn, WritesOf, Check;
    SpansFitExactly(x);
    FileFitsExactly(x);
    LayoutIsExact(x.payloads, c.describe, r.layout);
    UnitsMatchMeaning(m, x.payloads, x.target.base, r.installed.None?);
    if SpansFit(x) && LayoutOf(x.payloads, c.describe).Ok? {
      RecoversExactly(m, x, c, r.installed);
    }
  }

  /** Why the file's check refuses, once the spans are sound. */
  lemma {:induction false} UnfitFileRefuses(m: Mem, x: Module, c: Context)
    requires Checked(x.payloads) && SpansFit(x) && !FileFits(x)
    ensures PreflightModule(m, x, c) == Err(if x.target.file.Unreadable? then HashUnreadable else HashDiffers)
  {
    hide CheckSpans, FileMatches, LayoutOf, InstalledBlock, UnitsMatch, SpansFit;
    SpansFitExactly(x);
    FileFitsExactly(x);
  }

  ghost predicate EachPasses(m: Mem, modules: seq<Module>, c: Context, ready: seq<Ready>) {
    |ready| == |modules| && forall i :: 0 <= i < |modules| ==> Passes(m, modules[i], c, ready[i])
  }

  lemma {:induction false} EachReadyPasses(m: Mem, modules: seq<Module>, c: Context, ready: seq<Ready>)
    requires AllChecked(modules) && EachReady(m, modules, c, ready)
    ensures EachPasses(m, modules, c, ready) && FilesFit(modules)
  {
    hide PreflightModule, Passes, FileFits;
    forall i | 0 <= i < |modules|
      ensures Passes(m, modules[i], c, ready[i]) && FileFits(modules[i])
    {
      PreflightDecides(m, modules[i], c, ready[i]);
      PassingFits(m, modules[i], c, ready[i]);
    }
  }

  lemma {:induction false} PassingFits(m: Mem, x: Module, c: Context, r: Ready)
    requires Passes(m, x, c, r)
    ensures FileFits(x)
  {
  }

  ghost predicate CanPass(m: Mem, x: Module, c: Context) {
    exists r :: Passes(m, x, c, r)
  }

  /** Module `i` is the first that does not pass, and `e` is why it is refused. */
  ghost predicate StopsAt(m: Mem, modules: seq<Module>, c: Context, i: nat, e: Error)
    requires AllChecked(modules)
  {
    && i < |modules| && !CanPass(m, modules[i], c) && PreflightModule(m, modules[i], c) == Err(e)
    && forall j :: 0 <= j < i ==> CanPass(m, modules[j], c)
  }

  lemma {:induction false} CanPassExactly(m: Mem, x: Module, c: Context)
    requires Checked(x.payloads)
    ensures CanPass(m, x, c) <==> PreflightModule(m, x, c).Ok?
  {
    hide PreflightModule, Passes;
    if r :| Passes(m, x, c, r) {
      PreflightDecides(m, x, c, r);
    }
    if PreflightModule(m, x, c).Ok? {
      PreflightDecides(m, x, c, PreflightModule(m, x, c).value);
    }
  }

  lemma {:induction false} PreflightFromStops(m: Mem, modules: seq<Module>, c: Context, ready: seq<Ready>, e: Error)
    requires AllChecked(modules) && PreflightFrom(m, modules, c, ready) == Err(e)
    ensures exists i: nat :: StopsAt(m, modules, c, i, e)
    decreases modules
  {
    hide PreflightModule, CanPass;
    var next := PreflightModule(m, modules[0], c);
    CanPassExactly(m, modules[0], c);
    if next.Err? {
      assert StopsAt(m, modules, c, 0, e);
    } else {
      PreflightFromStops(m, modules[1..], c, ready + [next.value], e);
      var i: nat :| StopsAt(m, modules[1..], c, i, e);
      forall j | 0 <= j < i + 1
        ensures CanPass(m, modules[j], c)
      {
        if j > 0 {
          assert CanPass(m, modules[1..][j - 1], c);
        }
      }
      assert StopsAt(m, modules, c, i + 1, e);
    }
  }

  /** A refusing preflight stops at the first module that does not pass. */
  lemma {:induction false} PreflightStops(m: Mem, modules: seq<Module>, c: Context, e: Error)
    requires AllChecked(modules) && Preflight(m, modules, c) == Err(e)
    ensures exists i: nat :: StopsAt(m, modules, c, i, e)
  {
    hide PreflightFrom, StopsAt;
    PreflightFromStops(m, modules, c, [], e);
  }
}
