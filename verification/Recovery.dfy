/** What the installer reads before it writes (crates/core/src/unit_apply.rs): recovering a block it
    installed earlier, and the checks of a module against the running process. Each function is the
    answer with no read fault; the method beside it is the code, which a fault can only make refuse. */
module Recovery {
  import opened Outcome
  import opened Bytes
  import opened Memory
  import opened Units
  import opened Spans
  import opened Layouts

  // ----- recovering an installed block

  /** The block a branch at the site of `w` was placed for, if the site does not hold `before`. */
  function SiteBlock(m: Mem, w: Write, base: nat, offset: nat): Result<Option<nat>> {
    if w.kind.Edit? then Ok(None)
    else
      var now :- Read(m, base + w.rva, |w.before|);
      if now == w.before then Ok(None)
      else if |now| < 5 || now[0] != Opcode(w.kind) then Err(SiteModified)
      else
        var block :- RecoveredBlock(base + w.rva, now, w.entry, offset);
        Ok(Some(block))
  }

  function FindInWrites(m: Mem, writes: seq<Write>, base: nat, offset: nat): Result<Option<nat>> {
    if writes == [] then Ok(None)
    else
      var found :- SiteBlock(m, writes[0], base, offset);
      if found.Some? then Ok(found) else FindInWrites(m, writes[1..], base, offset)
  }

  /** The block the first changed branch site of the module names. */
  function FindHook(m: Mem, payloads: seq<Payload>, offsets: seq<nat>, base: nat): Result<Option<nat>>
    requires |offsets| == |payloads|
  {
    if payloads == [] then Ok(None)
    else
      var found :- FindInWrites(m, payloads[0].unit.writes, base, offsets[0]);
      if found.Some? then Ok(found) else FindHook(m, payloads[1..], offsets[1..], base)
  }

  /** Every placed write is in memory. */
  function PlacedHold(m: Mem, placed: seq<Placed>): Result<()> {
    if placed == [] then Ok(())
    else
      var now :- Read(m, placed[0].address, |placed[0].after|);
      if now != placed[0].after then Err(PartiallyInstalled) else PlacedHold(m, placed[1..])
  }

  function UnitsHold(m: Mem, payloads: seq<Payload>, offsets: seq<nat>, base: nat, block: nat): Result<()>
    requires |offsets| == |payloads|
  {
    if payloads == [] then Ok(())
    else
      var placed :- PlacedWrites(payloads[0].unit, base, block + offsets[0]);
      var _ :- PlacedHold(m, placed);
      UnitsHold(m, payloads[1..], offsets[1..], base, block)
  }

  function Confirm(m: Mem, x: Module, l: Layout, block: nat): Result<()>
    requires Fits(x, l)
  {
    var header :- Read(m, block, HEADER);
    if header != l.identity then Err(ForeignHooks)
    else UnitsHold(m, x.payloads, l.offsets, x.target.base, block)
  }

  function InstalledBlock(m: Mem, x: Module, c: Context): (r: Result<Option<nat>>)
    requires Checked(x.payloads)
  {
    var _ :- CheckSpans(x.payloads, x.target.size);
    var l :- LayoutOf(x.payloads, c.describe);
    LayoutFits(x, c.describe);
    var found :- FindHook(m, x.payloads, l.offsets, x.target.base);
    if found.None? then Ok(None)
    else
      var _ :- Confirm(m, x, l, found.value);
      Ok(found)
  }

  method ReadPlaced(p: Process, placed: seq<Placed>) returns (r: Result<()>)
    modifies p`clock, p`clean
    ensures r.Ok? ==> r == PlacedHold(p.mem, placed)
    ensures p.clean ==> old(p.clean) && r == PlacedHold(p.mem, placed)
  {
    for i := 0 to |placed|
      invariant p.clean ==> old(p.clean)
      invariant PlacedHold(p.mem, placed) == PlacedHold(p.mem, placed[i..])
    {
      assert placed[i..][1..] == placed[i + 1..];
      var now := p.ReadBytes(placed[i].address, |placed[i].after|);
      if now.Err? {
        return Err(now.error);
      }
      if now.value != placed[i].after {
        return Err(PartiallyInstalled);
      }
    }
    return Ok(());
  }

  /** The site of `w`, read. */
  method ReadSite(p: Process, w: Write, base: nat, offset: nat) returns (r: Result<Option<nat>>)
    modifies p`clock, p`clean
    ensures r.Ok? ==> r == SiteBlock(p.mem, w, base, offset)
    ensures p.clean ==> old(p.clean) && r == SiteBlock(p.mem, w, base, offset)
  {
    if w.kind.Edit? {
      return Ok(None);
    }
    var now := p.ReadBytes(base + w.rva, |w.before|);
    if now.Err? {
      return Err(now.error);
    }
    if now.value == w.before {
      return Ok(None);
    }
    if |now.value| < 5 || now.value[0] != Opcode(w.kind) {
      return Err(SiteModified);
    }
    var block := RecoveredBlock(base + w.rva, now.value, w.entry, offset);
    if block.Err? {
      return Err(block.error);
    }
    return Ok(Some(block.value));
  }

  method ConfirmBlock(p: Process, x: Module, l: Layout, block: nat) returns (r: Result<()>)
    requires Fits(x, l)
    modifies p`clock, p`clean
    ensures r.Ok? ==> r == Confirm(p.mem, x, l, block)
    ensures p.clean ==> old(p.clean) && r == Confirm(p.mem, x, l, block)
  {
    hide PlacedWrites, PlacedHold;
    var header := p.ReadBytes(block, HEADER);
    if header.Err? {
      return Err(header.error);
    }
    if header.value != l.identity {
      return Err(ForeignHooks);
    }
    for i := 0 to |x.payloads|
      invariant p.clean ==> old(p.clean)
      invariant Confirm(p.mem, x, l, block) == UnitsHold(p.mem, x.payloads[i..], l.offsets[i..], x.target.base, block)
    {
      assert x.payloads[i..][1..] == x.payloads[i + 1..] && l.offsets[i..][1..] == l.offsets[i + 1..];
      var placed := PlacedWrites(x.payloads[i].unit, x.target.base, block + l.offsets[i]);
      if placed.Err? {
        return Err(placed.error);
      }
      var held := ReadPlaced(p, placed.value);
      if held.Err? {
        return Err(held.error);
      }
    }
    return Ok(());
  }

  /** The loops of `installed_block`. */
  method RecoverBlock(p: Process, x: Module, c: Context) returns (r: Result<Option<nat>>)
    requires Checked(x.payloads)
    modifies p`clock, p`clean
    ensures r.Ok? ==> r == InstalledBlock(p.mem, x, c)
    ensures p.clean ==> old(p.clean) && r == InstalledBlock(p.mem, x, c)
  {
    hide SiteBlock, Confirm, LayoutOf;
    var spans := ValidateSpans(x.payloads, x.target.size);
    if spans.Err? {
      return Err(spans.error);
    }
    var layout := ComputeLayout(x.payloads, c.describe);
    if layout.Err? {
      return Err(layout.error);
    }
    var l := layout.value;
    LayoutFits(x, c.describe);
    var base := x.target.base;
    for i := 0 to |x.payloads|
      invariant p.clean ==> old(p.clean)
      invariant FindHook(p.mem, x.payloads, l.offsets, base) == FindHook(p.mem, x.payloads[i..], l.offsets[i..], base)
    {
      assert x.payloads[i..][1..] == x.payloads[i + 1..] && l.offsets[i..][1..] == l.offsets[i + 1..];
      var writes := x.payloads[i].unit.writes;
      for j := 0 to |writes|
        invariant p.clean ==> old(p.clean)
        invariant FindInWrites(p.mem, writes, base, l.offsets[i])
          == FindInWrites(p.mem, writes[j..], base, l.offsets[i])
      {
        assert writes[j..][1..] == writes[j + 1..];
        var found := ReadSite(p, writes[j], base, l.offsets[i]);
        if found.Err? {
          return Err(found.error);
        }
        if found.value.Some? {
          var confirmed := ConfirmBlock(p, x, l, found.value.value);
          if confirmed.Err? {
            return Err(confirmed.error);
          }
          return Ok(found.value);
        }
      }
    }
    return Ok(None);
  }

  // ----- checking a module before anything is written

  function AnchorsHold(m: Mem, anchors: seq<Anchor>, base: nat): Result<()> {
    if anchors == [] then Ok(())
    else
      var now :- Read(m, base + anchors[0].rva, |anchors[0].bytes|);
      if now != anchors[0].bytes then Err(AnchorDiffers) else AnchorsHold(m, anchors[1..], base)
  }

  function SitesHold(m: Mem, writes: seq<Write>, base: nat): Result<()> {
    if writes == [] then Ok(())
    else
      var now :- Read(m, base + writes[0].rva, |writes[0].before|);
      if now != writes[0].before then Err(SiteDiffers) else SitesHold(m, writes[1..], base)
  }

  /** The anchors of every unit hold, and its sites hold their stock bytes when `pristine` asks for it. */
  function UnitsMatch(m: Mem, payloads: seq<Payload>, base: nat, pristine: bool): Result<()> {
    if payloads == [] then Ok(())
    else
      var u := payloads[0].unit;
      var _ :- AnchorsHold(m, u.anchors, base);
      var _ :- if pristine then SitesHold(m, u.writes, base) else Ok(());
      UnitsMatch(m, payloads[1..], base, pristine)
  }

  function FileMatches(x: Module): Result<()> {
    match x.target.file
    case Absent => Ok(())
    case Unreadable => Err(HashUnreadable)
    case Hashed(sha) =>
      if exists i :: 0 <= i < |x.payloads| && x.payloads[i].unit.sourceSha != sha then Err(HashDiffers) else Ok(())
  }

  /** A module that passed every check, and the block it is installed in, if any. */
  datatype Ready = Ready(layout: Layout, installed: Option<nat>)

  function PreflightModule(m: Mem, x: Module, c: Context): (r: Result<Ready>)
    requires Checked(x.payloads)
  {
    var _ :- CheckSpans(x.payloads, x.target.size);
    var _ :- FileMatches(x);
    var l :- LayoutOf(x.payloads, c.describe);
    var installed :- InstalledBlock(m, x, c);
    var _ :- UnitsMatch(m, x.payloads, x.target.base, installed.None?);
    Ok(Ready(l, installed))
  }

  ghost predicate AllChecked(modules: seq<Module>) {
    forall i :: 0 <= i < |modules| ==> Checked(modules[i].payloads)
  }

  function PreflightFrom(m: Mem, modules: seq<Module>, c: Context, ready: seq<Ready>): Result<seq<Ready>>
    requires AllChecked(modules)
  {
    if modules == [] then Ok(ready)
    else
      var next :- PreflightModule(m, modules[0], c);
      PreflightFrom(m, modules[1..], c, ready + [next])
  }

  function Preflight(m: Mem, modules: seq<Module>, c: Context): Result<seq<Ready>>
    requires AllChecked(modules)
  {
    PreflightFrom(m, modules, c, [])
  }

  ghost predicate EachReady(m: Mem, modules: seq<Module>, c: Context, ready: seq<Ready>)
    requires AllChecked(modules)
  {
    && |ready| == |modules|
    && forall i :: 0 <= i < |modules| ==> PreflightModule(m, modules[i], c) == Ok(ready[i])
  }

  lemma {:induction false} PreflightFromEach(m: Mem, modules: seq<Module>, c: Context, ready: seq<Ready>,
                                             rest: seq<Ready>)
    requires AllChecked(modules)
    ensures EachReady(m, modules, c, rest) ==> PreflightFrom(m, modules, c, ready) == Ok(ready + rest)
    ensures PreflightFrom(m, modules, c, ready) == Ok(ready + rest) ==> EachReady(m, modules, c, rest)
    decreases modules
  {
    hide PreflightModule;
    if modules == [] {
      assert ready + [] == ready;
      assert ready + rest == ready ==> |ready + rest| == |ready|;
    } else {
      var first := PreflightModule(m, modules[0], c);
      if first.Ok? {
        var r := PreflightFrom(m, modules[1..], c, ready + [first.value]);
        if r.Ok? {
          PreflightFromLength(m, modules[1..], c, ready + [first.value]);
          assert r.value[|ready|] == r.value[..|ready| + 1][|ready|] == first.value;
        }
        if rest != [] && rest[0] == first.value {
          assert ready + rest == ready + [first.value] + rest[1..];
          PreflightFromEach(m, modules[1..], c, ready + [first.value], rest[1..]);
          assert modules == [modules[0]] + modules[1..] && rest == [rest[0]] + rest[1..];
        }
      }
    }
  }

  lemma {:induction false} PreflightFromLength(m: Mem, modules: seq<Module>, c: Context, ready: seq<Ready>)
    requires AllChecked(modules) && PreflightFrom(m, modules, c, ready).Ok?
    ensures var r := PreflightFrom(m, modules, c, ready).value;
      |r| == |ready| + |modules| && r[..|ready|] == ready
    decreases modules
  {
    hide PreflightModule;
    if modules != [] {
      var next := PreflightModule(m, modules[0], c).value;
      PreflightFromLength(m, modules[1..], c, ready + [next]);
      var r := PreflightFrom(m, modules, c, ready).value;
      assert r[..|ready|] == r[..|ready| + 1][..|ready|];
    }
  }

  /** Preflight answers for each module on its own. */
  lemma {:induction false} PreflightIsEach(m: Mem, modules: seq<Module>, c: Context, ready: seq<Ready>)
    requires AllChecked(modules)
    ensures Preflight(m, modules, c) == Ok(ready) <==> EachReady(m, modules, c, ready)
  {
    hide PreflightModule, PreflightFrom, EachReady;
    assert [] + ready == ready;
    PreflightFromEach(m, modules, c, [], ready);
  }

  method ReadAnchors(p: Process, anchors: seq<Anchor>, base: nat) returns (r: Result<()>)
    modifies p`clock, p`clean
    ensures r.Ok? ==> r == AnchorsHold(p.mem, anchors, base)
    ensures p.clean ==> old(p.clean) && r == AnchorsHold(p.mem, anchors, base)
  {
    for i := 0 to |anchors|
      invariant p.clean ==> old(p.clean)
      invariant AnchorsHold(p.mem, anchors, base) == AnchorsHold(p.mem, anchors[i..], base)
    {
      assert anchors[i..][1..] == anchors[i + 1..];
      var now := p.ReadBytes(base + anchors[i].rva, |anchors[i].bytes|);
      if now.Err? {
        return Err(now.error);
      }
      if now.value != anchors[i].bytes {
        return Err(AnchorDiffers);
      }
    }
    return Ok(());
  }

  method ReadSites(p: Process, writes: seq<Write>, base: nat) returns (r: Result<()>)
    modifies p`clock, p`clean
    ensures r.Ok? ==> r == SitesHold(p.mem, writes, base)
    ensures p.clean ==> old(p.clean) && r == SitesHold(p.mem, writes, base)
  {
    for i := 0 to |writes|
      invariant p.clean ==> old(p.clean)
      invariant SitesHold(p.mem, writes, base) == SitesHold(p.mem, writes[i..], base)
    {
      assert writes[i..][1..] == writes[i + 1..];
      var now := p.ReadBytes(base + writes[i].rva, |writes[i].before|);
      if now.Err? {
        return Err(now.error);
      }
      if now.value != writes[i].before {
        return Err(SiteDiffers);
      }
    }
    return Ok(());
  }

  method MatchUnits(p: Process, x: Module, pristine: bool) returns (r: Result<()>)
    modifies p`clock, p`clean
    ensures r.Ok? ==> r == UnitsMatch(p.mem, x.payloads, x.target.base, pristine)
    ensures p.clean ==> old(p.clean) && r == UnitsMatch(p.mem, x.payloads, x.target.base, pristine)
  {
    hide AnchorsHold, SitesHold;
    for i := 0 to |x.payloads|
      invariant p.clean ==> old(p.clean)
      invariant UnitsMatch(p.mem, x.payloads, x.target.base, pristine)
             == UnitsMatch(p.mem, x.payloads[i..], x.target.base, pristine)
    {
      assert x.payloads[i..][1..] == x.payloads[i + 1..];
      var anchored := ReadAnchors(p, x.payloads[i].unit.anchors, x.target.base);
      if anchored.Err? {
        return Err(anchored.error);
      }
      if pristine {
        var stock := ReadSites(p, x.payloads[i].unit.writes, x.target.base);
        if stock.Err? {
          return Err(stock.error);
        }
      }
    }
    return Ok(());
  }

  method MatchFile(x: Module) returns (r: Result<()>)
    ensures r == FileMatches(x)
  {
    match x.target.file {
      case Absent => return Ok(());
      case Unreadable => return Err(HashUnreadable);
      case Hashed(sha) =>
        for i := 0 to |x.payloads|
          invariant forall j :: 0 <= j < i ==> x.payloads[j].unit.sourceSha == sha
        {
          if x.payloads[i].unit.sourceSha != sha {
            return Err(HashDiffers);
          }
        }
        return Ok(());
    }
  }

  method CheckModule(p: Process, x: Module, c: Context) returns (r: Result<Ready>)
    requires Checked(x.payloads)
    modifies p`clock, p`clean
    ensures r.Ok? ==> r == PreflightModule(p.mem, x, c)
    ensures p.clean ==> old(p.clean) && r == PreflightModule(p.mem, x, c)
  {
    hide CheckSpans, LayoutOf, InstalledBlock, UnitsMatch, FileMatches;
    var spans := ValidateSpans(x.payloads, x.target.size);
    if spans.Err? {
      return Err(spans.error);
    }
    var file := MatchFile(x);
    if file.Err? {
      return Err(file.error);
    }
    var layout := ComputeLayout(x.payloads, c.describe);
    if layout.Err? {
      return Err(layout.error);
    }
    var installed := RecoverBlock(p, x, c);
    if installed.Err? {
      return Err(installed.error);
    }
    var matched := MatchUnits(p, x, installed.value.None?);
    if matched.Err? {
      return Err(matched.error);
    }
    return Ok(Ready(layout.value, installed.value));
  }

  /** Preflight of every module, before anything is reserved or written. */
  method CheckModules(p: Process, modules: seq<Module>, c: Context) returns (r: Result<seq<Ready>>)
    requires AllChecked(modules)
    modifies p`clock, p`clean
    ensures r.Ok? ==> r == Preflight(p.mem, modules, c)
    ensures p.clean ==> old(p.clean) && r == Preflight(p.mem, modules, c)
  {
    hide PreflightModule;
    var ready: seq<Ready> := [];
    for i := 0 to |modules|
      invariant p.clean ==> old(p.clean)
      invariant Preflight(p.mem, modules, c) == PreflightFrom(p.mem, modules[i..], c, ready)
    {
      assert modules[i..][1..] == modules[i + 1..];
      var next := CheckModule(p, modules[i], c);
      if next.Err? {
        return Err(next.error);
      }
      ready := ready + [next.value];
    }
    return Ok(ready);
  }

  // ----- checking the code of an installed module

  function SpliceCells(now: seq<byte>, code: seq<byte>, cells: seq<Cell>, offset: nat): (r: seq<byte>)
    requires |now| == |code|
    requires forall i :: 0 <= i < |cells| ==> offset + cells[i].offset + cells[i].bytes <= |code|
    ensures |r| == |now|
    decreases cells
  {
    if cells == [] then now
    else
      var at := offset + cells[0].offset;
      SpliceCells(Put(now, at, code[at..at + cells[0].bytes]), code, cells[1..], offset)
  }

  /** `now` with every cell of every unit as it was linked. */
  function SpliceUnits(now: seq<byte>, code: seq<byte>, payloads: seq<Payload>, offsets: seq<nat>): (r: seq<byte>)
    requires |now| == |code| && UnitsFit(payloads, offsets, |code|)
    ensures |r| == |now|
    decreases payloads
  {
    if payloads == [] then now
    else
      SpliceUnits(SpliceCells(now, code, payloads[0].unit.cells, offsets[0]), code, payloads[1..], offsets[1..])
  }

  /** Hooks change their named cells and the ring, never code: the block must be as linked otherwise. */
  function CodeIntact(m: Mem, x: Module, l: Layout, block: nat, code: seq<byte>): Result<()>
    requires Fits(x, l) && |code| == l.bytes
  {
    var now :- Read(m, block, |code|);
    var ringed := Put(now, l.ring, code[l.ring..]);
    if SpliceUnits(ringed, code, x.payloads, l.offsets) != code then Err(CodeDiffers) else Ok(())
  }

  method ReadCode(p: Process, x: Module, l: Layout, block: nat, code: seq<byte>) returns (r: Result<()>)
    requires Fits(x, l) && |code| == l.bytes
    modifies p`clock, p`clean
    ensures r.Ok? ==> r == CodeIntact(p.mem, x, l, block, code)
    ensures p.clean ==> old(p.clean) && r == CodeIntact(p.mem, x, l, block, code)
  {
    hide Put, Check;
    var read := p.ReadBytes(block, |code|);
    if read.Err? {
      return Err(read.error);
    }
    var now := Put(read.value, l.ring, code[l.ring..]);
    ghost var ringed := now;
    for i := 0 to |x.payloads|
      invariant p.clean ==> old(p.clean)
      invariant |now| == |code| && UnitsFit(x.payloads[i..], l.offsets[i..], |code|)
      invariant SpliceUnits(ringed, code, x.payloads, l.offsets)
             == SpliceUnits(now, code, x.payloads[i..], l.offsets[i..])
    {
      assert x.payloads[i..][0] == x.payloads[i] && l.offsets[i..][0] == l.offsets[i];
      assert x.payloads[i..][1..] == x.payloads[i + 1..] && l.offsets[i..][1..] == l.offsets[i + 1..];
      now := SpliceUnit(now, code, x.payloads[i].unit, l.offsets[i]);
    }
    if now != code {
      return Err(CodeDiffers);
    }
    return Ok(());
  }

  method SpliceUnit(start: seq<byte>, code: seq<byte>, u: Unit, offset: nat) returns (now: seq<byte>)
    requires |start| == |code| && Check(u) && offset + u.unitBytes <= |code|
    ensures |now| == |code| && now == SpliceCells(start, code, u.cells, offset)
  {
    now := start;
    for j := 0 to |u.cells|
      invariant |now| == |code|
      invariant SpliceCells(start, code, u.cells, offset) == SpliceCells(now, code, u.cells[j..], offset)
    {
      assert u.cells[j..][1..] == u.cells[j + 1..];
      var at := offset + u.cells[j].offset;
      now := Put(now, at, code[at..at + u.cells[j].bytes]);
    }
  }
}
