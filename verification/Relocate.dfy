/** A unit relocated to a build it was not written for (crates/core/src/unit.rs: `relocate`). */
module Relocate {
  import opened Outcome
  import opened Bytes
  import opened Units
  import opened Scan

  /** Pairs of an address and what it became, searched from the front. */
  type Pairs = seq<(nat, nat)>

  function Lookup(pairs: Pairs, key: nat): (r: Option<nat>)
    ensures r.Some? ==> (key, r.value) in pairs
    ensures r.None? ==> forall p :: p in pairs ==> p.0 != key
  {
    if pairs == [] then None
    else if pairs[0].0 == key then Some(pairs[0].1)
    else Lookup(pairs[1..], key)
  }

  function BytesAt(image: seq<byte>, rva: nat, n: nat): (r: Result<seq<byte>>)
    ensures r.Ok? ==> |r.value| == n
  {
    if rva + n <= |image| then Ok(image[rva..rva + n]) else Err(OutsideModule)
  }

  // ----- the writes

  /** The function a branch read at `rva` reaches. */
  function Reached(image: seq<byte>, rva: nat, before: seq<byte>): Result<nat> {
    if |before| < 5 then Err(OutOfBounds)
    else
      var reached := rva + 5 + I32(before[1..5]);
      if 0 <= reached < |image| then Ok(reached) else Err(BranchLeavesModule)
  }

  /** Sites that reached one function must still reach one, the same one. */
  function Agree(stocks: Pairs, stock: nat, reached: nat): Result<Pairs> {
    match Lookup(stocks, stock)
    case Some(seen) => if seen != reached then Err(StockSplit) else Ok(stocks)
    case None => Ok(stocks + [(stock, reached)])
  }

  function MoveWrite(w: Write, m: Moves, image: seq<byte>): Result<Write>
    requires |m.deltas| == |m.sites|
  {
    var rva :- At(m, w.rva);
    var before :- BytesAt(image, rva, |w.before|);
    if w.stock == 0 then Ok(w.(rva := rva, before := before))
    else
      var reached :- Reached(image, rva, before);
      Ok(w.(rva := rva, before := before, stock := reached))
  }

  datatype Moved = Moved(writes: seq<Write>, stocks: Pairs, moved: Pairs)

  function MoveWritesFrom(writes: seq<Write>, m: Moves, image: seq<byte>, done: Moved): Result<Moved>
    requires |m.deltas| == |m.sites|
  {
    if writes == [] then Ok(done)
    else
      var w :- MoveWrite(writes[0], m, image);
      var stocks :- if writes[0].stock == 0 then Ok(done.stocks) else Agree(done.stocks, writes[0].stock, w.stock);
      MoveWritesFrom(writes[1..], m, image,
                     Moved(done.writes + [w], stocks, done.moved + [(writes[0].rva, w.rva)]))
  }

  method MoveWrites(writes: seq<Write>, m: Moves, image: seq<byte>) returns (r: Result<Moved>)
    requires |m.deltas| == |m.sites|
    ensures r == MoveWritesFrom(writes, m, image, Moved([], [], []))
  {
    var done := Moved([], [], []);
    for i := 0 to |writes|
      invariant MoveWritesFrom(writes, m, image, Moved([], [], [])) == MoveWritesFrom(writes[i..], m, image, done)
    {
      assert writes[i..][1..] == writes[i + 1..];
      var was := writes[i];
      var rva := MoveAddress(m, was.rva);
      if rva.Err? {
        return Err(rva.error);
      }
      var before := BytesAt(image, rva.value, |was.before|);
      if before.Err? {
        return Err(before.error);
      }
      var moved := done.moved + [(was.rva, rva.value)];
      var w := was.(rva := rva.value, before := before.value);
      if was.stock == 0 {
        done := Moved(done.writes + [w], done.stocks, moved);
      } else {
        var reached := Reached(image, rva.value, before.value);
        if reached.Err? {
          return Err(reached.error);
        }
        var stocks := Agree(done.stocks, was.stock, reached.value);
        if stocks.Err? {
          return Err(stocks.error);
        }
        done := Moved(done.writes + [w.(stock := reached.value)], stocks.value, moved);
      }
    }
    return Ok(done);
  }

  // ----- the fixups

  /** The fixup with its addresses moved. */
  function MoveFixup(f: Fixup, m: Moves, stocks: Pairs, moved: Pairs): Result<Fixup>
    requires |m.deltas| == |m.sites|
  {
    match f
    case Abs64(offset, target) =>
      var to :- At(m, target);
      Ok(Abs64(offset, to))
    case Branch(offset, target) =>
      var to :- At(m, target);
      Ok(Branch(offset, to))
    case Delta(offset, from, to) =>
      var from' :- At(m, from);
      (match Lookup(stocks, to)
       case Some(new') => Ok(Delta(offset, from', new'))
       case None => Err(NoStock))
    case Retarget(rva, offset, target) =>
      (match Lookup(moved, rva)
       case Some(new') =>
         var to :- At(m, target);
         Ok(Retarget(new', offset, to))
       case None => Err(NoEdit))
    case _ => Ok(f)
  }

  function FindEdit(writes: seq<Write>, rva: nat): (r: Option<nat>)
    ensures r.Some? ==> r.value < |writes| && writes[r.value].rva == rva && writes[r.value].kind.Edit?
  {
    if writes == [] then None
    else if writes[0].rva == rva && writes[0].kind.Edit? then Some(0)
    else match FindEdit(writes[1..], rva)
      case Some(i) => Some(i + 1)
      case None => None
  }

  /** The edit a moved fixup names, re-aimed at its target. */
  function Aim(writes: seq<Write>, f: Fixup): (r: Result<seq<Write>>)
    ensures r.Ok? ==> |r.value| == |writes|
  {
    if !f.Retarget? then Ok(writes)
    else match FindEdit(writes, f.rva)
      case None => Err(NoEdit)
      case Some(i) =>
        if f.offset + 4 > |writes[i].after| then Err(OutOfBounds)
        else
          var rel :- Rel32(f.rva + f.offset + 4, f.target);
          Ok(writes[i := writes[i].(after := Put(writes[i].after, f.offset, rel))])
  }

  datatype Aimed = Aimed(writes: seq<Write>, fixups: seq<Fixup>)

  function MoveFixupsFrom(fixups: seq<Fixup>, m: Moves, stocks: Pairs, moved: Pairs, done: Aimed): Result<Aimed>
    requires |m.deltas| == |m.sites|
  {
    if fixups == [] then Ok(done)
    else
      var f :- MoveFixup(fixups[0], m, stocks, moved);
      var writes :- Aim(done.writes, f);
      MoveFixupsFrom(fixups[1..], m, stocks, moved, Aimed(writes, done.fixups + [f]))
  }

  method MoveFixups(fixups: seq<Fixup>, m: Moves, start: Moved) returns (r: Result<Aimed>)
    requires |m.deltas| == |m.sites|
    ensures r == MoveFixupsFrom(fixups, m, start.stocks, start.moved, Aimed(start.writes, []))
  {
    var done := Aimed(start.writes, []);
    for i := 0 to |fixups|
      invariant MoveFixupsFrom(fixups, m, start.stocks, start.moved, Aimed(start.writes, []))
             == MoveFixupsFrom(fixups[i..], m, start.stocks, start.moved, done)
    {
      assert fixups[i..][1..] == fixups[i + 1..];
      var f := MoveFixup(fixups[i], m, start.stocks, start.moved);
      if f.Err? {
        return Err(f.error);
      }
      var writes := Aim(done.writes, f.value);
      if writes.Err? {
        return Err(writes.error);
      }
      done := Aimed(writes.value, done.fixups + [f.value]);
    }
    return Ok(done);
  }

  // ----- the addresses a unit only names

  function MoveNatives(natives: seq<Native>, m: Moves): (r: Result<seq<Native>>)
    requires |m.deltas| == |m.sites|
    ensures r.Ok? ==> |r.value| == |natives|
  {
    if natives == [] then Ok([])
    else
      var rva :- At(m, natives[0].rva);
      var rest :- MoveNatives(natives[1..], m);
      Ok([natives[0].(rva := rva)] + rest)
  }

  function MoveAnchors(anchors: seq<Anchor>, m: Moves, image: seq<byte>): (r: Result<seq<Anchor>>)
    requires |m.deltas| == |m.sites|
    ensures r.Ok? ==> |r.value| == |anchors|
  {
    if anchors == [] then Ok([])
    else
      var rva :- At(m, anchors[0].rva);
      var held :- BytesAt(image, rva, |anchors[0].bytes|);
      var rest :- MoveAnchors(anchors[1..], m, image);
      Ok([Anchor(rva, held)] + rest)
  }

  function MoveSites(sites: seq<Site>, m: Moves): (r: Result<seq<Site>>)
    requires |m.deltas| == |m.sites|
    ensures r.Ok? ==> |r.value| == |sites|
    ensures r.Ok? ==> forall i :: 0 <= i < |sites| ==>
      At(m, sites[i].start).Ok? && r.value[i] == sites[i].(start := At(m, sites[i].start).value)
  {
    if sites == [] then Ok([])
    else
      var start :- At(m, sites[0].start);
      var rest :- MoveSites(sites[1..], m);
      Ok([sites[0].(start := start)] + rest)
  }

  lemma {:induction false} LocateShape(sites: seq<Site>, image: seq<byte>)
    ensures var r := Locate(sites, image); r.Ok? ==> r.value.sites == sites && |r.value.deltas| == |r.value.sites|
  {
    LocateMeaning(sites, image);
  }

  /** `Unit::relocate`. */
  function RelocateUnit(u: Unit, image: seq<byte>, sha: string): Result<Unit> {
    var m :- Locate(u.sites, image);
    LocateShape(u.sites, image);
    var moved :- MoveWritesFrom(u.writes, m, image, Moved([], [], []));
    var aimed :- MoveFixupsFrom(u.fixups, m, moved.stocks, moved.moved, Aimed(moved.writes, []));
    var natives :- MoveNatives(u.natives, m);
    var anchors :- MoveAnchors(u.anchors, m, image);
    var sites :- MoveSites(u.sites, m);
    Ok(u.(sourceSha := sha, verified := [], writes := aimed.writes, fixups := aimed.fixups,
          natives := natives, anchors := anchors, sites := sites))
  }

  method Relocate(u: Unit, image: seq<byte>, sha: string) returns (r: Result<Unit>)
    ensures r == RelocateUnit(u, image, sha)
  {
    var located := FindSites(u.sites, image);
    if located.Err? {
      return Err(located.error);
    }
    LocateShape(u.sites, image);
    var m := located.value;
    var moved := MoveWrites(u.writes, m, image);
    if moved.Err? {
      return Err(moved.error);
    }
    var aimed := MoveFixups(u.fixups, m, moved.value);
    if aimed.Err? {
      return Err(aimed.error);
    }
    var natives := MoveNatives(u.natives, m);
    if natives.Err? {
      return Err(natives.error);
    }
    var anchors := MoveAnchors(u.anchors, m, image);
    if anchors.Err? {
      return Err(anchors.error);
    }
    var sites := MoveSites(u.sites, m);
    if sites.Err? {
      return Err(sites.error);
    }
    return Ok(u.(sourceSha := sha, verified := [], writes := aimed.value.writes, fixups := aimed.value.fixups,
                 natives := natives.value, anchors := anchors.value, sites := sites.value));
  }
}
