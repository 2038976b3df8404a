/** A patch unit (crates/core/src/unit.rs): its descriptor, its linking and where its writes land. */
module Units {
  import opened Outcome
  import opened Bytes

  /** What a write puts at its site. */
  datatype Kind = Jmp | Call | Edit

  datatype Write = Write(kind: Kind, rva: nat, before: seq<byte>, entry: nat, name: string,
                         tail: seq<byte>, after: seq<byte>, stock: nat)

  /** A slot of the blob resolved where the unit lands; a `Retarget` slot lies in an edit instead. */
  datatype Fixup =
    | Abs64(offset: nat, target: nat)
    | Branch(offset: nat, target: nat)
    | Delta(offset: nat, from: nat, to: nat)
    | Export(offset: nat, dll: string, name: string)
    | Imported(offset: nat, end: nat, cell: string)
    | Retarget(rva: nat, offset: nat, target: nat)

  datatype Cell = Cell(name: string, offset: nat, bytes: nat)

  datatype Native = Native(name: string, rva: nat)

  datatype Anchor = Anchor(rva: nat, bytes: seq<byte>)

  /** A signature: `None` where a byte encodes a distance to other code. */
  type Pattern = seq<Option<byte>>

  datatype Site = Site(name: string, start: nat, group: nat, pattern: Pattern)

  datatype Unit = Unit(name: string, plugin: string, dll: string, sourceSha: string, unitBytes: nat,
                       cells: seq<Cell>, writes: seq<Write>, fixups: seq<Fixup>, natives: seq<Native>,
                       anchors: seq<Anchor>, sites: seq<Site>, verified: seq<string>)

  /** A write as it lands: what must be at `address`, and what is written there. */
  datatype Placed = Placed(address: nat, before: seq<byte>, after: seq<byte>)

  type Exports = (string, string) -> Result<nat>

  type Cells = string -> Option<nat>

  // ----- the shape rules every descriptor keeps

  predicate WriteFits(w: Write, unitBytes: nat) {
    && w.before != []
    && (if w.kind.Edit? then |w.after| == |w.before|
        else |w.before| == 5 + |w.tail| && w.entry < unitBytes)
    && (w.stock != 0 ==> w.before[0] == 0xe8 || w.before[0] == 0xe9)
  }

  /** The first write at `rva`. */
  function FindWrite(writes: seq<Write>, rva: nat): (r: Option<nat>)
    ensures r.Some? ==> r.value < |writes| && writes[r.value].rva == rva
    ensures r.None? ==> forall i :: 0 <= i < |writes| ==> writes[i].rva != rva
    ensures r.Some? ==> forall i :: 0 <= i < r.value ==> writes[i].rva != rva
  {
    if writes == [] then None
    else if writes[0].rva == rva then Some(0)
    else match FindWrite(writes[1..], rva)
      case Some(i) => Some(i + 1)
      case None => None
  }

  function Width(f: Fixup): nat {
    match f
    case Abs64(_, _) => 8
    case Export(_, _, _) => 8
    case _ => 4
  }

  predicate FixupFits(f: Fixup, writes: seq<Write>, unitBytes: nat) {
    if f.Retarget? then
      match FindWrite(writes, f.rva)
      case Some(i) => writes[i].kind.Edit? && f.offset + 4 <= |writes[i].after|
      case None => false
    else
      f.offset + Width(f) <= unitBytes
  }

  /** `Unit::check`: no unit is built from a descriptor that fails it. */
  predicate Check(u: Unit) {
    && (forall i :: 0 <= i < |u.writes| ==> WriteFits(u.writes[i], u.unitBytes))
    && (forall i :: 0 <= i < |u.fixups| ==> FixupFits(u.fixups[i], u.writes, u.unitBytes))
    && (forall i :: 0 <= i < |u.cells| ==> u.cells[i].offset + u.cells[i].bytes <= u.unitBytes)
  }

  // ----- linking

  /** What linking copies into the slot of `f`, for a module at `base` and the blob at `at`. */
  function SlotValue(f: Fixup, base: nat, at: nat, cell: Cells, exports: Exports): (r: Result<seq<byte>>)
    requires !f.Retarget?
    ensures r.Ok? ==> |r.value| == Width(f)
  {
    match f
    case Abs64(_, target) => Ok(Le64(base + target))
    case Branch(offset, target) => Rel32(at + offset + 4, base + target)
    case Delta(_, from, to) => Rel32(from, to)
    case Export(_, dll, name) =>
      var address :- exports(dll, name);
      Ok(Le64(address))
    case Imported(_, end, name) =>
      match cell(name)
      case Some(address) => Rel32(at + end, address)
      case None => Err(NoCell)
  }

  predicate SlotsFit(fixups: seq<Fixup>, size: nat) {
    forall i :: 0 <= i < |fixups| ==> fixups[i].Retarget? || fixups[i].offset + Width(fixups[i]) <= size
  }

  /** Linking from fixup `i` on, with the earlier ones already in `code`. */
  function LinkFrom(fixups: seq<Fixup>, i: nat, code: seq<byte>, base: nat, at: nat, cell: Cells, exports: Exports)
    : (r: Result<seq<byte>>)
    requires i <= |fixups| && SlotsFit(fixups, |code|)
    ensures r.Ok? ==> |r.value| == |code|
    decreases |fixups| - i
  {
    if i == |fixups| then Ok(code)
    else if fixups[i].Retarget? then LinkFrom(fixups, i + 1, code, base, at, cell, exports)
    else
      var value :- SlotValue(fixups[i], base, at, cell, exports);
      LinkFrom(fixups, i + 1, Put(code, fixups[i].offset, value), base, at, cell, exports)
  }

  function Link(u: Unit, blob: seq<byte>, base: nat, at: nat, cell: Cells, exports: Exports): (r: Result<seq<byte>>)
    requires Check(u)
    ensures r.Ok? ==> |r.value| == |blob| == u.unitBytes
  {
    if |blob| != u.unitBytes then Err(PayloadLength)
    else LinkFrom(u.fixups, 0, blob, base, at, cell, exports)
  }

  /** The linker's loop: every fixup resolved into a copy of the blob, in order. */
  method LinkBlob(u: Unit, blob: seq<byte>, base: nat, at: nat, cell: Cells, exports: Exports)
    returns (r: Result<seq<byte>>)
    requires Check(u)
    ensures r == Link(u, blob, base, at, cell, exports)
  {
    if |blob| != u.unitBytes {
      return Err(PayloadLength);
    }
    var code := blob;
    for i := 0 to |u.fixups|
      invariant |code| == |blob|
      invariant LinkFrom(u.fixups, 0, blob, base, at, cell, exports)
        == LinkFrom(u.fixups, i, code, base, at, cell, exports)
    {
      var f := u.fixups[i];
      if !f.Retarget? {
        var value := SlotValue(f, base, at, cell, exports);
        if value.Err? {
          return Err(value.error);
        }
        code := Put(code, f.offset, value.value);
      }
    }
    return Ok(code);
  }

  predicate InSlot(f: Fixup, k: int) {
    !f.Retarget? && f.offset <= k < f.offset + Width(f)
  }

  predicate SlotsDisjoint(fixups: seq<Fixup>) {
    forall i, j :: 0 <= i < j < |fixups| && !fixups[i].Retarget? && !fixups[j].Retarget?
      ==> (fixups[i].offset + Width(fixups[i]) <= fixups[j].offset
           || fixups[j].offset + Width(fixups[j]) <= fixups[i].offset)
  }

  /** A slot can be resolved: the address it needs is known and in reach of a 32-bit displacement. */
  predicate Resolvable(f: Fixup, base: nat, at: nat, cell: Cells, exports: Exports) {
    match f
    case Abs64(_, _) => true
    case Branch(offset, target) => IsI32(base + target - (at + offset + 4))
    case Delta(_, from, to) => IsI32(to - from)
    case Export(_, dll, name) => exports(dll, name).Ok?
    case Imported(_, end, name) => cell(name).Some? && IsI32(cell(name).value - (at + end))
    case Retarget(_, _, _) => true
  }

  /** Executed at `at`, the slot of `f` in `code` leads where the descriptor says. */
  predicate Resolved(f: Fixup, code: seq<byte>, base: nat, at: nat, cell: Cells, exports: Exports)
    requires f.Retarget? || f.offset + Width(f) <= |code|
  {
    match f
    case Abs64(o, target) => U64(code[o..o + 8]) == (base + target) % WORD64
    case Branch(o, target) => at + o + 4 + I32(code[o..o + 4]) == base + target
    case Delta(o, from, to) => from + I32(code[o..o + 4]) == to
    case Export(o, dll, name) => exports(dll, name).Ok? && U64(code[o..o + 8]) == exports(dll, name).value % WORD64
    case Imported(o, end, name) => cell(name).Some? && at + end + I32(code[o..o + 4]) == cell(name).value
    case Retarget(_, _, _) => true
  }

  /** Linking leaves a byte in none of the remaining slots alone. */
  lemma {:induction false} LinkFromOutside(fixups: seq<Fixup>, i: nat, code: seq<byte>, base: nat, at: nat,
                                           cell: Cells, exports: Exports, k: nat)
    requires i <= |fixups| && SlotsFit(fixups, |code|) && k < |code|
    requires forall j :: i <= j < |fixups| ==> !InSlot(fixups[j], k)
    requires LinkFrom(fixups, i, code, base, at, cell, exports).Ok?
    ensures LinkFrom(fixups, i, code, base, at, cell, exports).value[k] == code[k]
    decreases |fixups| - i
  {
    if i < |fixups| {
      if fixups[i].Retarget? {
        LinkFromOutside(fixups, i + 1, code, base, at, cell, exports, k);
      } else {
        var value := SlotValue(fixups[i], base, at, cell, exports).value;
        assert !InSlot(fixups[i], k);
        LinkFromOutside(fixups, i + 1, Put(code, fixups[i].offset, value), base, at, cell, exports, k);
      }
    }
  }

  /** Linking succeeds exactly when every remaining slot can be resolved. */
  lemma {:induction false} LinkFromSucceeds(fixups: seq<Fixup>, i: nat, code: seq<byte>, base: nat, at: nat,
                                            cell: Cells, exports: Exports)
    requires i <= |fixups| && SlotsFit(fixups, |code|)
    ensures LinkFrom(fixups, i, code, base, at, cell, exports).Ok?
       <==> forall j :: i <= j < |fixups| ==> Resolvable(fixups[j], base, at, cell, exports)
    decreases |fixups| - i
  {
    if i < |fixups| {
      var f := fixups[i];
      if f.Retarget? {
        LinkFromSucceeds(fixups, i + 1, code, base, at, cell, exports);
      } else {
        var value := SlotValue(f, base, at, cell, exports);
        assert value.Ok? <==> Resolvable(f, base, at, cell, exports);
        if value.Ok? {
          LinkFromSucceeds(fixups, i + 1, Put(code, f.offset, value.value), base, at, cell, exports);
        }
      }
    }
  }

  lemma {:induction false} SlotValueResolves(f: Fixup, code: seq<byte>, base: nat, at: nat, cell: Cells,
                                             exports: Exports)
    requires !f.Retarget? && f.offset + Width(f) <= |code|
    requires SlotValue(f, base, at, cell, exports).Ok?
    requires code[f.offset..f.offset + Width(f)] == SlotValue(f, base, at, cell, exports).value
    ensures Resolved(f, code, base, at, cell, exports)
  {
    match f
    case Abs64(_, target) => U64OfLe64(base + target);
    case Export(_, dll, name) => U64OfLe64(exports(dll, name).value);
    case _ =>
  }

  lemma {:induction false} LinkFromSlot(fixups: seq<Fixup>, i: nat, code: seq<byte>, base: nat, at: nat,
                                        cell: Cells, exports: Exports, j: nat)
    requires i <= j < |fixups| && SlotsFit(fixups, |code|) && SlotsDisjoint(fixups)
    requires LinkFrom(fixups, i, code, base, at, cell, exports).Ok?
    ensures Resolved(fixups[j], LinkFrom(fixups, i, code, base, at, cell, exports).value, base, at, cell, exports)
    decreases |fixups| - i
  {
    var f := fixups[i];
    if f.Retarget? {
      if i < j {
        LinkFromSlot(fixups, i + 1, code, base, at, cell, exports, j);
      }
    } else {
      var value := SlotValue(f, base, at, cell, exports).value;
      var next := Put(code, f.offset, value);
      if i < j {
        LinkFromSlot(fixups, i + 1, next, base, at, cell, exports, j);
      } else {
        var linked := LinkFrom(fixups, i, code, base, at, cell, exports).value;
        forall k | f.offset <= k < f.offset + Width(f)
          ensures linked[k] == next[k]
        {
          LinkFromOutside(fixups, i + 1, next, base, at, cell, exports, k);
        }
        assert linked[f.offset..f.offset + Width(f)] == next[f.offset..f.offset + Width(f)];
        SlotValueResolves(f, linked, base, at, cell, exports);
      }
    }
  }

  /** Linking is exact: it is refused exactly when some slot cannot be resolved, and otherwise every
      slot leads where its descriptor says and every byte outside the slots is the blob's. */
  lemma {:induction false} LinkIsExact(u: Unit, blob: seq<byte>, base: nat, at: nat, cell: Cells, exports: Exports)
    requires Check(u) && SlotsDisjoint(u.fixups)
    ensures var r := Link(u, blob, base, at, cell, exports);
      && (r.Ok? <==> |blob| == u.unitBytes
                     && forall j :: 0 <= j < |u.fixups| ==> Resolvable(u.fixups[j], base, at, cell, exports))
      && (r.Ok? ==>
            && SlotsFit(u.fixups, |r.value|)
            && (forall j :: 0 <= j < |u.fixups| ==> Resolved(u.fixups[j], r.value, base, at, cell, exports))
            && (forall k :: 0 <= k < |blob| && (forall j :: 0 <= j < |u.fixups| ==> !InSlot(u.fixups[j], k))
                  ==> r.value[k] == blob[k]))
  {
    if |blob| == u.unitBytes {
      LinkFromSucceeds(u.fixups, 0, blob, base, at, cell, exports);
      var r := Link(u, blob, base, at, cell, exports);
      if r.Ok? {
        forall j | 0 <= j < |u.fixups|
          ensures Resolved(u.fixups[j], r.value, base, at, cell, exports)
        {
          LinkFromSlot(u.fixups, 0, blob, base, at, cell, exports, j);
        }
        forall k | 0 <= k < |blob| && (forall j :: 0 <= j < |u.fixups| ==> !InSlot(u.fixups[j], k))
          ensures r.value[k] == blob[k]
        {
          LinkFromOutside(u.fixups, 0, blob, base, at, cell, exports, k);
        }
      }
    }
  }

  /** Two buffers that agree outside the remaining slots link to the same code. */
  lemma {:induction false} LinkFromAgrees(fixups: seq<Fixup>, i: nat, code: seq<byte>, other: seq<byte>, base: nat,
                                          at: nat, cell: Cells, exports: Exports)
    requires i <= |fixups| && |code| == |other| && SlotsFit(fixups, |code|)
    requires forall k :: 0 <= k < |code| && (forall j :: i <= j < |fixups| ==> !InSlot(fixups[j], k))
               ==> code[k] == other[k]
    ensures LinkFrom(fixups, i, code, base, at, cell, exports) == LinkFrom(fixups, i, other, base, at, cell, exports)
    decreases |fixups| - i
  {
    if i == |fixups| {
      assert code == other;
    } else if fixups[i].Retarget? {
      assert forall k :: !InSlot(fixups[i], k);
      LinkFromAgrees(fixups, i + 1, code, other, base, at, cell, exports);
    } else {
      var value := SlotValue(fixups[i], base, at, cell, exports);
      if value.Ok? {
        var code' := Put(code, fixups[i].offset, value.value);
        var other' := Put(other, fixups[i].offset, value.value);
        forall k | 0 <= k < |code| && (forall j :: i + 1 <= j < |fixups| ==> !InSlot(fixups[j], k))
          ensures code'[k] == other'[k]
        {
          if InSlot(fixups[i], k) {
            assert code'[k] == code'[fixups[i].offset..fixups[i].offset + Width(fixups[i])][k - fixups[i].offset];
            assert other'[k] == other'[fixups[i].offset..fixups[i].offset + Width(fixups[i])][k - fixups[i].offset];
          } else {
            assert forall j :: i <= j < |fixups| ==> !InSlot(fixups[j], k);
          }
        }
        LinkFromAgrees(fixups, i + 1, code', other', base, at, cell, exports);
      }
    }
  }

  /** Linking an already linked blob for the same place changes nothing, overlapping slots included. */
  lemma {:induction false} LinkIsIdempotent(u: Unit, blob: seq<byte>, base: nat, at: nat, cell: Cells, exports: Exports)
    requires Check(u)
    requires Link(u, blob, base, at, cell, exports).Ok?
    ensures Link(u, Link(u, blob, base, at, cell, exports).value, base, at, cell, exports)
         == Link(u, blob, base, at, cell, exports)
  {
    var linked := Link(u, blob, base, at, cell, exports).value;
    forall k | 0 <= k < |blob| && (forall j :: 0 <= j < |u.fixups| ==> !InSlot(u.fixups[j], k))
      ensures linked[k] == blob[k]
    {
      LinkFromOutside(u.fixups, 0, blob, base, at, cell, exports, k);
    }
    LinkFromAgrees(u.fixups, 0, linked, blob, base, at, cell, exports);
  }

  // ----- where the writes land

  function Opcode(kind: Kind): byte
    requires !kind.Edit?
  {
    if kind.Jmp? then 0xe9 else 0xe8
  }

  function PlacedWrite(w: Write, base: nat, at: nat): Result<Placed> {
    var address := base + w.rva;
    if w.kind.Edit? then Ok(Placed(address, w.before, w.after))
    else
      var rel :- Rel32(address + 5, at + w.entry);
      Ok(Placed(address, w.before, [Opcode(w.kind)] + rel + w.tail))
  }

  function PlacedFrom(writes: seq<Write>, base: nat, at: nat): (r: Result<seq<Placed>>)
    ensures r.Ok? ==> |r.value| == |writes|
    ensures r.Ok? ==> forall i :: 0 <= i < |writes| ==> PlacedWrite(writes[i], base, at) == Ok(r.value[i])
  {
    if writes == [] then Ok([])
    else
      var first :- PlacedWrite(writes[0], base, at);
      var rest :- PlacedFrom(writes[1..], base, at);
      Ok([first] + rest)
  }

  /** What each write of `u` puts in the module at `base` once the unit is at `at`. */
  function PlacedWrites(u: Unit, base: nat, at: nat): Result<seq<Placed>> {
    PlacedFrom(u.writes, base, at)
  }

  /** A branch displacement read back from a site, as the block it enters `offset + entry` bytes into. */
  function RecoveredBlock(address: nat, site: seq<byte>, entry: nat, offset: nat): Result<nat>
    requires |site| >= 5
  {
    var target := address + 5 + I32(site[1..5]);
    if 0 <= target < WORD64 && entry + offset <= target then Ok(target - (entry + offset))
    else Err(InvalidBranch)
  }

  /** `p` is `w` in the module at `base`: at its address, over its bytes and no others. */
  predicate LandsOver(p: Placed, base: nat, w: Write) {
    p.address == base + w.rva && p.before == w.before && |p.after| == |p.before| > 0
  }

  /** A write lands with as many bytes as it replaces. */
  lemma {:induction false} PlacedKeepsLength(w: Write, unitBytes: nat, base: nat, at: nat)
    requires WriteFits(w, unitBytes) && PlacedWrite(w, base, at).Ok?
    ensures LandsOver(PlacedWrite(w, base, at).value, base, w)
  {
  }

  /** What is put at a site: an edit's own bytes, or a `jmp` (0xe9) or `call` (0xe8) with the displacement from its end
      to
      the entry, and then the tail. */
  lemma {:induction false} PlacedBytes(w: Write, base: nat, at: nat)
    requires PlacedWrite(w, base, at).Ok?
    ensures var p := PlacedWrite(w, base, at).value;
      && p.address == base + w.rva && p.before == w.before
      && (w.kind.Edit? ==> p.after == w.after)
      && (!w.kind.Edit? ==>
            && |p.after| == 5 + |w.tail| && p.after[5..] == w.tail
            && (w.kind.Jmp? ==> p.after[0] == 0xe9) && (w.kind.Call? ==> p.after[0] == 0xe8)
            && base + w.rva + 5 + I32(p.after[1..5]) == at + w.entry)
  {
    if !w.kind.Edit? {
      var rel := Rel32(base + w.rva + 5, at + w.entry).value;
      assert PlacedWrite(w, base, at).value.after[1..5] == rel;
    }
  }

  /** Recovery inverts placement: the branch a write puts at its site gives back the block it was
      placed for, and the opcode says which kind of write it was. */
  lemma {:induction false} RecoveryInvertsPlacement(w: Write, unitBytes: nat, base: nat, block: nat, offset: nat)
    requires WriteFits(w, unitBytes) && !w.kind.Edit?
    requires PlacedWrite(w, base, block + offset).Ok?
    requires block + offset + w.entry < WORD64
    ensures var p := PlacedWrite(w, base, block + offset).value;
      && |p.after| >= 5
      && p.after[0] == (if w.kind.Jmp? then 0xe9 else 0xe8)
      && RecoveredBlock(base + w.rva, p.after, w.entry, offset) == Ok(block)
  {
    var rel := Rel32(base + w.rva + 5, block + offset + w.entry).value;
    var p := PlacedWrite(w, base, block + offset).value;
    assert p.after[1..5] == rel;
  }
}
