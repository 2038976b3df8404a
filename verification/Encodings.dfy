/** The encodings the decoder accepts (crates/core/src/decode.rs), told apart by what each opcode is followed by: which
    are known, which have a ModRM byte, how wide their immediate is and which are relative. */
module Encodings {
  import opened Outcome
  import opened Bytes
  import opened Decode

  import Units

  // ----- the opcode maps

  /** Operand and address size, segment overrides, lock and repeat, and REX. */
  predicate Prefixing(b: byte) {
    b in {0x66, 0x67, 0x26, 0x2E, 0x36, 0x3E, 0x64, 0x65, 0xF0, 0xF2, 0xF3} || b / 0x10 == 4
  }

  /** The one-byte opcodes without a meaning in 64-bit mode, or with one the decoder does not take. */
  predicate Unknown(op: byte) {
    op in {0x06, 0x07, 0x0E, 0x16, 0x17, 0x1E, 0x1F, 0x27, 0x2F, 0x37, 0x3F, 0x60, 0x61, 0x62, 0x82, 0x9A, 0xC4, 0xC5,
           0xCE, 0xD4, 0xD5, 0xD6, 0xEA}
  }

  /** One-byte opcodes with a ModRM byte: the first four of each arithmetic group, MOVSXD, IMUL, the moves and tests
      from
      0x80 on, the shifts, x87 and the last groups. */
  predicate TakesModrm(op: byte) {
    || (op < 0x40 && op % 8 <= 3)
    || op in {0x63, 0x69, 0x6B, 0xC0, 0xC1, 0xC6, 0xC7, 0xF6, 0xF7, 0xFE, 0xFF}
    || (0x80 <= op <= 0x8F && op != 0x82) || 0xD0 <= op <= 0xD3 || 0xD8 <= op <= 0xDF
  }

  /** The bytes behind a one-byte opcode's operands. */
  function ImmediateBytes(op: byte, reg: nat, narrow: bool, wide: bool, short: bool): nat {
    if op in {0x6A, 0x6B, 0x80, 0x83, 0xA8, 0xC0, 0xC1, 0xC6, 0xCD, 0xEB} || (op < 0x40 && op % 8 == 4)
       || op / 0x10 == 7 || 0xB0 <= op < 0xB8 || 0xE0 <= op < 0xE8 || (op == 0xF6 && reg < 2) then 1
    else if op == 0xC2 || op == 0xCA then 2
    else if op == 0xC8 then 3
    else if op == 0xE8 || op == 0xE9 then 4
    else if op in {0x68, 0x69, 0x81, 0xA9, 0xC7} || (op < 0x40 && op % 8 == 5) || (op == 0xF7 && reg < 2) then
      if narrow then 2 else 4
    else if 0xB8 <= op < 0xC0 then if wide then 8 else if narrow then 2 else 4
    else if 0xA0 <= op < 0xA4 then if short then 4 else 8
    else 0
  }

  predicate Unknown0F(op: byte) {
    op in {0x04, 0x0A, 0x0C, 0x0F, 0x24, 0x25, 0x26, 0x27, 0x39, 0x3B, 0x3C, 0x3D, 0x3E, 0x3F, 0x7A, 0x7B, 0xA6, 0xA7}
  }

  /** Two-byte opcodes without a ModRM byte: system instructions, EMMS, the long jumps, the segment stack, CPUID, RSM,
      UD1
      and BSWAP. */
  predicate Bare0F(op: byte) {
    || op in {0x05, 0x06, 0x07, 0x08, 0x09, 0x0B, 0x0E, 0x77, 0xA0, 0xA1, 0xA2, 0xA8, 0xA9, 0xAA, 0xB9}
    || 0x30 <= op < 0x38 || op / 0x10 == 8 || 0xC8 <= op < 0xD0
  }

  function ImmediateBytes0F(op: byte): nat {
    if op in {0x3A, 0x70, 0x71, 0x72, 0x73, 0xA4, 0xAC, 0xBA, 0xC2, 0xC4, 0xC5, 0xC6} then 1
    else if op / 0x10 == 8 then 4
    else 0
  }

  // ----- the parts of an instruction

  /** The last REX prefix before `k` asks for 64-bit operands. */
  predicate RexWide(code: seq<byte>, k: nat)
    requires k <= |code|
  {
    exists i :: 0 <= i < k && 0x48 <= code[i] < 0x50 && forall j :: i < j < k ==> code[j] / 0x10 != 4
  }

  predicate Escaped(code: seq<byte>, k: nat) {
    k + 1 < |code| && code[k] == 0x0F
  }

  /** The opcode at `k` is one the decoder takes. */
  predicate Known(code: seq<byte>, k: nat) {
    k < |code| && if code[k] == 0x0F then k + 1 < |code| && !Unknown0F(code[k + 1]) else !Unknown(code[k])
  }

  /** Behind 0x0F the bytes 0x38 and 0x3A lead to maps of their own. */
  function OpcodeBytes(code: seq<byte>, k: nat): nat {
    if Escaped(code, k) then if code[k + 1] == 0x38 || code[k + 1] == 0x3A then 3 else 2 else 1
  }

  predicate HasModrm(code: seq<byte>, k: nat)
    requires k < |code|
  {
    if Escaped(code, k) then !Bare0F(code[k + 1]) else TakesModrm(code[k])
  }

  /** The ModRM byte at `q`, a SIB byte, and a displacement; a base of 5 without a mode has one too. */
  function OperandBytes(code: seq<byte>, q: nat): Option<nat> {
    if q >= |code| then None
    else if code[q] >= 0xC0 then Some(1)
    else if code[q] % 8 == 4 && q + 1 >= |code| then None
    else
      var sib := if code[q] % 8 == 4 then 1 else 0;
      var disp := if code[q] >= 0x80 then 4 else if code[q] >= 0x40 then 1
                  else if code[q + sib] % 8 == 5 then 4 else 0;
      Some(1 + sib + disp)
  }

  /** A branch, or an operand that is relative to the instruction; XBEGIN is one of the forms of 0xC7. */
  predicate IsRelative(code: seq<byte>, k: nat)
    requires k < |code|
  {
    || (!Escaped(code, k)
        && (code[k] / 0x10 == 7 || 0xE0 <= code[k] <= 0xE3 || code[k] in {0xE8, 0xE9, 0xEB}))
    || (Escaped(code, k) && 0x80 <= code[k + 1] < 0x90)
    || (HasModrm(code, k)
        && var q := k + OpcodeBytes(code, k);
           q < |code| && ((code[q] < 0x40 && code[q] % 8 == 5) || (code[k] == 0xC7 && code[q] == 0xF8)))
  }

  /** Behind `k` prefixes stands a known opcode; `d` is how long it is with its operands and its immediate, all of it in
      the code and no more than 15 bytes, and whether it is relative. */
  predicate Encodes(code: seq<byte>, k: nat, d: Decoded) {
    && Known(code, k) && (forall i :: 0 <= i < k ==> Prefixing(code[i])) && !Prefixing(code[k])
    && var q := k + OpcodeBytes(code, k);
       var operands := if HasModrm(code, k) then OperandBytes(code, q) else Some(0);
       operands.Some?
       && var reg := if HasModrm(code, k) then code[q] / 8 % 8 else 0;
          var narrow, short := 0x66 in code[..k], 0x67 in code[..k];
          var immediate := if Escaped(code, k) then ImmediateBytes0F(code[k + 1])
                           else ImmediateBytes(code[k], reg, narrow, RexWide(code, k), short);
          && d.length == q + operands.value + immediate <= |code| && d.length <= 15
          && d.relative == IsRelative(code, k)
  }

  ghost predicate IsEncoding(code: seq<byte>, d: Decoded) {
    exists k: nat :: Encodes(code, k, d)
  }

  // ----- the decoder's maps

  lemma {:induction false} OneByteExactly(op: byte)
    requires !Prefixing(op) && op != 0x0F
    ensures OneByte(op).Some? <==> !Unknown(op)
    ensures OneByte(op).Some? ==> (OneByte(op).value.modrm <==> TakesModrm(op))
  {
  }

  lemma {:induction false} OneByteImmediate(op: byte, reg: nat, narrow: bool, wide: bool, short: bool)
    requires !Prefixing(op) && op != 0x0F && OneByte(op).Some?
    ensures ImmSize(Immediate(Opcode(0, op, OneByte(op).value, false), reg), narrow, wide, short)
         == ImmediateBytes(op, reg, narrow, wide, short)
  {
  }

  lemma {:induction false} TwoByteExactly(op: byte)
    requires op != 0x38 && op != 0x3A
    ensures TwoByte(op).Some? <==> !Unknown0F(op)
    ensures TwoByte(op).Some? ==>
      && (TwoByte(op).value.modrm <==> !Bare0F(op))
      && ImmSize(TwoByte(op).value.imm, false, false, false) == ImmediateBytes0F(op)
      && TwoByte(op).value.imm in {NoImm, B1, B4}
  {
  }

  lemma {:induction false} PrefixIsPrefixing(b: byte)
    ensures IsPrefix(b) <==> Prefixing(b)
  {
  }

  // ----- the decoder, part by part

  /** What the prefixes from `p.at` up to `k` add to what `p` has noted. */
  lemma {:induction false} PrefixesExactly(code: seq<byte>, p: Prefixes, k: nat)
    requires p.at <= k
    ensures var r := ScanPrefixes(code, p);
      (r.Ok? && r.value.at == k)
      <==> k < |code| && (forall i :: p.at <= i < k ==> Prefixing(code[i])) && !Prefixing(code[k])
    ensures var r := ScanPrefixes(code, p);
      r.Ok? && r.value.at == k ==>
        && r.value.opsize == (p.opsize || 0x66 in code[p.at..k]) && r.value.addrsize == (p.addrsize
            || 0x67 in code[p.at..k])
        && r.value.rex == LastRex(code, p.at, k, p.rex)
    decreases k - p.at
  {
    hide IsPrefix, Prefixing;
    if p.at < |code| {
      PrefixIsPrefixing(code[p.at]);
      if IsPrefix(code[p.at]) {
        if p.at < k {
          PrefixesExactly(code, Note(p, code[p.at]), k);
          if k < |code| {
            assert code[p.at..k] == [code[p.at]] + code[p.at + 1..k];
          }
        } else {
          LaterThan(code, Note(p, code[p.at]));
        }
      }
    }
  }

  lemma {:induction false} LaterThan(code: seq<byte>, p: Prefixes)
    ensures ScanPrefixes(code, p).Ok? ==> ScanPrefixes(code, p).value.at >= p.at
  {
  }

  /** The last REX prefix from `at` to `k`, or `rex` when there is none. */
  function LastRex(code: seq<byte>, at: nat, k: nat, rex: byte): byte
    requires at <= k <= |code|
    decreases k - at
  {
    if at == k then rex else LastRex(code, at + 1, k, if 0x40 <= code[at] <= 0x4F then code[at] else rex)
  }

  lemma {:induction false} LastRexWide(code: seq<byte>, at: nat, k: nat, rex: byte)
    requires at <= k <= |code|
    ensures LastRex(code, at, k, rex) / 8 % 2 == 1
       <==> (exists i :: at <= i < k && 0x40 <= code[i] <= 0x4F && code[i] / 8 % 2 == 1
                         && forall j :: i < j < k ==> !(0x40 <= code[j] <= 0x4F))
            || (rex / 8 % 2 == 1 && forall j :: at <= j < k ==> !(0x40 <= code[j] <= 0x4F))
    decreases k - at
  {
    if at < k {
      LastRexWide(code, at + 1, k, if 0x40 <= code[at] <= 0x4F then code[at] else rex);
    }
  }

  lemma {:induction false} RexWideExactly(code: seq<byte>, k: nat)
    requires k <= |code|
    ensures LastRex(code, 0, k, 0) / 8 % 2 == 1 <==> RexWide(code, k)
  {
    LastRexWide(code, 0, k, 0);
    assert forall i :: 0 <= i < k ==> (code[i] / 0x10 == 4 <==> 0x40 <= code[i] <= 0x4F);
    assert forall i :: 0 <= i < k && 0x40 <= code[i] <= 0x4F ==> (code[i] / 8 % 2 == 1 <==> 0x48 <= code[i]);
  }

  lemma {:induction false} OpcodeExactly(code: seq<byte>, k: nat)
    requires k < |code| && !Prefixing(code[k])
    ensures ReadOpcode(code, k).Ok? <==> Known(code, k)
    ensures ReadOpcode(code, k).Ok? ==>
      var op := ReadOpcode(code, k).value;
      && op.at == k + OpcodeBytes(code, k) && op.first == code[k] && (op.form.modrm <==> HasModrm(code, k))
  {
    hide OneByte, TwoByte, Unknown, Unknown0F, Bare0F, TakesModrm, Prefixing;
    if code[k] != 0x0F {
      OneByteExactly(code[k]);
    } else if k + 1 < |code| {
      if code[k + 1] == 0x38 || code[k + 1] == 0x3A {
        Maps3(code[k + 1]);
      } else {
        TwoByteExactly(code[k + 1]);
      }
    }
  }

  lemma {:induction false} Maps3(op: byte)
    requires op == 0x38 || op == 0x3A
    ensures !Unknown0F(op) && !Bare0F(op) && ImmediateBytes0F(op) == if op == 0x3A then 1 else 0
  {
  }

  lemma {:induction false} OperandsExactly(code: seq<byte>, op: Opcode)
    requires op.form.modrm
    ensures ReadOperands(code, op).Ok? <==> OperandBytes(code, op.at).Some?
    ensures ReadOperands(code, op).Ok? ==>
      var r := ReadOperands(code, op).value;
      && op.at < |code| && r.at == op.at + OperandBytes(code, op.at).value && r.reg == code[op.at] / 8 % 8
      && (r.relative <==> op.relative || (code[op.at] < 0x40 && code[op.at] % 8 == 5)
                          || (op.first == 0xC7 && code[op.at] == 0xF8))
  {
  }

  lemma {:induction false} ImmediateExactly(code: seq<byte>, k: nat, reg: nat, narrow: bool, wide: bool, short: bool)
    requires k < |code| && !Prefixing(code[k]) && ReadOpcode(code, k).Ok?
    ensures ImmSize(Immediate(ReadOpcode(code, k).value, reg), narrow, wide, short)
         == if Escaped(code, k) then ImmediateBytes0F(code[k + 1])
            else ImmediateBytes(code[k], reg, narrow, wide, short)
  {
    hide OneByte, TwoByte, ImmediateBytes, ImmediateBytes0F, Prefixing;
    if code[k] != 0x0F {
      OneByteImmediate(code[k], reg, narrow, wide, short);
    } else if code[k + 1] == 0x38 || code[k + 1] == 0x3A {
      Maps3(code[k + 1]);
    } else {
      TwoByteExactly(code[k + 1]);
    }
  }

  lemma {:induction false} RelativeExactly(code: seq<byte>, k: nat)
    requires k < |code| && !Prefixing(code[k]) && ReadOpcode(code, k).Ok?
    requires ReadOperands(code, ReadOpcode(code, k).value).Ok?
    ensures ReadOperands(code, ReadOpcode(code, k).value).value.relative <==> IsRelative(code, k)
  {
    hide OneByte, TwoByte, TakesModrm, Bare0F, Prefixing, ReadOperands;
    var op := ReadOpcode(code, k).value;
    OpcodeExactly(code, k);
    if op.form.modrm {
      OperandsExactly(code, op);
    } else {
      BareOperands(code, op);
    }
  }

  lemma {:induction false} BareOperands(code: seq<byte>, op: Opcode)
    requires !op.form.modrm
    ensures ReadOperands(code, op) == Ok(Operands(op.at, 0, op.relative))
  {
  }

  lemma {:induction false} FinishExactly(code: seq<byte>, p: Prefixes, d: Decoded)
    requires p.at < |code| && (forall i :: 0 <= i < p.at ==> Prefixing(code[i])) && !Prefixing(code[p.at])
    requires p.opsize == (0x66 in code[..p.at]) && p.addrsize == (0x67 in code[..p.at])
    requires p.rex / 8 % 2 == 1 <==> RexWide(code, p.at)
    ensures Finish(code, p) == Ok(d) <==> Encodes(code, p.at, d)
  {
    hide ReadOpcode, ReadOperands, ImmSize, Immediate, ImmediateBytes, ImmediateBytes0F, OperandBytes, OpcodeBytes,
         HasModrm, IsRelative, RexWide, Prefixing, Known, Escaped;
    var k := p.at;
    OpcodeExactly(code, k);
    var read := ReadOpcode(code, k);
    if read.Ok? {
      var op := read.value;
      if op.form.modrm {
        OperandsExactly(code, op);
      } else {
        BareOperands(code, op);
      }
      if ReadOperands(code, op).Ok? {
        var reg := ReadOperands(code, op).value.reg;
        ImmediateExactly(code, k, reg, p.opsize, p.rex / 8 % 2 == 1, p.addrsize);
        RelativeExactly(code, k);
      }
    }
  }

  /** The decoder, exactly: an instruction is accepted, with this length and relativity, if and only if it is a known
      opcode behind prefixes, and that is what its parts add up to. */
  lemma {:induction false} DecodesExactly(code: seq<byte>, d: Decoded)
    ensures Decode.Decode(code) == Ok(d) <==> IsEncoding(code, d)
  {
    hide ScanPrefixes, Finish, Encodes, RexWide, Prefixing, LastRex;
    var r := ScanPrefixes(code, START);
    if r.Ok? {
      var k := r.value.at;
      PrefixesExactly(code, START, k);
      RexWideExactly(code, k);
      assert code[0..k] == code[..k];
      FinishExactly(code, r.value, d);
    }
    forall k: nat | Encodes(code, k, d)
      ensures r.Ok? && r.value.at == k
    {
      EncodedPrefixes(code, k, d);
      PrefixesExactly(code, START, k);
    }
  }

  lemma {:induction false} EncodedPrefixes(code: seq<byte>, k: nat, d: Decoded)
    requires Encodes(code, k, d)
    ensures k < |code| && (forall i :: 0 <= i < k ==> Prefixing(code[i])) && !Prefixing(code[k])
  {
    hide Prefixing;
  }

  /** At `at` stands a whole instruction that ends at `end` and is not relative. */
  ghost predicate Copies(code: seq<byte>, at: nat, end: nat) {
    at < end <= |code| && IsEncoding(code[at..], Decoded(end - at, false))
  }

  /** The cuts take the code apart into whole instructions, none of them relative. */
  ghost predicate CutsWhole(code: seq<byte>, cuts: seq<nat>) {
    && cuts != [] && cuts[0] == 0 && cuts[|cuts| - 1] == |code|
    && forall i :: 0 <= i < |cuts| - 1 ==> Copies(code, cuts[i], cuts[i + 1])
  }

  lemma {:induction false} CopiesExactly(code: seq<byte>, at: nat, end: nat)
    requires at <= |code|
    ensures Copies(code, at, end) <==>
      at < end <= |code| && Decode.Decode(code[at..]) == Ok(Decoded(end - at, false))
  {
    hide Decode.Decode, Encodes;
    if at < end {
      DecodesExactly(code[at..], Decoded(end - at, false));
    }
  }

  lemma {:induction false} CopyableCut(code: seq<byte>, at: nat) returns (cuts: seq<nat>)
    requires at <= |code| && Copyable(code[at..]).Ok?
    ensures cuts != [] && cuts[0] == at && cuts[|cuts| - 1] == |code|
    ensures forall i :: 0 <= i < |cuts| - 1 ==> Copies(code, cuts[i], cuts[i + 1])
    decreases |code| - at
  {
    hide Decode.Decode, Copies;
    if at == |code| {
      cuts := [at];
    } else {
      var d := Decode.Decode(code[at..]).value;
      DecodeIsLocal(code[at..], code[at..]);
      assert d == Decoded(d.length, false);
      CopiesExactly(code, at, at + d.length);
      assert code[at..][d.length..] == code[at + d.length..];
      var later := CopyableCut(code, at + d.length);
      cuts := [at] + later;
      forall i | 0 <= i < |cuts| - 1
        ensures Copies(code, cuts[i], cuts[i + 1])
      {
        if i > 0 {
          assert Copies(code, later[i - 1], later[i - 1 + 1]);
        }
      }
    }
  }

  lemma {:induction false} CutIsCopyable(code: seq<byte>, cuts: seq<nat>, i: nat)
    requires CutsWhole(code, cuts) && i < |cuts|
    ensures cuts[i] <= |code| && Copyable(code[cuts[i]..]).Ok?
    decreases |cuts| - i
  {
    hide Decode.Decode, Copies;
    if i + 1 < |cuts| {
      CutIsCopyable(code, cuts, i + 1);
      assert Copies(code, cuts[i], cuts[i + 1]);
      CopiesInside(code, cuts[i], cuts[i + 1]);
      CopiesExactly(code, cuts[i], cuts[i + 1]);
      assert code[cuts[i]..][cuts[i + 1] - cuts[i]..] == code[cuts[i + 1]..];
    }
  }

  lemma {:induction false} CopiesInside(code: seq<byte>, at: nat, end: nat)
    requires Copies(code, at, end)
    ensures at < end <= |code|
  {
  }

  /** A span may be copied exactly when it is whole instructions none of which is relative. */
  lemma {:induction false} CopyableExactly(code: seq<byte>)
    ensures Copyable(code).Ok? <==> exists cuts :: CutsWhole(code, cuts)
  {
    hide Copyable, Copies;
    assert code[0..] == code;
    if Copyable(code).Ok? {
      var cuts := CopyableCut(code, 0);
      assert CutsWhole(code, cuts);
    }
    if cuts :| CutsWhole(code, cuts) {
      CutIsCopyable(code, cuts, 0);
    }
  }

  lemma {:induction false} BranchEncodes(code: seq<byte>)
    requires |code| >= 5 && (code[0] == 0xE8 || code[0] == 0xE9)
    ensures Encodes(code, 0, Decoded(5, true))
  {
    hide RexWide;
    assert !Unknown(code[0]) && !TakesModrm(code[0]) && !Prefixing(code[0]);
  }

  /** The branch of a placed write is one relative instruction of five bytes: a span that was hooked is never copied. */
  lemma {:induction false} PlacedBranchDecodes(w: Units.Write, base: nat, at: nat)
    requires !w.kind.Edit? && Units.PlacedWrite(w, base, at).Ok?
    ensures Decode.Decode(Units.PlacedWrite(w, base, at).value.after) == Ok(Decoded(5, true))
    ensures Copyable(Units.PlacedWrite(w, base, at).value.after).Err?
  {
    var code := Units.PlacedWrite(w, base, at).value.after;
    hide Decode.Decode, Encodes;
    Units.PlacedBytes(w, base, at);
    BranchEncodes(code);
    DecodesExactly(code, Decoded(5, true));
  }
}
