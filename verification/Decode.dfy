/** x86-64 instruction lengths (crates/core/src/decode.rs), conservative: what it is not sure of is refused. */
module Decode {
  import opened Outcome
  import opened Bytes

  /** An immediate operand. `Z` follows the operand size, `V` also REX.W, and `Moffs` the address size. */
  datatype Imm = NoImm | B1 | B2 | B3 | B4 | Z | V | Moffs

  datatype Form = Form(modrm: bool, imm: Imm)

  /** An instruction: its length, and whether it holds an address relative to itself. */
  datatype Decoded = Decoded(length: nat, relative: bool)

  function ImmSize(imm: Imm, opsize: bool, rexW: bool, addrsize: bool): nat {
    match imm
    case NoImm => 0
    case B1 => 1
    case B2 => 2
    case B3 => 3
    case B4 => 4
    case Z => if opsize then 2 else 4
    case V => if rexW then 8 else if opsize then 2 else 4
    case Moffs => if addrsize then 4 else 8
  }

  /** The one-byte opcode map. */
  function OneByte(op: byte): Option<Form> {
    if op < 0x40 then
      if op % 8 < 4 then Some(Form(true, NoImm))
      else if op % 8 == 4 then Some(Form(false, B1))
      else if op % 8 == 5 then Some(Form(false, Z))
      else None
    else if 0x50 <= op <= 0x5F then Some(Form(false, NoImm))
    else if op == 0x63 then Some(Form(true, NoImm))
    else if op == 0x68 then Some(Form(false, Z))
    else if op == 0x69 then Some(Form(true, Z))
    else if op == 0x6A then Some(Form(false, B1))
    else if op == 0x6B then Some(Form(true, B1))
    else if 0x6C <= op <= 0x6F then Some(Form(false, NoImm))
    else if 0x70 <= op <= 0x7F then Some(Form(false, B1))
    else if op == 0x80 then Some(Form(true, B1))
    else if op == 0x81 then Some(Form(true, Z))
    else if op == 0x83 then Some(Form(true, B1))
    else if 0x84 <= op <= 0x8F then Some(Form(true, NoImm))
    else if 0x90 <= op <= 0x9F && op != 0x9A then Some(Form(false, NoImm))
    else if 0xA0 <= op <= 0xA3 then Some(Form(false, Moffs))
    else if 0xA4 <= op <= 0xA7 then Some(Form(false, NoImm))
    else if op == 0xA8 then Some(Form(false, B1))
    else if op == 0xA9 then Some(Form(false, Z))
    else if 0xAA <= op <= 0xAF then Some(Form(false, NoImm))
    else if 0xB0 <= op <= 0xB7 then Some(Form(false, B1))
    else if 0xB8 <= op <= 0xBF then Some(Form(false, V))
    else if op == 0xC0 || op == 0xC1 then Some(Form(true, B1))
    else if op == 0xC2 then Some(Form(false, B2))
    else if op == 0xC3 then Some(Form(false, NoImm))
    else if op == 0xC6 then Some(Form(true, B1))
    else if op == 0xC7 then Some(Form(true, Z))
    else if op == 0xC8 then Some(Form(false, B3))
    else if op == 0xC9 then Some(Form(false, NoImm))
    else if op == 0xCA then Some(Form(false, B2))
    else if op == 0xCB || op == 0xCC || op == 0xCF then Some(Form(false, NoImm))
    else if op == 0xCD then Some(Form(false, B1))
    else if 0xD0 <= op <= 0xD3 then Some(Form(true, NoImm))
    else if op == 0xD7 then Some(Form(false, NoImm))
    else if 0xD8 <= op <= 0xDF then Some(Form(true, NoImm))
    else if 0xE0 <= op <= 0xE7 then Some(Form(false, B1))
    else if op == 0xE8 || op == 0xE9 then Some(Form(false, B4))
    else if op == 0xEB then Some(Form(false, B1))
    else if 0xEC <= op <= 0xEF then Some(Form(false, NoImm))
    else if op == 0xF1 || op == 0xF4 || op == 0xF5 then Some(Form(false, NoImm))
    else if op == 0xF6 || op == 0xF7 then Some(Form(true, NoImm))
    else if 0xF8 <= op <= 0xFD then Some(Form(false, NoImm))
    else if op == 0xFE || op == 0xFF then Some(Form(true, NoImm))
    else None
  }

  /** The two-byte opcode map, after 0x0F. */
  function TwoByte(op: byte): Option<Form> {
    if op <= 0x03 then Some(Form(true, NoImm))
    else if 0x05 <= op <= 0x09 || op == 0x0B || op == 0x0E || 0x30 <= op <= 0x37 || op == 0x77
         || op == 0xA2 || op == 0xAA || op == 0xB9 then Some(Form(false, NoImm))
    else if op == 0x0D then Some(Form(true, NoImm))
    else if 0x10 <= op <= 0x23 || 0x28 <= op <= 0x2F then Some(Form(true, NoImm))
    else if 0x40 <= op <= 0x6F then Some(Form(true, NoImm))
    else if 0x70 <= op <= 0x73 then Some(Form(true, B1))
    else if 0x74 <= op <= 0x76 || op == 0x78 || op == 0x79 || 0x7C <= op <= 0x7F then Some(Form(true, NoImm))
    else if 0x80 <= op <= 0x8F then Some(Form(false, B4))
    else if 0x90 <= op <= 0x9F then Some(Form(true, NoImm))
    else if op == 0xA0 || op == 0xA1 || op == 0xA8 || op == 0xA9 then Some(Form(false, NoImm))
    else if op == 0xA3 || op == 0xA5 || op == 0xAB || 0xAD <= op <= 0xAF then Some(Form(true, NoImm))
    else if op == 0xA4 || op == 0xAC then Some(Form(true, B1))
    else if 0xB0 <= op <= 0xB8 then Some(Form(true, NoImm))
    else if op == 0xBA then Some(Form(true, B1))
    else if 0xBB <= op <= 0xBF then Some(Form(true, NoImm))
    else if op == 0xC0 || op == 0xC1 || op == 0xC3 || op == 0xC7 then Some(Form(true, NoImm))
    else if op == 0xC2 || 0xC4 <= op <= 0xC6 then Some(Form(true, B1))
    else if 0xC8 <= op <= 0xCF then Some(Form(false, NoImm))
    else if 0xD0 <= op then Some(Form(true, NoImm))
    else None
  }

  function Get(code: seq<byte>, at: nat): Result<byte> {
    if at < |code| then Ok(code[at]) else Err(RunsOffTheEnd)
  }

  // ----- prefixes

  datatype Prefixes = Prefixes(at: nat, opsize: bool, addrsize: bool, rex: byte)

  predicate IsPrefix(b: byte) {
    b == 0x66 || b == 0x67 || b == 0x26 || b == 0x2E || b == 0x36 || b == 0x3E || b == 0x64 || b == 0x65
    || b == 0xF0 || b == 0xF2 || b == 0xF3 || 0x40 <= b <= 0x4F
  }

  function Note(p: Prefixes, b: byte): Prefixes {
    Prefixes(p.at + 1, p.opsize || b == 0x66, p.addrsize || b == 0x67, if 0x40 <= b <= 0x4F then b else p.rex)
  }

  /** The prefixes from `p.at` on. */
  function ScanPrefixes(code: seq<byte>, p: Prefixes): (r: Result<Prefixes>)
    ensures r.Ok? ==> p.at <= r.value.at < |code|
    decreases if p.at < |code| then |code| - p.at else 0
  {
    var b :- Get(code, p.at);
    if IsPrefix(b) then ScanPrefixes(code, Note(p, b)) else Ok(p)
  }

  const START := Prefixes(0, false, false, 0)

  // ----- opcode, operand bytes and immediate

  /** The opcode: the position after it, its form, and whether it is a relative branch. */
  datatype Opcode = Opcode(at: nat, first: byte, form: Form, relative: bool)

  function ReadOpcode(code: seq<byte>, at: nat): Result<Opcode> {
    var opcode :- Get(code, at);
    if opcode == 0x0F then
      var second :- Get(code, at + 1);
      if second == 0x38 then Ok(Opcode(at + 3, opcode, Form(true, NoImm), false))
      else if second == 0x3A then Ok(Opcode(at + 3, opcode, Form(true, B1), false))
      else match TwoByte(second)
        case None => Err(UnsupportedOpcode)
        case Some(form) => Ok(Opcode(at + 2, opcode, form, 0x80 <= second <= 0x8F))
    else match OneByte(opcode)
      case None => Err(UnsupportedOpcode)
      case Some(form) =>
        Ok(Opcode(at + 1, opcode, form,
                  0x70 <= opcode <= 0x7F || 0xE0 <= opcode <= 0xE3 || opcode == 0xE8 || opcode == 0xE9
                      || opcode == 0xEB))
  }

  /** The operand bytes: the position after them, the reg field, and whether they are relative. */
  datatype Operands = Operands(at: nat, reg: nat, relative: bool)

  function Displacement(mode: nat, base: nat): nat {
    if mode == 0 then if base == 5 then 4 else 0
    else if mode == 1 then 1
    else 4
  }

  function ReadOperands(code: seq<byte>, op: Opcode): Result<Operands> {
    if !op.form.modrm then Ok(Operands(op.at, 0, op.relative))
    else
      var modrm :- Get(code, op.at);
      var reg, mode, rm := modrm / 8 % 8, modrm / 64, modrm % 8;
      var relative := op.relative || (mode == 0 && rm == 5) || (op.first == 0xC7 && modrm == 0xF8);
      if mode == 3 then Ok(Operands(op.at + 1, reg, relative))
      else if rm == 4 then
        var sib :- Get(code, op.at + 1);
        Ok(Operands(op.at + 2 + Displacement(mode, sib % 8), reg, relative))
      else
        Ok(Operands(op.at + 1 + Displacement(mode, rm), reg, relative))
  }

  /** Only the test forms of group 3 carry an immediate. */
  function Immediate(op: Opcode, reg: nat): Imm {
    if op.first == 0xF6 then if reg <= 1 then B1 else NoImm
    else if op.first == 0xF7 then if reg <= 1 then Z else NoImm
    else op.form.imm
  }

  function Finish(code: seq<byte>, p: Prefixes): Result<Decoded> {
    var op :- ReadOpcode(code, p.at);
    var operands :- ReadOperands(code, op);
    var end := operands.at + ImmSize(Immediate(op, operands.reg), p.opsize, p.rex / 8 % 2 == 1, p.addrsize);
    if end > |code| then Err(RunsOffTheEnd)
    else if end > 15 then Err(TooLong)
    else Ok(Decoded(end, operands.relative))
  }

  /** The instruction at the start of `code`. */
  function Decode(code: seq<byte>): Result<Decoded> {
    var p :- ScanPrefixes(code, START);
    Finish(code, p)
  }

  method DecodeInstruction(code: seq<byte>) returns (r: Result<Decoded>)
    ensures r == Decode(code)
  {
    var p := START;
    while true
      invariant p.at <= |code|
      invariant ScanPrefixes(code, START) == ScanPrefixes(code, p)
      decreases |code| - p.at
    {
      if p.at >= |code| {
        return Err(RunsOffTheEnd);
      }
      if !IsPrefix(code[p.at]) {
        break;
      }
      p := Note(p, code[p.at]);
    }
    return Finish(code, p);
  }

  // ----- the encoding is self-delimiting

  lemma {:induction false} PrefixesLocal(code: seq<byte>, other: seq<byte>, p: Prefixes)
    requires ScanPrefixes(code, p).Ok? && ScanPrefixes(code, p).value.at < |other|
    requires forall i :: 0 <= i <= ScanPrefixes(code, p).value.at ==> other[i] == code[i]
    ensures ScanPrefixes(other, p) == ScanPrefixes(code, p)
    decreases |code| - p.at
  {
    if IsPrefix(code[p.at]) {
      PrefixesLocal(code, other, Note(p, code[p.at]));
    }
  }

  lemma {:induction false} OpcodeLocal(code: seq<byte>, other: seq<byte>, at: nat)
    requires ReadOpcode(code, at).Ok? && ReadOpcode(code, at).value.at <= |other|
    requires forall i :: 0 <= i < ReadOpcode(code, at).value.at && i < |code| ==> other[i] == code[i]
    ensures at < ReadOpcode(code, at).value.at
    ensures ReadOpcode(other, at) == ReadOpcode(code, at)
  {
    hide OneByte, TwoByte;
  }

  lemma {:induction false} OperandsLocal(code: seq<byte>, other: seq<byte>, op: Opcode)
    requires ReadOperands(code, op).Ok? && ReadOperands(code, op).value.at <= |other|
    requires forall i :: 0 <= i < ReadOperands(code, op).value.at && i < |code| ==> other[i] == code[i]
    ensures op.at <= ReadOperands(code, op).value.at
    ensures ReadOperands(other, op) == ReadOperands(code, op)
  {
  }

  /** The decoder is self-delimiting: an accepted instruction has between 1 and 15 bytes, all inside the
      code, and what was decoded depends on those bytes alone. */
  lemma {:induction false} DecodeIsLocal(code: seq<byte>, other: seq<byte>)
    requires Decode(code).Ok?
    ensures 1 <= Decode(code).value.length <= 15 && Decode(code).value.length <= |code|
    ensures (Decode(code).value.length <= |other|
             && other[..Decode(code).value.length] == code[..Decode(code).value.length])
            ==> Decode(other) == Decode(code)
  {
    hide ReadOpcode, ReadOperands, ImmSize, Immediate;
    var n := Decode(code).value.length;
    var p := ScanPrefixes(code, START).value;
    var op := ReadOpcode(code, p.at).value;
    var operands := ReadOperands(code, op).value;
    assert n >= operands.at;
    OpcodeLocal(code, code, p.at) by {
      OpcodeInside(code, p.at, op, operands);
    }
    OperandsLocal(code, code, op);
    if n <= |other| && other[..n] == code[..n] {
      forall i | 0 <= i < n
        ensures other[i] == code[i]
      {
        assert other[..n][i] == code[..n][i];
      }
      PrefixesLocal(code, other, START);
      OpcodeLocal(code, other, p.at);
      OperandsLocal(code, other, op);
    }
  }

  lemma {:induction false} OpcodeInside(code: seq<byte>, at: nat, op: Opcode, operands: Operands)
    requires ReadOpcode(code, at) == Ok(op) && ReadOperands(code, op) == Ok(operands)
    ensures op.at <= operands.at
  {
    hide OneByte, TwoByte;
  }

  /** No accepted encoding is a proper prefix of another. */
  lemma {:induction false} EncodingsArePrefixFree(a: seq<byte>, b: seq<byte>)
    requires Decode(a).Ok? && Decode(a).value.length == |a|
    requires Decode(b).Ok? && Decode(b).value.length == |b|
    requires a <= b
    ensures a == b
  {
    hide Decode;
    assert b[..|a|] == a[..|a|];
    DecodeIsLocal(a, b);
  }

  // ----- instruction boundaries

  /** Whole instructions from the start of `code` end at `n`. */
  predicate Boundary(code: seq<byte>, n: nat)
    decreases n
  {
    n == 0 || (Decode(code).Ok? && 0 < Decode(code).value.length <= n && Decode(code).value.length <= |code|
               && Boundary(code[Decode(code).value.length..], n - Decode(code).value.length))
  }

  lemma {:induction false} BoundaryInside(code: seq<byte>, n: nat)
    requires Boundary(code, n)
    ensures n <= |code|
    decreases n
  {
    hide Decode;
    if n > 0 {
      var k := Decode(code).value.length;
      BoundaryInside(code[k..], n - k);
    }
  }

  /** From one boundary to the next later one is at least a whole instruction. */
  lemma {:induction false} BoundaryStep(code: seq<byte>, n: nat, b: nat)
    requires Boundary(code, n) && n <= |code| && Boundary(code, b) && n < b
    ensures Decode(code[n..]).Ok? && n + Decode(code[n..]).value.length <= b
    decreases n
  {
    hide Decode;
    if n == 0 {
      assert code[0..] == code;
    } else {
      var k := Decode(code).value.length;
      BoundaryStep(code[k..], n - k, b - k);
      assert code[k..][n - k..] == code[n..];
    }
  }

  lemma {:induction false} BoundaryAdvances(code: seq<byte>, n: nat)
    requires Boundary(code, n) && n <= |code| && Decode(code[n..]).Ok?
    ensures 0 < Decode(code[n..]).value.length <= |code| - n
    ensures Boundary(code, n + Decode(code[n..]).value.length)
    decreases n
  {
    hide Decode;
    DecodeIsLocal(code[n..], code[n..]);
    var m := Decode(code[n..]).value.length;
    if n == 0 {
      assert code[0..] == code;
      assert Boundary(code[m..], 0);
    } else {
      var k := Decode(code).value.length;
      assert code[k..][n - k..] == code[n..];
      BoundaryAdvances(code[k..], n - k);
    }
  }

  /** How many whole instructions cover at least `minimum` bytes: the least boundary at or past it, and
      an error exactly when the code has none. */
  method Displaced(code: seq<byte>, minimum: nat) returns (r: Result<nat>)
    ensures r.Ok? ==> minimum <= r.value <= |code| && Boundary(code, r.value)
    ensures r.Ok? ==> forall b: nat :: Boundary(code, b) && minimum <= b ==> r.value <= b
    ensures r.Err? ==> forall b: nat :: Boundary(code, b) ==> b < minimum
  {
    hide Decode;
    var total: nat := 0;
    while total < minimum
      invariant total <= |code| && Boundary(code, total)
      invariant forall b: nat :: Boundary(code, b) && minimum <= b ==> total <= b
      decreases minimum - total
    {
      if total >= |code| {
        forall b: nat | Boundary(code, b)
          ensures b < minimum
        {
          BoundaryInside(code, b);
        }
        return Err(TooFewBytes);
      }
      var next := DecodeInstruction(code[total..]);
      if next.Err? {
        forall b: nat | Boundary(code, b)
          ensures b < minimum
        {
          if b > total {
            BoundaryStep(code, total, b);
          }
        }
        return Err(next.error);
      }
      BoundaryAdvances(code, total);
      forall b: nat | Boundary(code, b) && minimum <= b
        ensures total + next.value.length <= b
      {
        BoundaryStep(code, total, b);
      }
      total := total + next.value.length;
    }
    return Ok(total);
  }

  // ----- code that may be copied

  /** Whole instructions, none of which needs relocation. */
  function Copyable(code: seq<byte>): Result<()>
    decreases |code|
  {
    if code == [] then Ok(())
    else
      var d :- Decode(code);
      DecodeIsLocal(code, code);
      if d.relative then Err(NeedsRelocation) else Copyable(code[d.length..])
  }

  method ValidateCopy(code: seq<byte>) returns (r: Result<()>)
    ensures r == Copyable(code)
  {
    hide Decode;
    var offset: nat := 0;
    assert code[0..] == code;
    while offset < |code|
      invariant offset <= |code|
      invariant Copyable(code) == Copyable(code[offset..])
      decreases |code| - offset
    {
      var d := DecodeInstruction(code[offset..]);
      if d.Err? {
        return Err(d.error);
      }
      DecodeIsLocal(code[offset..], code[offset..]);
      if d.value.relative {
        return Err(NeedsRelocation);
      }
      assert code[offset..][d.value.length..] == code[offset + d.value.length..];
      offset := offset + d.value.length;
    }
    return Ok(());
  }

  /** Copyable spans are closed under concatenation, and only copyable code can follow one. */
  lemma {:induction false} CopyableConcat(a: seq<byte>, b: seq<byte>)
    requires Copyable(a).Ok?
    ensures Copyable(a + b).Ok? <==> Copyable(b).Ok?
    decreases |a|
  {
    hide Decode;
    if a == [] {
      assert a + b == b;
    } else {
      var n := Decode(a).value.length;
      DecodeIsLocal(a, a + b);
      assert (a + b)[..n] == a[..n];
      assert (a + b)[n..] == a[n..] + b;
      CopyableConcat(a[n..], b);
    }
  }

  /** A copyable span ends at a boundary of any code it starts. */
  lemma {:induction false} CopyableEndsAtBoundary(a: seq<byte>, b: seq<byte>)
    requires Copyable(a).Ok?
    ensures Boundary(a + b, |a|)
    decreases |a|
  {
    hide Decode;
    if a != [] {
      var n := Decode(a).value.length;
      DecodeIsLocal(a, a + b);
      assert (a + b)[..n] == a[..n];
      assert (a + b)[n..] == a[n..] + b;
      CopyableEndsAtBoundary(a[n..], b);
    }
  }
}
