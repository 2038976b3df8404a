/** A process's memory as the installer sees it (crates/core/src/apply.rs). */
module Memory {
  import opened Outcome
  import opened Bytes

  /** The byte at each mapped address. */
  type Mem = map<nat, byte>

  predicate Mapped(m: Mem, a: nat, n: nat) {
    forall k :: a <= k < a + n ==> k in m
  }

  /** The `n` bytes from `a` on. */
  function Peek(m: Mem, a: nat, n: nat): (r: seq<byte>)
    requires Mapped(m, a, n)
    ensures |r| == n
    ensures forall k :: 0 <= k < n ==> r[k] == m[a + k]
  {
    seq(n, i requires 0 <= i < n => m[a + i])
  }

  /** A read that meets no fault. */
  function Read(m: Mem, a: nat, n: nat): (r: Result<seq<byte>>)
    ensures r.Ok? ==> |r.value| == n
  {
    if Mapped(m, a, n) then Ok(Peek(m, a, n)) else Err(ReadFailed)
  }

  predicate Holds(m: Mem, a: nat, data: seq<byte>) {
    forall k :: a <= k < a + |data| ==> k in m && m[k] == data[k - a]
  }

  function Poke(m: Mem, a: nat, data: seq<byte>): (r: Mem)
    ensures r.Keys == m.Keys
  {
    map k | k in m :: if a <= k < a + |data| then data[k - a] else m[k]
  }

  /** `m` with the span's bytes replaced by whatever `junk` says. */
  function Torn(m: Mem, a: nat, n: nat, junk: map<nat, byte>): (r: Mem)
    ensures r.Keys == m.Keys
  {
    map k | k in m :: if a <= k < a + n && k in junk then junk[k] else m[k]
  }

  /** The two memories map the same addresses and differ at most inside the span. */
  predicate AgreeOutside(m: Mem, m': Mem, a: nat, n: nat) {
    && m.Keys == m'.Keys
    && forall k :: k in m && !(a <= k < a + n) ==> m'[k] == m[k]
  }

  predicate Unmapped(m: Mem, a: nat, n: nat) {
    forall k :: a <= k < a + n ==> k !in m
  }

  /** A torn write leaves anything at all in its span, and nothing elsewhere. */
  lemma {:induction false} TearsAreAnything(m: Mem, m': Mem, a: nat, n: nat)
    ensures (exists junk :: Torn(m, a, n, junk) == m')
       <==> m'.Keys == m.Keys && forall k :: k in m && (k < a || a + n <= k) ==> m'[k] == m[k]
  {
    if m'.Keys == m.Keys && forall k :: k in m && (k < a || a + n <= k) ==> m'[k] == m[k] {
      assert Torn(m, a, n, m') == m';
    }
  }

  /** `m` with a zeroed block of `n` bytes mapped at `a`. */
  function WithBlock(m: Mem, a: nat, n: nat): (r: Mem)
    ensures forall k :: k in r <==> k in m || a <= k < a + n
    ensures forall k :: k in r ==> r[k] == if a <= k < a + n then 0 else m[k]
  {
    if n == 0 then m else WithBlock(m, a, n - 1)[a + n - 1 := 0]
  }

  /** `m` with the block at `a` unmapped. */
  function Without(m: Mem, a: nat, n: nat): (r: Mem)
    ensures forall k :: k in r <==> k in m && !(a <= k < a + n)
    ensures forall k :: k in r ==> r[k] == m[k]
  {
    map k | k in m && !(a <= k < a + n) :: m[k]
  }

  lemma {:induction false} HoldsIsRead(m: Mem, a: nat, data: seq<byte>)
    ensures Holds(m, a, data) <==> Read(m, a, |data|) == Ok(data)
  {
    if Read(m, a, |data|) == Ok(data) {
      forall k | a <= k < a + |data|
        ensures k in m && m[k] == data[k - a]
      {
        assert Peek(m, a, |data|)[k - a] == data[k - a];
      }
    }
    if Holds(m, a, data) {
      assert Mapped(m, a, |data|);
      assert Peek(m, a, |data|) == data;
    }
  }

  // ----- the process, under an arbitrary fault schedule

  /** What the system does to one operation. A read, a write or a reservation may fail. A write that
      fails, or that claims success without taking, leaves anything inside its own span; while it runs,
      the span may hold anything too. A reservation gets an address of the system's choosing. */
  datatype Fault = Fault(fails: bool, lost: bool, midway: map<nat, byte>, junk: map<nat, byte>, spot: nat)

  class Process {
    const schedule: nat -> Fault
    var clock: nat
    var mem: Mem
    var blocks: map<nat, nat>     // reserved blocks, by base address
    ghost var trace: seq<Mem>   // every memory the process went through
    ghost var clean: bool         // no fault has struck so far

    constructor (schedule: nat -> Fault, mem: Mem)
      ensures this.schedule == schedule && this.mem == mem && blocks == map[] && trace == [] && clean
    {
      this.schedule := schedule;
      this.clock := 0;
      this.mem := mem;
      this.blocks := map[];
      this.trace := [];
      this.clean := true;
    }

    /** A read that succeeds is truthful. */
    method ReadBytes(a: nat, n: nat) returns (r: Result<seq<byte>>)
      modifies `clock, `clean
      ensures r.Ok? ==> r == Read(mem, a, n)
      ensures r.Err? ==> r == Err(ReadFailed)
      ensures clean ==> old(clean) && r == Read(mem, a, n)
    {
      var fault := schedule(clock);
      clock := clock + 1;
      if fault.fails {
        clean := false;
        return Err(ReadFailed);
      }
      return Read(mem, a, n);
    }

    /** Whatever happens, nothing outside the span changes, and only a mapped span changes at all. */
    method WriteBytes(a: nat, data: seq<byte>) returns (ok: bool)
      modifies `clock, `clean, `mem, `trace
      ensures AgreeOutside(old(mem), mem, a, |data|)
      ensures !Mapped(mem, a, |data|) ==> !ok && mem == old(mem)
      ensures clean ==> old(clean) && (Mapped(mem, a, |data|) ==> ok && Holds(mem, a, data))
      ensures |trace| == |old(trace)| + 2 && trace[..|old(trace)|] == old(trace)
      ensures forall i :: |old(trace)| <= i < |trace| ==> AgreeOutside(old(mem), trace[i], a, |data|)
      ensures trace[|trace| - 1] == mem
    {
      var fault := schedule(clock);
      clock := clock + 1;
      if !Mapped(mem, a, |data|) {
        ok := false;
        trace := trace + [mem, mem];
        return;
      }
      ghost var midway := Torn(mem, a, |data|, fault.midway);
      ok := !fault.fails;
      if fault.fails || fault.lost {
        clean := false;
        mem := Torn(mem, a, |data|, fault.junk);
      } else {
        mem := Poke(mem, a, data);
      }
      trace := trace + [midway, mem];
    }

    /** A reserved block is disjoint from everything mapped, and fits the address space. */
    method Reserve(n: nat) returns (r: Result<nat>)
      modifies `clock, `clean, `mem, `blocks, `trace
      ensures r.Err? ==> r == Err(ReserveFailed) && mem == old(mem) && blocks == old(blocks) && trace == old(trace)
      ensures r.Err? ==> !clean
      ensures clean ==> old(clean)
      ensures r.Ok? ==>
        && Unmapped(old(mem), r.value, n) && r.value !in old(blocks) && r.value + n <= WORD64
        && mem == WithBlock(old(mem), r.value, n)
        && blocks == old(blocks)[r.value := n]
        && trace == old(trace) + [mem]
    {
      var fault := schedule(clock);
      clock := clock + 1;
      var b := fault.spot;
      if fault.fails || b in blocks || b + n > WORD64 || !Unmapped(mem, b, n) {
        clean := false;
        return Err(ReserveFailed);
      }
      mem := WithBlock(mem, b, n);
      blocks := blocks[b := n];
      trace := trace + [mem];
      return Ok(b);
    }

    /** The block reserved at `b` is given back; nothing happens when there is none. */
    method Release(b: nat)
      modifies `mem, `blocks, `trace
      ensures b !in old(blocks) ==> mem == old(mem) && blocks == old(blocks)
      ensures b in old(blocks) ==> mem == Without(old(mem), b, old(blocks)[b]) && blocks == old(blocks) - {b}
      ensures trace == old(trace) + [mem]
    {
      if b in blocks {
        mem := Without(mem, b, blocks[b]);
        blocks := blocks - {b};
      }
      trace := trace + [mem];
    }
  }
}
