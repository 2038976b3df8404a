/** The export lookup on an image's bytes (injector/src/host_mode.rs:172-259): where the PE format keeps what is read,
    by address, and what the answer says about the image. */
module Images {
  import opened Outcome
  import opened Bytes
  import opened Exports

  /** The reader serves the bytes of one image. */
  ghost predicate Serves(read: Reader, b: seq<byte>) {
    && Covers(read, |b|)
    && forall at: nat, n: nat :: at + n <= |b| ==> read.requires(at, n) && read(at, n) == Ok(b[at..at + n])
  }

  /** The four-byte number at an address, least byte first. */
  function At(b: seq<byte>, p: nat): nat
    requires p + 4 <= |b|
  {
    b[p] as int + 0x100 * b[p + 1] as int + 0x1_0000 * b[p + 2] as int + 0x100_0000 * b[p + 3] as int
  }

  function ShortAt(b: seq<byte>, p: nat): nat
    requires p + 2 <= |b|
  {
    b[p] as int + 0x100 * b[p + 1] as int
  }

  // ----- the headers

  /** A 64-bit PE image with its headers at `nt`, and in them the number, place and size of the export directory. */
  predicate IsPe(b: seq<byte>, nt: nat) {
    && 64 <= |b| && b[0] == 'M' as int && b[1] == 'Z' as int && At(b, 0x3C) == nt && nt + 144 <= |b|
    && b[nt] == 'P' as int && b[nt + 1] == 'E' as int && b[nt + 2] == 0 && b[nt + 3] == 0
    && b[nt + 24] == 0x0B && b[nt + 25] == 0x02
  }

  predicate ExportsNothing(b: seq<byte>, nt: nat)
    requires nt + 144 <= |b|
  {
    At(b, nt + 132) == 0 || At(b, nt + 136) == 0 || At(b, nt + 140) == 0
  }

  /** The directory at `dir`, with the pointers to its names inside the image. */
  predicate HasDirectory(b: seq<byte>, nt: nat, dir: nat) {
    && IsPe(b, nt) && !ExportsNothing(b, nt) && dir == At(b, nt + 136) && dir + 40 <= |b|
    && At(b, dir + 24) <= |b| / 4 && At(b, dir + 32) + 4 * At(b, dir + 24) <= |b|
  }

  predicate IsDirectory(b: seq<byte>, nt: nat, dir: nat, d: Directory) {
    && HasDirectory(b, nt, dir) && d.at == dir && d.length == At(b, nt + 140) && d.table == b[dir..dir + 40]
    && d.names == b[At(b, dir + 32)..At(b, dir + 32) + 4 * At(b, dir + 24)]
  }

  lemma {:induction false} WordAt(b: seq<byte>, from: nat, to: nat, p: nat)
    requires from <= to <= |b| && p + 4 <= to - from
    ensures Word(b[from..to], p) == At(b, from + p)
  {
    var slice := b[from..to];
    assert slice[p] == b[from + p] && slice[p + 1] == b[from + p + 1] && slice[p + 2] == b[from + p + 2];
    assert slice[p + 3] == b[from + p + 3];
  }

  lemma {:induction false} Covered(read: Reader, b: seq<byte>)
    requires Serves(read, b)
    ensures Covers(read, |b|)
  {
  }

  lemma {:induction false} GetServed(read: Reader, b: seq<byte>, at: nat, n: nat)
    requires Serves(read, b)
    ensures Get(read, |b|, at, n).Ok? <==> at + n <= |b|
    ensures at + n <= |b| ==> Get(read, |b|, at, n) == Ok(b[at..at + n])
  {
  }

  lemma {:induction false} HeaderExactly(read: Reader, b: seq<byte>, header: seq<byte>)
    requires Serves(read, b) && 64 <= |b| && At(b, 0x3C) + 144 <= |b|
    requires var nt := At(b, 0x3C); header == b[nt..nt + 144]
    ensures var nt := At(b, 0x3C);
      && (b[..2] == [77, 90] && header[..4] == [80, 69, 0, 0] && header[24..26] == [0x0b, 0x02] <==> IsPe(b, nt))
      && Word(header, 24 + 108) == At(b, nt + 132) && Word(header, 24 + 112) == At(b, nt + 136)
      && Word(header, 24 + 116) == At(b, nt + 140)
  {
    hide At, Word;
    var nt := At(b, 0x3C);
    WordAt(b, nt, nt + 144, 132);
    WordAt(b, nt, nt + 144, 136);
    WordAt(b, nt, nt + 144, 140);
    assert header[0] == b[nt] && header[1] == b[nt + 1] && header[2] == b[nt + 2] && header[3] == b[nt + 3];
    assert header[24] == b[nt + 24] && header[25] == b[nt + 25];
    assert header[..4] == [header[0], header[1], header[2], header[3]];
    assert header[24..26] == [header[24], header[25]];
    assert b[..2] == [b[0], b[1]];
  }

  lemma {:induction false} NoImage(read: Reader, b: seq<byte>)
    requires Serves(read, b) && forall nt: nat :: !IsPe(b, nt)
    ensures FindDirectory(read, |b|).Err?
  {
    hide At, Word, Serves, Covers, Get, IsPe;
    Covered(read, b);
    GetServed(read, b, 0, 64);
    if 64 <= |b| {
      WordAt(b, 0, 64, 0x3c);
      assert b[0..64][..2] == b[..2];
      var nt := At(b, 0x3C);
      GetServed(read, b, nt, 144);
      if nt + 144 <= |b| {
        HeaderExactly(read, b, b[nt..nt + 144]);
      }
    }
  }

  /** The table of a 64-bit image's directory. */
  lemma {:induction false} ImageDirectory(read: Reader, b: seq<byte>, nt: nat, d: Directory)
    requires Serves(read, b) && IsPe(b, nt)
    ensures ExportsNothing(b, nt) ==> FindDirectory(read, |b|) == Ok(None)
    ensures !ExportsNothing(b, nt) ==> FindDirectory(read, |b|) != Ok(None)
    ensures !ExportsNothing(b, nt) ==>
      (FindDirectory(read, |b|) == Ok(Some(d)) <==> IsDirectory(b, nt, At(b, nt + 136), d))
  {
    hide At, Word, Serves, Covers, Get;
    Covered(read, b);
    GetServed(read, b, 0, 64);
    WordAt(b, 0, 64, 0x3c);
    assert b[0..64][..2] == b[..2];
    GetServed(read, b, nt, 144);
    HeaderExactly(read, b, b[nt..nt + 144]);
    if !ExportsNothing(b, nt) {
      var dir := At(b, nt + 136);
      GetServed(read, b, dir, 40);
      if dir + 40 <= |b| {
        WordAt(b, dir, dir + 40, 24);
        WordAt(b, dir, dir + 40, 32);
        GetServed(read, b, At(b, dir + 32), At(b, dir + 24) * 4);
      }
    }
  }

  /** Where the directory is, exactly. */
  lemma {:induction false} DirectoryExactly(read: Reader, b: seq<byte>, d: Directory)
    requires Serves(read, b)
    ensures FindDirectory(read, |b|) == Ok(Some(d)) <==> exists nt: nat, dir: nat :: IsDirectory(b, nt, dir, d)
    ensures FindDirectory(read, |b|) == Ok(None) <==> exists nt: nat :: IsPe(b, nt) && ExportsNothing(b, nt)
  {
    hide At, Serves, Covers, FindDirectory, ExportsNothing;
    Covered(read, b);
    if nt: nat :| IsPe(b, nt) {
      ImageDirectory(read, b, nt, d);
      if FindDirectory(read, |b|) == Ok(Some(d)) {
        assert IsDirectory(b, nt, At(b, nt + 136), d);
      }
    } else {
      NoImage(read, b);
    }
  }

  // ----- names and functions

  /** At `p` stands a text that ends with a zero byte, at most 511 bytes before it. */
  predicate IsText(b: seq<byte>, p: nat, text: seq<byte>) {
    && |text| < 512 && p + |text| < |b| && b[p..p + |text|] == text && 0 !in text && b[p + |text|] == 0
  }

  /** Name `i` of the directory at `dir`. */
  predicate IsName(b: seq<byte>, dir: nat, i: nat, name: seq<byte>) {
    && dir + 40 <= |b| && At(b, dir + 32) + 4 * i + 4 <= |b|
    && IsText(b, At(b, At(b, dir + 32) + 4 * i), name)
  }

  /** Name `i` stands for the address `rva`: its ordinal picks an entry of the function table, which is no forwarder and
      leaves room for a status block. */
  predicate IsFunction(b: seq<byte>, nt: nat, dir: nat, i: nat, rva: nat) {
    && nt + 144 <= |b| && dir + 40 <= |b| && At(b, dir + 36) + 2 * i + 2 <= |b|
    && var ordinal := ShortAt(b, At(b, dir + 36) + 2 * i);
       && ordinal < At(b, dir + 20) && At(b, dir + 28) + 4 * ordinal + 4 <= |b|
       && rva == At(b, At(b, dir + 28) + 4 * ordinal)
       && rva != 0 && !(dir <= rva < dir + At(b, nt + 140)) && rva + 24 <= |b|
  }

  lemma {:induction false} TextFrom(read: Reader, b: seq<byte>, p: nat, done: seq<byte>, text: seq<byte>)
    requires Serves(read, b) && |done| <= 512 && p + |done| <= |b| && b[p..p + |done|] == done && 0 !in done
    ensures ReadName(read, |b|, p, done) == Ok(text) <==> IsText(b, p, text) && done <= text
    decreases 512 - |done|
  {
    hide Serves;
    var at := p + |done|;
    GetServed(read, b, at, 1);
    if |done| < 512 && at < |b| {
      assert b[at..at + 1] == [b[at]];
      if b[at] == 0 {
        if IsText(b, p, text) && done <= text {
          ShortestText(b, p, done, text);
        }
      } else {
        assert b[p..at + 1] == done + [b[at]];
        TextFrom(read, b, p, done + [b[at]], text);
        if IsText(b, p, text) && done <= text {
          LongerText(b, p, done, text);
        }
      }
    }
  }

  lemma {:induction false} TextByte(b: seq<byte>, p: nat, text: seq<byte>, k: nat)
    requires IsText(b, p, text) && k < |text|
    ensures b[p + k] == text[k] != 0
  {
    assert b[p..p + |text|][k] == text[k] && text[k] in text;
  }

  /** No text of an image runs over a zero byte. */
  lemma {:induction false} ShortestText(b: seq<byte>, p: nat, done: seq<byte>, text: seq<byte>)
    requires IsText(b, p, text) && done <= text && b[p + |done|] == 0
    ensures text == done
  {
    if |done| < |text| {
      TextByte(b, p, text, |done|);
    }
  }

  lemma {:induction false} LongerText(b: seq<byte>, p: nat, done: seq<byte>, text: seq<byte>)
    requires IsText(b, p, text) && done <= text && b[p + |done|] != 0
    ensures done + [b[p + |done|]] <= text
  {
    assert |done| < |text|;
    TextByte(b, p, text, |done|);
  }

  lemma {:induction false} NameExactly(read: Reader, b: seq<byte>, nt: nat, dir: nat, d: Directory, i: nat,
                                       name: seq<byte>)
    requires Serves(read, b) && IsDirectory(b, nt, dir, d)
    ensures Valid(d) && Count(d) == At(b, dir + 24)
    ensures i < Count(d) ==> (NameAt(read, |b|, d, i) == Ok(name) <==> IsName(b, dir, i, name))
  {
    hide At, Word, Serves, IsText, ReadName;
    WordAt(b, dir, dir + 40, 24);
    if i < Count(d) {
      var names := At(b, dir + 32);
      WordAt(b, names, names + 4 * At(b, dir + 24), i * 4);
      var p := At(b, names + 4 * i);
      if p <= |b| {
        assert b[p..p + 0] == [];
        TextFrom(read, b, p, [], name);
      } else {
        NoTextBehind(read, b, p, name);
      }
    }
  }

  lemma {:induction false} NoTextBehind(read: Reader, b: seq<byte>, p: nat, text: seq<byte>)
    requires Serves(read, b) && p > |b|
    ensures ReadName(read, |b|, p, []).Err? && !IsText(b, p, text)
  {
    GetServed(read, b, p, 1);
  }

  lemma {:induction false} FunctionExactly(read: Reader, b: seq<byte>, nt: nat, dir: nat, d: Directory, i: nat,
                                           rva: nat)
    requires Serves(read, b) && IsDirectory(b, nt, dir, d) && Valid(d)
    ensures FunctionAt(read, |b|, d, i) == Ok(rva) <==> IsFunction(b, nt, dir, i, rva)
  {
    hide At, Word, Serves, ShortAt, Word16, Get;
    WordAt(b, dir, dir + 40, 20);
    WordAt(b, dir, dir + 40, 28);
    WordAt(b, dir, dir + 40, 36);
    var p := At(b, dir + 36) + 2 * i;
    GetServed(read, b, p, 2);
    if p + 2 <= |b| {
      ShortIs(b, p);
      var q := At(b, dir + 28) + 4 * ShortAt(b, p);
      GetServed(read, b, q, 4);
      if q + 4 <= |b| {
        WordAt(b, q, q + 4, 0);
        GetServed(read, b, At(b, q), 24);
      }
    }
  }

  lemma {:induction false} ShortIs(b: seq<byte>, p: nat)
    requires p + 2 <= |b|
    ensures Word16(b[p..p + 2]) == ShortAt(b, p)
  {
  }

  // ----- the order of names

  /** `a` comes before `b`: at the first byte where they differ `a`'s is less, or `a` ends there. */
  predicate ComesBefore(a: seq<byte>, b: seq<byte>) {
    exists k :: 0 <= k <= |a| && DiffersAt(a, b, k)
  }

  predicate DiffersAt(a: seq<byte>, b: seq<byte>, k: nat)
    requires k <= |a|
  {
    k < |b| && a[..k] == b[..k] && (k == |a| || a[k] < b[k])
  }

  lemma {:induction false} CompareExactly(a: seq<byte>, b: seq<byte>)
    ensures Compare(a, b) == Less <==> ComesBefore(a, b)
    decreases |a|
  {
    if a != [] && b != [] && a[0] == b[0] {
      CompareExactly(a[1..], b[1..]);
      BeforeCons(a, b);
    } else if Compare(a, b) == Less {
      assert DiffersAt(a, b, 0);
    } else {
      forall k: nat | k <= |a|
        ensures !DiffersAt(a, b, k)
      {
        if k > 0 && k < |b| {
          assert a[..k][0] == a[0] && b[..k][0] == b[0];
        }
      }
    }
  }

  lemma {:induction false} BeforeCons(a: seq<byte>, b: seq<byte>)
    requires a != [] && b != [] && a[0] == b[0]
    ensures ComesBefore(a, b) <==> ComesBefore(a[1..], b[1..])
  {
    var c, d := a[1..], b[1..];
    assert a == [a[0]] + c && b == [b[0]] + d;
    if k :| 0 <= k <= |a| && DiffersAt(a, b, k) {
      assert k > 0 && a[..k][1..] == c[..k - 1] && b[..k][1..] == d[..k - 1];
      assert DiffersAt(c, d, k - 1);
    }
    if k :| 0 <= k <= |c| && DiffersAt(c, d, k) {
      assert a[..k + 1] == [a[0]] + c[..k] && b[..k + 1] == [b[0]] + d[..k];
      assert DiffersAt(a, b, k + 1);
    }
  }

  // ----- the lookup

  ghost predicate HasName(b: seq<byte>, dir: nat, i: nat) {
    exists name :: IsName(b, dir, i, name)
  }

  /** The names can all be read, and none comes before an earlier one. */
  ghost predicate InOrder(b: seq<byte>, dir: nat)
    requires dir + 40 <= |b|
  {
    && (forall i: nat :: i < At(b, dir + 24) ==> HasName(b, dir, i))
    && (forall i: nat, j: nat, s, t :: i < j < At(b, dir + 24) && IsName(b, dir, i, s) && IsName(b, dir, j, t)
          ==> !ComesBefore(t, s))
  }

  ghost predicate IsAmong(b: seq<byte>, dir: nat, name: seq<byte>)
    requires dir + 40 <= |b|
  {
    exists i: nat :: i < At(b, dir + 24) && IsName(b, dir, i, name)
  }

  /** The image exports `name` at `rva`. */
  ghost predicate ExportsAt(b: seq<byte>, nt: nat, dir: nat, name: seq<byte>, rva: nat)
    requires dir + 40 <= |b|
  {
    exists i: nat :: i < At(b, dir + 24) && IsName(b, dir, i, name) && IsFunction(b, nt, dir, i, rva)
  }

  /** Any answered address is one the image exports the name at. */
  lemma {:induction false} AnswerIsExport(read: Reader, b: seq<byte>, name: seq<byte>, rva: nat)
    requires Serves(read, b) && ExportRva(read, |b|, name) == Ok(Some(rva))
    ensures exists nt: nat, dir: nat :: HasDirectory(b, nt, dir) && ExportsAt(b, nt, dir, name, rva)
  {
    hide Serves, Covers, FindDirectory, Search, FunctionAt, IsFunction, IsName, NameAt, At, Entry;
    Covered(read, b);
    LookUpIsSound(read, |b|, name);
    var d := FindDirectory(read, |b|).value.value;
    DirectoryExactly(read, b, d);
    var nt: nat, dir: nat :| IsDirectory(b, nt, dir, d);
    var i := FoundAt(read, |b|, d, name, 0, Count(d), rva);
    NameExactly(read, b, nt, dir, d, i, name);
    FunctionExactly(read, b, nt, dir, d, i, rva);
    assert ExportsAt(b, nt, dir, name, rva);
  }

  lemma {:induction false} FoundAt(read: Reader, size: nat, d: Directory, name: seq<byte>, low: nat, high: nat,
                                   rva: nat)
    returns (i: nat)
    requires Covers(read, size) && Valid(d) && low <= high <= Count(d)
    requires Search(read, size, d, name, low, high) == Ok(Some(rva))
    ensures i < Count(d) && NameAt(read, size, d, i) == Ok(name) && FunctionAt(read, size, d, i) == Ok(rva)
    decreases high - low
  {
    hide NameAt, FunctionAt, Compare, Covers;
    i := low + (high - low) / 2;
    var text := NameAt(read, size, d, i).value;
    match Compare(text, name) {
      case Less => i := FoundAt(read, size, d, name, i + 1, high, rva);
      case Greater => i := FoundAt(read, size, d, name, low, i, rva);
      case Equal => EqualMeansSame(text, name);
    }
  }

  lemma {:induction false} OrderIsSorted(read: Reader, b: seq<byte>, nt: nat, dir: nat, d: Directory)
    requires Serves(read, b) && IsDirectory(b, nt, dir, d) && InOrder(b, dir)
    ensures Valid(d) && SortedNames(read, |b|, d)
  {
    hide Serves, Covers, NameAt, IsName, At, IsDirectory, Compare, ComesBefore;
    Covered(read, b);
    NameExactly(read, b, nt, dir, d, 0, []);
    forall i: nat | i < Count(d)
      ensures NameAt(read, |b|, d, i).Ok? && IsName(b, dir, i, NameAt(read, |b|, d, i).value)
    {
      assert HasName(b, dir, i);
      var name :| IsName(b, dir, i, name);
      NameExactly(read, b, nt, dir, d, i, name);
    }
    forall i: nat, j: nat | i < j < Count(d)
      ensures Compare(NameAt(read, |b|, d, i).value, NameAt(read, |b|, d, j).value) != Greater
    {
      var s, t := NameAt(read, |b|, d, i).value, NameAt(read, |b|, d, j).value;
      EqualMeansSame(t, s);
      CompareExactly(t, s);
    }
  }

  /** On an image whose names are in order, as the PE format has them: none is answered exactly when the name is not
      among
      them, and an error only when the name is there with no usable function. */
  lemma {:induction false} LookUpFindsExport(read: Reader, b: seq<byte>, nt: nat, dir: nat, name: seq<byte>)
    requires Serves(read, b) && HasDirectory(b, nt, dir) && InOrder(b, dir)
    ensures ExportRva(read, |b|, name) == Ok(None) <==> !IsAmong(b, dir, name)
    ensures ExportRva(read, |b|, name).Err? ==>
      exists i: nat :: i < At(b, dir + 24) && IsName(b, dir, i, name) && forall rva :: !IsFunction(b, nt, dir, i, rva)
  {
    hide Serves, Covers, FindDirectory, Search, FunctionAt, IsFunction, IsName, NameAt, At, ExportRva, SortedNames,
         InOrder;
    var names := At(b, dir + 32);
    var d := Directory(dir, At(b, nt + 140), b[dir..dir + 40], b[names..names + 4 * At(b, dir + 24)]);
    assert IsDirectory(b, nt, dir, d);
    Covered(read, b);
    DirectoryExactly(read, b, d);
    OrderIsSorted(read, b, nt, dir, d);
    LookUpIsExact(read, |b|, name);
    NameExactly(read, b, nt, dir, d, 0, []);
    forall i: nat
      ensures Named(read, |b|, d, name, i) <==> i < At(b, dir + 24) && IsName(b, dir, i, name)
    {
      NameExactly(read, b, nt, dir, d, i, name);
    }
    if ExportRva(read, |b|, name).Err? {
      var i: nat :| Answers(read, |b|, d, name, i, ExportRva(read, |b|, name));
      forall rva: nat
        ensures !IsFunction(b, nt, dir, i, rva)
      {
        FunctionExactly(read, b, nt, dir, d, i, rva);
      }
    }
  }

  // ----- the status block

  /** The status block: its eight letters, the version 1, the state, the owner and a zero. */
  lemma {:induction false} BlockAt(state: nat, owner: nat)
    requires state < WORD32 && owner < WORD32
    ensures var b := Block(state, owner);
      && |b| == 24 && (forall k :: 0 <= k < 8 ==> b[k] == "DFLBOOT1"[k] as int)
      && At(b, 8) == 1 && At(b, 12) == state && At(b, 16) == owner && At(b, 20) == 0
  {
    hide Le32, At;
    var b := Block(state, owner);
    assert b[8..12] == Le32(1) && b[12..16] == Le32(state) && b[16..20] == Le32(owner) && b[20..24] == Le32(0);
    NumberAt(b, 8, 1);
    NumberAt(b, 12, state);
    NumberAt(b, 16, owner);
    NumberAt(b, 20, 0);
  }

  lemma {:induction false} NumberAt(b: seq<byte>, p: nat, v: nat)
    requires p + 4 <= |b| && v < WORD32 && b[p..p + 4] == Le32(v)
    ensures At(b, p) == v
  {
    hide Le32;
    U32OfLe32(v);
  }
}
