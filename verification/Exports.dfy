/** The PE export lookup and the startup status block (injector/src/host_mode.rs:172-277). */
module Exports {
  import opened Outcome
  import opened Bytes

  /** Reads `length` bytes at an offset of an image; defined inside the image only. */
  type Reader = (nat, nat) --> Result<seq<byte>>

  /** The reader may be asked for every span inside an image of that size. */
  ghost predicate Covers(read: Reader, size: nat) {
    forall offset: nat, length: nat :: offset + length <= size ==> read.requires(offset, length)
  }

  const STATUS_BYTES := 24
  const NAME_LIMIT := 512

  /** A checked read: nothing outside the image is ever asked for. */
  function Get(read: Reader, size: nat, offset: nat, length: nat): (r: Result<seq<byte>>)
    requires Covers(read, size)
    ensures r.Ok? ==> offset + length <= size && |r.value| == length && read(offset, length) == r
  {
    if offset + length > size then Err(SpanOutsideImage)
    else
      var bytes :- read(offset, length);
      if |bytes| != length then Err(TruncatedRead) else Ok(bytes)
  }

  function Word(bytes: seq<byte>, offset: nat): nat
    requires offset + 4 <= |bytes|
  {
    U32(bytes[offset..offset + 4])
  }

  function Word16(bytes: seq<byte>): nat
    requires |bytes| == 2
  {
    var low: int, high: int := bytes[0], bytes[1];
    low + 0x100 * high
  }

  /** The export directory: its span, its table and its name pointers. */
  datatype Directory = Directory(at: nat, length: nat, table: seq<byte>, names: seq<byte>)

  predicate Valid(d: Directory) {
    |d.table| == 40 && |d.names| == 4 * Count(d)
  }

  /** The number of names. */
  function Count(d: Directory): nat
    requires |d.table| == 40
  {
    Word(d.table, 24)
  }

  /** The directory of a 64-bit image, or none where it exports nothing. */
  function FindDirectory(read: Reader, size: nat): (r: Result<Option<Directory>>)
    requires Covers(read, size)
    ensures r.Ok? && r.value.Some? ==> Valid(r.value.value)
  {
    var dos :- Get(read, size, 0, 64);
    if dos[..2] != [77, 90] then Err(NotAnImage)
    else
      var header :- Get(read, size, Word(dos, 0x3c), 24 + 120);
      if header[..4] != [80, 69, 0, 0] || header[24..26] != [0x0b, 0x02] then Err(NotAnImage)
      else if Word(header, 24 + 108) == 0 then Ok(None)
      else
        var at, length := Word(header, 24 + 112), Word(header, 24 + 116);
        if at == 0 || length == 0 then Ok(None)
        else
          var table :- Get(read, size, at, 40);
          var count := Word(table, 24);
          if count > size / 4 then Err(BadExportCount)
          else
            var names :- Get(read, size, Word(table, 32), count * 4);
            Ok(Some(Directory(at, length, table, names)))
  }

  /** The bytes of a name up to its NUL; `text` is what has been read. */
  function ReadName(read: Reader, size: nat, offset: nat, text: seq<byte>): Result<seq<byte>>
    requires Covers(read, size) && |text| <= NAME_LIMIT
    decreases NAME_LIMIT - |text|
  {
    if |text| == NAME_LIMIT then Err(UnterminatedName)
    else
      var b :- Get(read, size, offset + |text|, 1);
      if b[0] == 0 then Ok(text) else ReadName(read, size, offset, text + [b[0]])
  }

  function NameAt(read: Reader, size: nat, d: Directory, index: nat): Result<seq<byte>>
    requires Covers(read, size) && Valid(d) && index < Count(d)
  {
    ReadName(read, size, Word(d.names, index * 4), [])
  }

  datatype Ordering = Less | Equal | Greater

  /** The order of byte strings. */
  function Compare(a: seq<byte>, b: seq<byte>): Ordering {
    if a == [] then if b == [] then Equal else Less
    else if b == [] then Greater
    else if a[0] < b[0] then Less
    else if a[0] > b[0] then Greater
    else Compare(a[1..], b[1..])
  }

  /** The function a name stands for: through the ordinal table into the function table. */
  function FunctionAt(read: Reader, size: nat, d: Directory, index: nat): Result<nat>
    requires Covers(read, size) && Valid(d)
  {
    var ordinal :- Get(read, size, Word(d.table, 36) + index * 2, 2);
    if Word16(ordinal) >= Word(d.table, 20) then Err(BadOrdinal)
    else
      var entry :- Get(read, size, Word(d.table, 28) + Word16(ordinal) * 4, 4);
      var rva := Word(entry, 0);
      if rva == 0 || (rva >= d.at && rva - d.at < d.length) then Err(ForwardedExport)
      else
        var _ :- Get(read, size, rva, STATUS_BYTES);
        Ok(rva)
  }

  /** The binary search over the names in `low..high`. */
  function Search(read: Reader, size: nat, d: Directory, name: seq<byte>, low: nat, high: nat): Result<Option<nat>>
    requires Covers(read, size) && Valid(d) && low <= high <= Count(d)
    decreases high - low
  {
    if low == high then Ok(None)
    else
      var index := low + (high - low) / 2;
      var text :- NameAt(read, size, d, index);
      match Compare(text, name)
      case Less => Search(read, size, d, name, index + 1, high)
      case Greater => Search(read, size, d, name, low, index)
      case Equal =>
        var rva :- FunctionAt(read, size, d, index);
        Ok(Some(rva))
  }

  function ExportRva(read: Reader, size: nat, name: seq<byte>): Result<Option<nat>>
    requires Covers(read, size)
  {
    var found :- FindDirectory(read, size);
    match found
    case None => Ok(None)
    case Some(d) => Search(read, size, d, name, 0, Count(d))
  }

  method NameText(read: Reader, size: nat, offset: nat) returns (r: Result<seq<byte>>)
    requires Covers(read, size)
    ensures r == ReadName(read, size, offset, [])
  {
    hide Get, Covers;
    var text: seq<byte> := [];
    for at := 0 to NAME_LIMIT
      invariant |text| == at
      invariant ReadName(read, size, offset, []) == ReadName(read, size, offset, text)
    {
      var b := Get(read, size, offset + at, 1);
      if b.Err? {
        return Err(b.error);
      }
      if b.value[0] == 0 {
        return Ok(text);
      }
      text := text + [b.value[0]];
    }
    return Err(UnterminatedName);
  }

  /** `export_rva`: ends on every image, and never reads outside it. */
  method LookUp(read: Reader, size: nat, name: seq<byte>) returns (r: Result<Option<nat>>)
    requires Covers(read, size)
    ensures r == ExportRva(read, size, name)
  {
    hide FindDirectory, ReadName, Compare, FunctionAt, Covers, Word;
    var found := FindDirectory(read, size);
    if found.Err? {
      return Err(found.error);
    }
    if found.value.None? {
      return Ok(None);
    }
    var d := found.value.value;
    var low, high := 0, Count(d);
    while low < high
      invariant 0 <= low <= high <= Count(d)
      invariant Search(read, size, d, name, 0, Count(d)) == Search(read, size, d, name, low, high)
      decreases high - low
    {
      var index := low + (high - low) / 2;
      var text := NameText(read, size, Word(d.names, index * 4));
      if text.Err? {
        return Err(text.error);
      }
      match Compare(text.value, name) {
        case Less => low := index + 1;
        case Greater => high := index;
        case Equal =>
          var rva := FunctionAt(read, size, d, index);
          if rva.Err? {
            return Err(rva.error);
          }
          return Ok(Some(rva.value));
      }
    }
    return Ok(None);
  }

  // ----- the order of names

  lemma {:induction false} EqualMeansSame(a: seq<byte>, b: seq<byte>)
    ensures Compare(a, b) == Equal <==> a == b
    ensures Compare(a, b) == Less <==> Compare(b, a) == Greater
    decreases |a|
  {
    if a != [] && b != [] {
      EqualMeansSame(a[1..], b[1..]);
      assert a == [a[0]] + a[1..] && b == [b[0]] + b[1..];
    }
  }

  lemma {:induction false} CompareChains(a: seq<byte>, b: seq<byte>, c: seq<byte>)
    requires Compare(a, b) != Greater && Compare(b, c) != Greater
    ensures Compare(a, c) != Greater
    ensures Compare(a, b) == Less || Compare(b, c) == Less ==> Compare(a, c) == Less
    decreases |a|
  {
    if a != [] && b != [] && c != [] && a[0] == b[0] == c[0] {
      CompareChains(a[1..], b[1..], c[1..]);
    }
  }

  // ----- what the lookup finds

  /** Every name can be read, and they stand in byte order, as the PE format's Export Name Pointer Table requires. */
  ghost predicate SortedNames(read: Reader, size: nat, d: Directory)
    requires Covers(read, size) && Valid(d)
  {
    && (forall i: nat :: i < Count(d) ==> NameAt(read, size, d, i).Ok?)
    && (forall i: nat, j: nat :: i < j < Count(d) ==>
          Compare(NameAt(read, size, d, i).value, NameAt(read, size, d, j).value) != Greater)
  }

  /** The name at that index is the one looked for. */
  predicate Named(read: Reader, size: nat, d: Directory, name: seq<byte>, index: nat)
    requires Covers(read, size) && Valid(d)
  {
    index < Count(d) && NameAt(read, size, d, index) == Ok(name)
  }

  /** The search answers with the function of a name that is there. */
  predicate Answers(read: Reader, size: nat, d: Directory, name: seq<byte>, index: nat, answer: Result<Option<nat>>)
    requires Covers(read, size) && Valid(d)
  {
    && Named(read, size, d, name, index)
    && match FunctionAt(read, size, d, index)
       case Ok(rva) => answer == Ok(Some(rva))
       case Err(e) => answer == Err(e)
  }

  lemma {:induction false} NotHere(read: Reader, size: nat, d: Directory, name: seq<byte>, middle: nat, i: nat)
    requires Covers(read, size) && Valid(d) && SortedNames(read, size, d) && middle < Count(d) && i < Count(d)
    requires var order := Compare(NameAt(read, size, d, middle).value, name);
             (order == Less && i <= middle) || (order == Greater && middle <= i)
    ensures !Named(read, size, d, name, i)
  {
    hide NameAt, Compare, Covers;
    var text, there := NameAt(read, size, d, middle).value, NameAt(read, size, d, i).value;
    EqualMeansSame(there, name);
    EqualMeansSame(text, name);
    if i < middle {
      CompareChains(there, text, name);
    } else if middle < i {
      EqualMeansSame(name, text);
      EqualMeansSame(text, there);
      EqualMeansSame(there, name);
      EqualMeansSame(name, there);
    }
  }

  lemma {:induction false} SearchFinds(read: Reader, size: nat, d: Directory, name: seq<byte>, low: nat, high: nat)
    requires Covers(read, size) && Valid(d) && SortedNames(read, size, d) && low <= high <= Count(d)
    requires forall i: nat :: i < low || high <= i ==> !Named(read, size, d, name, i)
    ensures var answer := Search(read, size, d, name, low, high);
            if exists i: nat :: Named(read, size, d, name, i)
            then exists i: nat :: Answers(read, size, d, name, i, answer)
            else answer == Ok(None)
    decreases high - low
  {
    hide NameAt, Compare, Covers, FunctionAt, SortedNames;
    if low < high {
      var index := low + (high - low) / 2;
      assert NameAt(read, size, d, index).Ok? by {
        Readable(read, size, d, index);
      }
      var text := NameAt(read, size, d, index).value;
      match Compare(text, name) {
        case Less =>
          forall i: nat | i < index + 1 ensures !Named(read, size, d, name, i) {
            NotHere(read, size, d, name, index, i);
          }
          SearchFinds(read, size, d, name, index + 1, high);
          assert Search(read, size, d, name, low, high) == Search(read, size, d, name, index + 1, high);
        case Greater =>
          forall i: nat | index <= i ensures !Named(read, size, d, name, i) {
            if i < Count(d) {
              NotHere(read, size, d, name, index, i);
            }
          }
          SearchFinds(read, size, d, name, low, index);
          assert Search(read, size, d, name, low, high) == Search(read, size, d, name, low, index);
        case Equal =>
          EqualMeansSame(text, name);
          FoundHere(read, size, d, name, low, high);
      }
    }
  }

  lemma {:induction false} FoundHere(read: Reader, size: nat, d: Directory, name: seq<byte>, low: nat, high: nat)
    requires Covers(read, size) && Valid(d) && low < high <= Count(d)
    requires Named(read, size, d, name, low + (high - low) / 2)
    ensures Answers(read, size, d, name, low + (high - low) / 2, Search(read, size, d, name, low, high))
  {
    hide NameAt, Covers, FunctionAt, Compare;
    EqualMeansSame(name, name);
  }

  lemma {:induction false} Readable(read: Reader, size: nat, d: Directory, index: nat)
    requires Covers(read, size) && Valid(d) && SortedNames(read, size, d) && index < Count(d)
    ensures NameAt(read, size, d, index).Ok?
  {
  }

  /** On sorted names the lookup answers none exactly when the name is absent, and else the function of that name. */
  lemma {:induction false} LookUpIsExact(read: Reader, size: nat, name: seq<byte>)
    requires Covers(read, size)
    requires FindDirectory(read, size).Ok? && FindDirectory(read, size).value.Some?
    requires SortedNames(read, size, FindDirectory(read, size).value.value)
    ensures var d := FindDirectory(read, size).value.value;
            var answer := ExportRva(read, size, name);
            && (answer == Ok(None) <==> !exists i: nat :: Named(read, size, d, name, i))
            && (answer != Ok(None) ==> exists i: nat :: Answers(read, size, d, name, i, answer))
  {
    hide NameAt, Compare, Covers, FunctionAt, SortedNames, Search, FindDirectory;
    var d := FindDirectory(read, size).value.value;
    SearchFinds(read, size, d, name, 0, Count(d));
  }

  /** Whatever the image: a found address is the function-table entry at the ordinal of an entry of that name. */
  ghost predicate Entry(read: Reader, size: nat, d: Directory, name: seq<byte>, index: nat, rva: nat)
    requires Covers(read, size) && Valid(d)
  {
    var ordinalAt := Word(d.table, 36) + index * 2;
    && Named(read, size, d, name, index)
    && ordinalAt + 2 <= size && read(ordinalAt, 2).Ok? && |read(ordinalAt, 2).value| == 2
    && var ordinal := Word16(read(ordinalAt, 2).value);
       var entryAt := Word(d.table, 28) + ordinal * 4;
       && ordinal < Word(d.table, 20)
       && entryAt + 4 <= size && read(entryAt, 4).Ok? && |read(entryAt, 4).value| == 4
       && rva == U32(read(entryAt, 4).value)
       && rva != 0 && !(d.at <= rva < d.at + d.length)
       && rva + STATUS_BYTES <= size
  }

  lemma {:induction false} SearchIsSound(read: Reader, size: nat, d: Directory, name: seq<byte>, low: nat, high: nat)
    requires Covers(read, size) && Valid(d) && low <= high <= Count(d)
    requires Search(read, size, d, name, low, high).Ok? && Search(read, size, d, name, low, high).value.Some?
    ensures exists index: nat :: Entry(read, size, d, name, index, Search(read, size, d, name, low, high).value.value)
    decreases high - low
  {
    hide NameAt, Compare, Covers, FunctionAt, Entry;
    var index := low + (high - low) / 2;
    var text := NameAt(read, size, d, index).value;
    match Compare(text, name) {
      case Less => SearchIsSound(read, size, d, name, index + 1, high);
      case Greater => SearchIsSound(read, size, d, name, low, index);
      case Equal =>
        EqualMeansSame(text, name);
        FunctionIsEntry(read, size, d, name, index);
    }
  }

  lemma {:induction false} FunctionIsEntry(read: Reader, size: nat, d: Directory, name: seq<byte>, index: nat)
    requires Covers(read, size) && Valid(d) && Named(read, size, d, name, index)
    requires FunctionAt(read, size, d, index).Ok?
    ensures Entry(read, size, d, name, index, FunctionAt(read, size, d, index).value)
  {
    hide NameAt;
    var ordinal := Get(read, size, Word(d.table, 36) + index * 2, 2).value;
    var entry := Get(read, size, Word(d.table, 28) + Word16(ordinal) * 4, 4).value;
    assert entry[0..4] == entry;
  }

  /** Even on unsorted or malformed images an address is only answered for a name that is there. */
  lemma {:induction false} LookUpIsSound(read: Reader, size: nat, name: seq<byte>)
    requires Covers(read, size)
    requires ExportRva(read, size, name).Ok? && ExportRva(read, size, name).value.Some?
    ensures FindDirectory(read, size).Ok? && FindDirectory(read, size).value.Some?
    ensures exists index: nat ::
              Entry(read, size, FindDirectory(read, size).value.value, name, index,
                    ExportRva(read, size, name).value.value)
  {
    hide Covers, Search, FindDirectory, Entry;
    var d := FindDirectory(read, size).value.value;
    SearchIsSound(read, size, d, name, 0, Count(d));
  }

  // ----- the status block

  const MAGIC: seq<byte> := [68, 70, 76, 66, 79, 79, 84, 49]

  /** `status`. */
  function Status(bytes: seq<byte>, pid: nat): Result<nat> {
    if |bytes| != STATUS_BYTES || bytes[..8] != MAGIC then Err(BadStatus)
    else if Word(bytes, 8) != 1 then Err(BadStatusVersion)
    else
      var state, owner := Word(bytes, 12), Word(bytes, 16);
      if owner != pid && !(state == 0 && owner == 0) then Err(OtherProcess)
      else if state > 3 || Word(bytes, 20) != 0 then Err(BadState)
      else Ok(state)
  }

  /** The block as the host publishes it (crates/loader/src/startup.rs:12-31). */
  function Block(state: nat, owner: nat): seq<byte> {
    MAGIC + Le32(1) + Le32(state) + Le32(owner) + Le32(0)
  }

  /** The status of a published block is its state, for the process that owns it or while it is dormant and unowned. */
  lemma {:induction false} StatusOfBlock(state: nat, owner: nat, pid: nat)
    requires state < WORD32 && owner < WORD32
    ensures Status(Block(state, owner), pid) == Ok(state)
       <==> state <= 3 && (owner == pid || (state == 0 && owner == 0))
  {
    hide Le32, U32;
    var b := Block(state, owner);
    assert b[..8] == MAGIC;
    assert b[8..12] == Le32(1) && b[12..16] == Le32(state) && b[16..20] == Le32(owner) && b[20..24] == Le32(0);
    U32OfLe32(1);
    U32OfLe32(state);
    U32OfLe32(owner);
    U32OfLe32(0);
  }

  /** Nothing but a published block has a status. */
  lemma {:induction false} StatusNeedsBlock(bytes: seq<byte>, pid: nat)
    requires Status(bytes, pid).Ok?
    ensures exists owner: nat :: owner < WORD32 && bytes == Block(Status(bytes, pid).value, owner)
  {
    hide Le32, U32;
    var owner := Word(bytes, 16);
    Le32OfU32(bytes[8..12]);
    Le32OfU32(bytes[12..16]);
    Le32OfU32(bytes[16..20]);
    Le32OfU32(bytes[20..24]);
    assert bytes == bytes[..8] + bytes[8..12] + bytes[12..16] + bytes[16..20] + bytes[20..24];
    assert bytes == Block(Status(bytes, pid).value, owner);
  }
}
