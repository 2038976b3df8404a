/** Reading what was printed gives the value back (crates/core/src/json.rs). */
module RoundTrip {
  import opened Outcome
  import opened Bytes
  import opened Utf8
  import opened Json

  /** The text `r` stands in `b` at `at`. */
  predicate Has(b: seq<byte>, at: nat, r: seq<byte>) {
    at + |r| <= |b| && b[at..at + |r|] == r
  }

  lemma {:induction false} HasBoth(b: seq<byte>, at: nat, r: seq<byte>, s: seq<byte>)
    requires Has(b, at, r + s)
    ensures Has(b, at, r) && Has(b, at + |r|, s)
  {
    assert b[at..at + |r|] == (r + s)[..|r|] == r;
    assert b[at + |r|..at + |r| + |s|] == (r + s)[|r|..] == s;
  }

  lemma {:induction false} HasAt(b: seq<byte>, at: nat, r: seq<byte>, i: nat)
    requires Has(b, at, r) && i < |r|
    ensures at + i < |b| && b[at + i] == r[i]
  {
    assert b[at..at + |r|][i] == r[i];
  }

  // ----- spaces

  lemma {:induction false} SkipsSpaces(b: seq<byte>, at: nat, n: nat)
    requires Has(b, at, Spaces(n))
    ensures SkipSpace(b, at) == SkipSpace(b, at + n)
    decreases n
  {
    if n > 0 {
      HasAt(b, at, Spaces(n), 0);
      assert Spaces(n) == [32] + Spaces(n - 1);
      HasBoth(b, at, [32], Spaces(n - 1));
      SkipsSpaces(b, at + 1, n - 1);
    }
  }

  lemma {:induction false} SkipsPad(b: seq<byte>, at: nat, depth: nat)
    requires Has(b, at, Pad(depth))
    ensures SkipSpace(b, at) == SkipSpace(b, at + |Pad(depth)|)
  {
    SkipsSpaces(b, at, 2 * depth);
  }

  // ----- numbers

  lemma {:induction false} DigitsRead(n: nat)
    ensures DigitsValue(Decimal(n)) == Some(n)
    decreases n
  {
    var low: byte := 48 + n % 10;
    if n >= 10 {
      var r := Decimal(n);
      DigitsRead(n / 10);
      assert r[..|r| - 1] == Decimal(n / 10);
      assert r[|r| - 1] == low;
    } else {
      assert [low][..0] == [];
    }
  }

  lemma {:induction false} NumberEnds(b: seq<byte>, at: nat, end: nat)
    requires at <= end <= |b|
    requires forall i :: at <= i < end ==> IsDigit(b[i])
    requires end == |b| || !NumberByte(b[end])
    ensures NumberEnd(b, at) == end
    decreases end - at
  {
    if at < end {
      NumberEnds(b, at + 1, end);
    }
  }

  lemma {:induction false} DigitsEnd(b: seq<byte>, at: nat, n: nat)
    requires Has(b, at, Decimal(n))
    requires at + |Decimal(n)| == |b| || !NumberByte(b[at + |Decimal(n)|])
    ensures NumberEnd(b, at) == at + |Decimal(n)|
  {
    var r := Decimal(n);
    forall i | at <= i < at + |r| ensures IsDigit(b[i]) {
      HasAt(b, at, r, i - at);
    }
    NumberEnds(b, at, at + |r|);
  }

  lemma {:induction false} NumberReads(b: seq<byte>, at: nat, n: number)
    requires Has(b, at, NumberText(n))
    requires at + |NumberText(n)| == |b| || !NumberByte(b[at + |NumberText(n)|])
    ensures at < |b| && (b[at] == 45 || IsDigit(b[at]))
    ensures ParseNumber(b, at) == Ok((Number(n), at + |NumberText(n)|))
  {
    hide DigitsValue, Decimal, NumberEnd;
    HasAt(b, at, NumberText(n), 0);
    if n < 0 {
      HasBoth(b, at, [45], Decimal(-n));
      DigitsEnd(b, at + 1, -n);
      DigitsRead(-n);
      assert NumberText(n)[1..] == Decimal(-n);
    } else {
      DigitsEnd(b, at, n);
      DigitsRead(n);
    }
  }

  // ----- strings

  lemma {:induction false} ControlReads(b: seq<byte>, at: nat, c: nat)
    requires c < 0x20
    requires Has(b, at, [48, 48, HexDigit(c / 16), HexDigit(c % 16)])
    ensures ParseHex4(b, at) == Ok((c, at + 4))
  {
    var text := [48, 48, HexDigit(c / 16), HexDigit(c % 16)];
    assert text[..3] == [48, 48, HexDigit(c / 16)];
    assert text[..3][..2] == [48, 48];
    assert text[..3][..2][..1] == [48];
    assert text[..3][..2][..1][..0] == [];
    assert HexNumber(text[..3][..2]) == Some(0) by {
      assert HexNumber([48]) == Some(0) by {
        assert [48][..0] == [];
      }
      assert [48, 48][..1] == [48];
    }
    assert HexNumber(text[..3]) == Some(c / 16);
    assert HexNumber(text) == Some(c);
  }

  lemma {:induction false} EscapeReads(b: seq<byte>, at: nat, c: scalar)
    requires c == 34 || c == 92 || c < 0x20
    requires Has(b, at, Escaped(c))
    ensures at < |b| && b[at] == 92
    ensures ParseEscape(b, at + 1) == Ok((c, at + |Escaped(c)|))
  {
    hide HexNumber, HexDigit, ParseHex4;
    var r := Escaped(c);
    HasAt(b, at, r, 0);
    HasAt(b, at, r, 1);
    if |r| == 6 {
      var digits := [48, 48, HexDigit(c / 16), HexDigit(c % 16)];
      assert r == [92, 117] + digits;
      HasBoth(b, at, [92, 117], digits);
      ControlReads(b, at + 2, c);
    }
  }

  lemma {:induction false} RawReads(b: seq<byte>, at: nat, c: scalar)
    requires c != 34 && c != 92 && c >= 0x20
    requires Has(b, at, Encode(c))
    ensures at < |b| && b[at] != 34 && b[at] != 92 && b[at] >= 0x20
    ensures ParseRaw(b, at) == Ok((c, at + |Encode(c)|))
  {
    hide Utf8.Decode, Extra;
    HasAt(b, at, Encode(c), 0);
    DecodeEncode(c);
  }

  lemma {:induction false} CharReads(b: seq<byte>, at: nat, c: scalar, done: seq<scalar>)
    requires Has(b, at, Escaped(c))
    ensures ParseChars(b, at, done) == ParseChars(b, at + |Escaped(c)|, done + [c])
  {
    hide ParseEscape, ParseRaw, Encode, HexDigit;
    if c == 34 || c == 92 || c < 0x20 {
      EscapeReads(b, at, c);
    } else {
      RawReads(b, at, c);
    }
  }

  lemma {:induction false} CharsRead(b: seq<byte>, at: nat, s: seq<scalar>, done: seq<scalar>)
    requires Has(b, at, EscapedText(s) + [34])
    ensures ParseChars(b, at, done) == Ok((done + s, at + |EscapedText(s)| + 1))
    decreases |s|
  {
    hide ParseEscape, ParseRaw, Escaped, SkipSpace, Has;
    if s == [] {
      HasAt(b, at, EscapedText(s) + [34], 0);
      assert done + s == done;
    } else {
      var r := Escaped(s[0]);
      assert EscapedText(s) + [34] == r + (EscapedText(s[1..]) + [34]);
      HasBoth(b, at, r, EscapedText(s[1..]) + [34]);
      CharReads(b, at, s[0], done);
      CharsRead(b, at + |r|, s[1..], done + [s[0]]);
      assert done + [s[0]] + s[1..] == done + s;
    }
  }

  /** A quoted text reads back as itself, and the reader stops behind its closing quote. */
  lemma {:induction false} TextReads(b: seq<byte>, at: nat, s: seq<scalar>)
    requires Has(b, at, Quoted(s))
    ensures ParseString(b, at) == Ok((s, at + |Quoted(s)|))
  {
    hide ParseChars, EscapedText;
    HasAt(b, at, Quoted(s), 0);
    assert Quoted(s) == [34] + (EscapedText(s) + [34]);
    HasBoth(b, at, [34], EscapedText(s) + [34]);
    CharsRead(b, at + 1, s, []);
    assert [] + s == s;
  }

  // ----- values

  lemma {:induction false} ValueStarts(v: Value, depth: nat)
    ensures var r := Write(v, depth);
            |r| > 0 && !IsSpace(r[0]) && r[0] != 93 && r[0] != 125
  {
    hide Decimal, WriteItems, WriteEntries, EscapedText, Pad;
  }

  lemma {:induction false} WordReads(b: seq<byte>, at: nat, word: seq<byte>, v: Value)
    requires Has(b, at, word)
    ensures ParseLiteral(b, at, word, v) == Ok((v, at + |word|))
  {
  }

  lemma {:induction false} PlainReads(b: seq<byte>, at: nat, v: Value, depth: nat)
    requires !v.Array? && !v.Object?
    requires Has(b, at, Write(v, depth))
    requires at + |Write(v, depth)| == |b| || !NumberByte(b[at + |Write(v, depth)|])
    ensures ParseValue(b, at) == Ok((v, at + |Write(v, depth)|))
  {
    hide ParseItems, ParseEntries, ParseString, ParseNumber, ParseLiteral, NumberText, EscapedText;
    ValueStarts(v, depth);
    HasAt(b, at, Write(v, depth), 0);
    match v {
      case Null => WordReads(b, at, NULL, Null);
      case Bool(on) => WordReads(b, at, if on then TRUE else FALSE, v);
      case Number(n) =>
        NumberReads(b, at, n);
      case String(text) => TextReads(b, at, text);
    }
  }

  /** After a value: a comma and a new line, or a new line, the padding and the bracket. */
  lemma {:induction false} AfterLast(b: seq<byte>, at: nat, depth: nat, close: byte)
    requires Has(b, at, [10] + Pad(depth) + [close]) && !IsSpace(close)
    ensures SkipSpace(b, at) == at + 1 + |Pad(depth)| < |b|
    ensures b[SkipSpace(b, at)] == close
  {
    var all := [10] + Pad(depth) + [close];
    HasAt(b, at, all, 0);
    HasAt(b, at, all, |all| - 1);
    assert all == [10] + (Pad(depth) + [close]);
    HasBoth(b, at, [10], Pad(depth) + [close]);
    HasBoth(b, at + 1, Pad(depth), [close]);
    SkipsPad(b, at + 1, depth);
  }

  /** What the reader meets behind an item or an entry. */
  lemma {:induction false} EndingReads(b: seq<byte>, at: nat, more: bool, tail: seq<byte>, depth: nat, close: byte)
    requires Has(b, at, Ending(more) + tail) && !IsSpace(close)
    requires more || tail == Pad(depth) + [close]
    ensures at < |b| && !NumberByte(b[at])
    ensures more ==> Peeks(b, SkipSpace(b, at), 44) && SkipSpace(b, at) == at
    ensures more ==> Has(b, at + 2, tail) && SkipSpace(b, at + 1) == SkipSpace(b, at + 2)
    ensures !more ==> Peeks(b, SkipSpace(b, at), close) && SkipSpace(b, at) == at + 1 + |Pad(depth)|
  {
    hide SkipSpace, Pad, Has;
    HasAt(b, at, Ending(more) + tail, 0);
    HasBoth(b, at, Ending(more), tail);
    if more {
      SkipStops(b, at);
      HasAt(b, at, Ending(more) + tail, 1);
      SkipLine(b, at + 1);
    } else {
      assert Ending(more) + tail == [10] + Pad(depth) + [close];
      AfterLast(b, at, depth, close);
    }
  }

  lemma {:induction false} SkipTwice(b: seq<byte>, at: nat)
    requires at <= |b|
    ensures SkipSpace(b, SkipSpace(b, at)) == SkipSpace(b, at)
  {
  }

  /** The padding before a value is skipped, up to the value. */
  lemma {:induction false} SkipToValue(b: seq<byte>, at: nat, v: Value, depth: nat)
    requires Has(b, at, Pad(depth) + Write(v, depth))
    ensures Has(b, at + |Pad(depth)|, Write(v, depth))
    ensures SkipSpace(b, at) == at + |Pad(depth)|
    ensures !Peeks(b, SkipSpace(b, at), 93)
  {
    hide Write, Pad;
    HasBoth(b, at, Pad(depth), Write(v, depth));
    SkipsPad(b, at, depth);
    ValueStarts(v, depth);
    HasAt(b, at + |Pad(depth)|, Write(v, depth), 0);
  }

  lemma {:induction false} SkipToKey(b: seq<byte>, at: nat, key: seq<scalar>, depth: nat)
    requires Has(b, at, Pad(depth) + Quoted(key))
    ensures Has(b, at + |Pad(depth)|, Quoted(key))
    ensures SkipSpace(b, at) == at + |Pad(depth)|
    ensures !Peeks(b, SkipSpace(b, at), 125)
  {
    hide EscapedText, Pad;
    HasBoth(b, at, Pad(depth), Quoted(key));
    SkipsPad(b, at, depth);
    HasAt(b, at + |Pad(depth)|, Quoted(key), 0);
  }

  /**
   * A printed value reads back as itself wherever it stands, and the reader stops exactly at its end, unless the text
   * goes on with a byte of a number.
   */
  lemma {:induction false} ValueReads(b: seq<byte>, at: nat, v: Value, depth: nat)
    requires Has(b, at, Write(v, depth))
    requires at + |Write(v, depth)| == |b| || !NumberByte(b[at + |Write(v, depth)|])
    ensures ParseValue(b, at) == Ok((v, at + |Write(v, depth)|))
    decreases v
  {
    hide ParseItems, ParseEntries, WriteItems, WriteEntries, Pad, SkipSpace;
    if v.Array? {
      if v.items == [] {
        HasAt(b, at, [91, 93], 0);
        HasAt(b, at, [91, 93], 1);
        SkipStops(b, at + 1);
      } else {
        ArrayReads(b, at, v.items, depth);
      }
    } else if v.Object? {
      if v.entries == [] {
        HasAt(b, at, [123, 125], 0);
        HasAt(b, at, [123, 125], 1);
        SkipStops(b, at + 1);
      } else {
        ObjectReads(b, at, v.entries, depth);
      }
    } else {
      PlainReads(b, at, v, depth);
    }
  }

  lemma {:induction false} SkipStops(b: seq<byte>, at: nat)
    requires at < |b| && !IsSpace(b[at])
    ensures SkipSpace(b, at) == at
  {
  }

  lemma {:induction false} SkipLine(b: seq<byte>, at: nat)
    requires at < |b| && b[at] == 10
    ensures SkipSpace(b, at) == SkipSpace(b, at + 1)
  {
  }

  lemma {:induction false} ArrayReads(b: seq<byte>, at: nat, items: seq<Value>, depth: nat)
    requires items != []
    requires Has(b, at, [91, 10] + WriteItems(items, depth) + Pad(depth) + [93])
    ensures ParseValue(b, at) == Ok((Array(items), at + 2 + |WriteItems(items, depth)| + |Pad(depth)| + 1))
    decreases items, 1
  {
    hide ParseItems, ParseEntries, Pad, SkipSpace, Write, WriteItems;
    var body := WriteItems(items, depth) + Pad(depth) + [93];
    assert [91, 10] + WriteItems(items, depth) + Pad(depth) + [93] == [91, 10] + body;
    HasBoth(b, at, [91, 10], body);
    HasAt(b, at, [91, 10], 0);
    HasAt(b, at, [91, 10], 1);
    SkipLine(b, at + 1);
    SkipTwice(b, at + 2);
    FirstItem(b, at + 2, items, depth);
    ItemsRead(b, SkipSpace(b, at + 2), at + 2, items, depth, []);
    assert [] + items == items;
  }

  lemma {:induction false} FirstItem(b: seq<byte>, at: nat, items: seq<Value>, depth: nat)
    requires items != []
    requires Has(b, at, WriteItems(items, depth) + Pad(depth) + [93])
    ensures var pad, text := Pad(depth + 1), Write(items[0], depth + 1);
            && Has(b, at + |pad|, text)
            && SkipSpace(b, at) == at + |pad|
            && !Peeks(b, SkipSpace(b, at), 93)
            && Has(b, at + |pad| + |text|,
                   Ending(|items| > 1) + (WriteItems(items[1..], depth) + Pad(depth) + [93]))
  {
    hide Write, Pad, SkipSpace, Ending;
    var pad, text := Pad(depth + 1), Write(items[0], depth + 1);
    var rest := Ending(|items| > 1) + (WriteItems(items[1..], depth) + Pad(depth) + [93]);
    assert WriteItems(items, depth) + Pad(depth) + [93] == (pad + text) + rest;
    HasBoth(b, at, pad + text, rest);
    SkipToValue(b, at, items[0], depth + 1);
  }

  /** One turn of the item loop. */
  lemma {:induction false} ItemStep(b: seq<byte>, from: nat, v: Value, next: nat, done: seq<Value>)
    requires from <= |b| && next <= |b|
    requires ParseValue(b, SkipSpace(b, from)) == Ok((v, next))
    ensures var end := SkipSpace(b, next);
            && (Peeks(b, end, 44) ==> ParseItems(b, from, done) == ParseItems(b, end + 1, done + [v]))
            && (Peeks(b, end, 93) ==> ParseItems(b, from, done) == Ok((Array(done + [v]), end + 1)))
  {
    hide ParseValue, ParseEntries, SkipSpace;
  }

  /** One turn of the entry loop. */
  lemma {:induction false} EntryStep(b: seq<byte>, from: nat, key: seq<scalar>, after: nat, v: Value, next: nat,
                                     done: seq<Entry>)
    requires from <= |b| && next <= |b| && after <= |b|
    requires ParseString(b, SkipSpace(b, from)) == Ok((key, after))
    requires SkipSpace(b, after) < |b| && b[SkipSpace(b, after)] == 58
    requires ParseValue(b, SkipSpace(b, SkipSpace(b, after) + 1)) == Ok((v, next))
    ensures var end := SkipSpace(b, next);
            && (Peeks(b, end, 44) ==> ParseEntries(b, from, done) == ParseEntries(b, end + 1, done + [Entry(key, v)]))
            && (Peeks(b, end, 125) ==> ParseEntries(b, from, done) == Ok((Object(done + [Entry(key, v)]), end + 1)))
  {
    hide ParseValue, ParseItems, ParseString, SkipSpace;
  }

  lemma {:induction false} ItemsRead(b: seq<byte>, from: nat, at: nat, items: seq<Value>, depth: nat, done: seq<Value>)
    requires items != []
    requires Has(b, at, WriteItems(items, depth) + Pad(depth) + [93])
    requires from <= |b| && SkipSpace(b, from) == SkipSpace(b, at)
    ensures ParseItems(b, from, done)
         == Ok((Array(done + items), at + |WriteItems(items, depth)| + |Pad(depth)| + 1))
    decreases items, 0
  {
    hide ParseValue, ParseItems, ParseEntries, Pad, SkipSpace, Write, WriteEntries, Has, NumberByte;
    FirstItem(b, at, items, depth);
    var pad, text := Pad(depth + 1), Write(items[0], depth + 1);
    var next := at + |pad| + |text|;
    var tail := WriteItems(items[1..], depth) + Pad(depth) + [93];
    assert |items| > 1 || tail == Pad(depth) + [93] by {
      if |items| == 1 {
        assert WriteItems(items[1..], depth) == [];
      }
    }
    EndingReads(b, next, |items| > 1, tail, depth, 93);
    ValueReads(b, at + |pad|, items[0], depth + 1);
    ItemStep(b, from, items[0], next, done);
    if |items| > 1 {
      ItemsRead(b, next + 1, next + 2, items[1..], depth, done + [items[0]]);
      assert done + [items[0]] + items[1..] == done + items;
    } else {
      assert done + [items[0]] == done + items;
    }
  }

  lemma {:induction false} ObjectReads(b: seq<byte>, at: nat, entries: seq<Entry>, depth: nat)
    requires entries != []
    requires Has(b, at, [123, 10] + WriteEntries(entries, depth) + Pad(depth) + [125])
    ensures ParseValue(b, at) == Ok((Object(entries), at + 2 + |WriteEntries(entries, depth)| + |Pad(depth)| + 1))
    decreases entries, 1
  {
    hide ParseItems, ParseEntries, Pad, SkipSpace, Write, WriteEntries, Quoted;
    var body := WriteEntries(entries, depth) + Pad(depth) + [125];
    assert [123, 10] + WriteEntries(entries, depth) + Pad(depth) + [125] == [123, 10] + body;
    HasBoth(b, at, [123, 10], body);
    HasAt(b, at, [123, 10], 0);
    HasAt(b, at, [123, 10], 1);
    SkipLine(b, at + 1);
    SkipTwice(b, at + 2);
    FirstEntry(b, at + 2, entries, depth);
    EntriesRead(b, SkipSpace(b, at + 2), at + 2, entries, depth, []);
    assert [] + entries == entries;
  }

  lemma {:induction false} FirstEntry(b: seq<byte>, at: nat, entries: seq<Entry>, depth: nat)
    requires entries != []
    requires Has(b, at, WriteEntries(entries, depth) + Pad(depth) + [125])
    ensures var pad, key, text := Pad(depth + 1), Quoted(entries[0].key), Write(entries[0].value, depth + 1);
            && Has(b, at + |pad|, key)
            && SkipSpace(b, at) == at + |pad|
            && !Peeks(b, SkipSpace(b, at), 125)
            && Has(b, at + |pad| + |key|, [58, 32])
            && Has(b, at + |pad| + |key| + 2, text)
            && Has(b, at + |pad| + |key| + 2 + |text|,
                   Ending(|entries| > 1) + (WriteEntries(entries[1..], depth) + Pad(depth) + [125]))
  {
    hide Write, Pad, SkipSpace, Ending, Quoted, Has;
    var pad, key, text := Pad(depth + 1), Quoted(entries[0].key), Write(entries[0].value, depth + 1);
    var rest := Ending(|entries| > 1) + (WriteEntries(entries[1..], depth) + Pad(depth) + [125]);
    assert WriteEntries(entries, depth) + Pad(depth) + [125] == (pad + key) + ([58, 32] + (text + rest));
    HasBoth(b, at, pad + key, [58, 32] + (text + rest));
    HasBoth(b, at + |pad| + |key|, [58, 32], text + rest);
    HasBoth(b, at + |pad| + |key| + 2, text, rest);
    SkipToKey(b, at, entries[0].key, depth + 1);
  }

  /** One entry is read up to its end: key, colon, space and value. */
  lemma {:induction false} EntryReads(b: seq<byte>, at: nat, key: seq<scalar>, v: Value, depth: nat)
    requires Has(b, at, Quoted(key))
    requires Has(b, at + |Quoted(key)|, [58, 32])
    requires Has(b, at + |Quoted(key)| + 2, Write(v, depth))
    ensures var colon := at + |Quoted(key)|;
            && ParseString(b, at) == Ok((key, colon))
            && SkipSpace(b, colon) == colon
            && Peeks(b, colon, 58)
            && SkipSpace(b, colon + 1) == colon + 2
  {
    hide ParseString, Quoted, Write;
    TextReads(b, at, key);
    var colon := at + |Quoted(key)|;
    HasAt(b, colon, [58, 32], 0);
    HasAt(b, colon, [58, 32], 1);
    ValueStarts(v, depth);
    HasAt(b, colon + 2, Write(v, depth), 0);
  }

  lemma {:induction false} EntriesRead(b: seq<byte>, from: nat, at: nat, entries: seq<Entry>, depth: nat,
                                       done: seq<Entry>)
    requires entries != []
    requires Has(b, at, WriteEntries(entries, depth) + Pad(depth) + [125])
    requires from <= |b| && SkipSpace(b, from) == SkipSpace(b, at)
    ensures ParseEntries(b, from, done)
         == Ok((Object(done + entries), at + |WriteEntries(entries, depth)| + |Pad(depth)| + 1))
    decreases entries, 0
  {
    hide ParseValue, ParseItems, ParseEntries, Pad, SkipSpace, Write, WriteItems, ParseString, Quoted, Has, NumberByte;
    FirstEntry(b, at, entries, depth);
    var pad, key, text := Pad(depth + 1), Quoted(entries[0].key), Write(entries[0].value, depth + 1);
    var next := at + |pad| + |key| + 2 + |text|;
    var tail := WriteEntries(entries[1..], depth) + Pad(depth) + [125];
    assert |entries| > 1 || tail == Pad(depth) + [125] by {
      if |entries| == 1 {
        assert WriteEntries(entries[1..], depth) == [];
      }
    }
    EndingReads(b, next, |entries| > 1, tail, depth, 125);
    EntryReads(b, at + |pad|, entries[0].key, entries[0].value, depth + 1);
    ValueReads(b, at + |pad| + |key| + 2, entries[0].value, depth + 1);
    assert entries[0] == Entry(entries[0].key, entries[0].value);
    EntryStep(b, from, entries[0].key, at + |pad| + |key|, entries[0].value, next, done);
    if |entries| > 1 {
      EntriesRead(b, next + 1, next + 2, entries[1..], depth, done + [entries[0]]);
      assert done + [entries[0]] + entries[1..] == done + entries;
    } else {
      assert done + [entries[0]] == done + entries;
    }
  }

  /** Parsing a rendered value gives that value. */
  lemma {:induction false} ParseRender(v: Value)
    ensures Parse(Render(v)) == Ok(v)
  {
    hide ParseValue, Write;
    var b := Render(v);
    ValueStarts(v, 0);
    ValueReads(b, 0, v, 0);
    SkipLine(b, |b| - 1);
  }

  /** Different values are rendered differently. */
  lemma {:induction false} RenderIsInjective(v: Value, w: Value)
    requires Render(v) == Render(w)
    ensures v == w
  {
    hide Parse, Render;
    ParseRender(v);
    ParseRender(w);
  }
}
