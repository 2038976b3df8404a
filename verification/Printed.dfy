/** How the JSON printer lays a value out (crates/core/src/json.rs): every text it prints, place by place. */
module Printed {
  import opened Bytes
  import opened Utf8
  import opened Json
  import opened RoundTrip

  // ----- the layout

  predicate Text(b: seq<byte>, at: nat, text: string) {
    at + |text| <= |b| && forall i :: 0 <= i < |text| ==> b[at + i] == text[i] as int
  }

  predicate Indented(b: seq<byte>, at: nat, depth: nat) {
    at + 2 * depth <= |b| && forall i :: at <= i < at + 2 * depth ==> b[i] == ' ' as int
  }

  /** A character with a letter of its own behind a backslash. */
  predicate ShortEscape(b: seq<byte>, at: nat, c: scalar) {
    || (c == 0x22 && Text(b, at, "\\\"")) || (c == 0x5C && Text(b, at, "\\\\")) || (c == 0x0A && Text(b, at, "\\n"))
    || (c == 0x0D && Text(b, at, "\\r")) || (c == 0x09 && Text(b, at, "\\t"))
  }

  /** The characters that need it are escaped, the other control characters by number, and the rest stand as they are.
      */
  predicate CharAt(b: seq<byte>, at: nat, end: nat, c: scalar) {
    if c in {0x22, 0x5C, 0x0A, 0x0D, 0x09} then ShortEscape(b, at, c) && end == at + 2
    else if c < 0x20 then
      && Text(b, at, "\\u00") && end == at + 6 <= |b|
      && b[at + 4] == "0123456789abcdef"[c / 16] as int && b[at + 5] == "0123456789abcdef"[c % 16] as int
    else at + |Encode(c)| == end <= |b| && b[at..end] == Encode(c)
  }

  ghost predicate CharsAt(b: seq<byte>, at: nat, end: nat, text: seq<scalar>)
    decreases text
  {
    if text == [] then Text(b, at, "\"") && end == at + 1
    else exists mid: nat :: CharAt(b, at, mid, text[0]) && CharsAt(b, mid, end, text[1..])
  }

  ghost predicate QuotedAt(b: seq<byte>, at: nat, end: nat, text: seq<scalar>) {
    Text(b, at, "\"") && CharsAt(b, at + 1, end, text)
  }

  /** The digits of `n`, no zero before them. */
  predicate DigitsAt(b: seq<byte>, at: nat, end: nat, n: nat)
    decreases n
  {
    && at < end <= |b|
    && if n < 10 then end == at + 1 && b[at] == '0' as int + n
       else b[end - 1] == '0' as int + n % 10 && DigitsAt(b, at, end - 1, n / 10)
  }

  predicate NumberAt(b: seq<byte>, at: nat, end: nat, n: number) {
    if n < 0 then Text(b, at, "-") && DigitsAt(b, at + 1, end, -n) else DigitsAt(b, at, end, n)
  }

  /** Values without anything in them, and texts; an array or object of something spreads over lines. */
  ghost predicate ValueAt(b: seq<byte>, at: nat, end: nat, v: Value, depth: nat)
    decreases v, 0
  {
    match v
    case Null => Text(b, at, "null") && end == at + 4
    case Bool(on) => if on then Text(b, at, "true") && end == at + 4 else Text(b, at, "false") && end == at + 5
    case Number(n) => NumberAt(b, at, end, n)
    case String(text) => QuotedAt(b, at, end, text)
    case Array(items) =>
      if items == [] then Text(b, at, "[]") && end == at + 2
      else Text(b, at, "[\n") && ItemsAt(b, at + 2, end, items, depth)
    case Object(entries) =>
      if entries == [] then Text(b, at, "{}") && end == at + 2
      else Text(b, at, "{\n") && EntriesAt(b, at + 2, end, entries, depth)
  }

  /** The closing bracket stands on its own line, below the line of the opening one. */
  predicate ClosesAt(b: seq<byte>, at: nat, end: nat, depth: nat, close: string) {
    Indented(b, at, depth) && Text(b, at + 2 * depth, close) && end == at + 2 * depth + |close|
  }

  /** Every item stands on a line of its own, two spaces further in, with a comma behind all but the last. */
  ghost predicate ItemsAt(b: seq<byte>, at: nat, end: nat, items: seq<Value>, depth: nat)
    decreases items, 1
  {
    if items == [] then ClosesAt(b, at, end, depth, "]") else exists mid: nat :: ItemAt(b, at, mid, end, items, depth)
  }

  ghost predicate ItemAt(b: seq<byte>, at: nat, mid: nat, end: nat, items: seq<Value>, depth: nat)
    requires items != []
    decreases items, 0
  {
    && Indented(b, at, depth + 1) && ValueAt(b, at + 2 * (depth + 1), mid, items[0], depth + 1)
    && var line := if |items| > 1 then ",\n" else "\n";
       Text(b, mid, line) && ItemsAt(b, mid + |line|, end, items[1..], depth)
  }

  ghost predicate EntriesAt(b: seq<byte>, at: nat, end: nat, entries: seq<Entry>, depth: nat)
    decreases entries, 1
  {
    if entries == [] then ClosesAt(b, at, end, depth, "}")
    else exists colon: nat, mid: nat :: EntryAt(b, at, colon, mid, end, entries, depth)
  }

  /** An entry is its key, a colon, a space and its value. */
  ghost predicate EntryAt(b: seq<byte>, at: nat, colon: nat, mid: nat, end: nat, entries: seq<Entry>, depth: nat)
    requires entries != []
    decreases entries, 0
  {
    && Indented(b, at, depth + 1) && QuotedAt(b, at + 2 * (depth + 1), colon, entries[0].key) && Text(b, colon, ": ")
    && ValueAt(b, colon + 2, mid, entries[0].value, depth + 1)
    && var line := if |entries| > 1 then ",\n" else "\n";
       Text(b, mid, line) && EntriesAt(b, mid + |line|, end, entries[1..], depth)
  }

  // ----- the printer's texts

  lemma {:induction false} TextHere(b: seq<byte>, at: nat, r: seq<byte>, text: string)
    requires Has(b, at, r) && |r| == |text| && forall i :: 0 <= i < |r| ==> r[i] == text[i] as int
    ensures Text(b, at, text)
  {
    forall i | 0 <= i < |text|
      ensures b[at + i] == text[i] as int
    {
      HasAt(b, at, r, i);
    }
  }

  lemma {:induction false} PadHere(b: seq<byte>, at: nat, depth: nat)
    requires Has(b, at, Pad(depth))
    ensures |Pad(depth)| == 2 * depth && Indented(b, at, depth)
  {
    forall i | at <= i < at + 2 * depth
      ensures b[i] == ' ' as int
    {
      HasAt(b, at, Pad(depth), i - at);
    }
  }

  lemma {:induction false} CharHere(b: seq<byte>, at: nat, c: scalar)
    requires Has(b, at, Escaped(c))
    ensures CharAt(b, at, at + |Escaped(c)|, c)
  {
    hide Encode, HexDigit;
    var r := Escaped(c);
    if c == 0x22 {
      TextHere(b, at, r, "\\\"");
    } else if c == 0x5C {
      TextHere(b, at, r, "\\\\");
    } else if c == 0x0A {
      TextHere(b, at, r, "\\n");
    } else if c == 0x0D {
      TextHere(b, at, r, "\\r");
    } else if c == 0x09 {
      TextHere(b, at, r, "\\t");
    } else if c < 0x20 {
      HasBoth(b, at, [92, 117, 48, 48], [HexDigit(c / 16), HexDigit(c % 16)]) by {
        assert r == [92, 117, 48, 48] + [HexDigit(c / 16), HexDigit(c % 16)];
      }
      TextHere(b, at, [92, 117, 48, 48], "\\u00");
      HexHere(c / 16);
      HexHere(c % 16);
      HasAt(b, at, r, 4);
      HasAt(b, at, r, 5);
    }
  }

  lemma {:induction false} HexHere(d: nat)
    requires d < 16
    ensures HexDigit(d) == "0123456789abcdef"[d] as int
  {
  }

  lemma {:induction false} CharsHere(b: seq<byte>, at: nat, text: seq<scalar>)
    requires Has(b, at, EscapedText(text) + [34])
    ensures CharsAt(b, at, at + |EscapedText(text)| + 1, text)
    decreases text
  {
    hide Escaped, CharAt, Text;
    if text == [] {
      assert EscapedText(text) + [34] == [34];
      TextHere(b, at, [34], "\"");
    } else {
      var first, rest := Escaped(text[0]), EscapedText(text[1..]);
      assert EscapedText(text) + [34] == first + (rest + [34]);
      HasBoth(b, at, first, rest + [34]);
      CharHere(b, at, text[0]);
      CharsHere(b, at + |first|, text[1..]);
    }
  }

  lemma {:induction false} QuotedHere(b: seq<byte>, at: nat, text: seq<scalar>)
    requires Has(b, at, Quoted(text))
    ensures QuotedAt(b, at, at + |Quoted(text)|, text)
  {
    hide EscapedText, CharsAt, Text;
    assert Quoted(text) == [34] + (EscapedText(text) + [34]);
    HasBoth(b, at, [34], EscapedText(text) + [34]);
    TextHere(b, at, [34], "\"");
    CharsHere(b, at + 1, text);
  }

  lemma {:induction false} DigitsHere(b: seq<byte>, at: nat, n: nat)
    requires Has(b, at, Decimal(n))
    ensures DigitsAt(b, at, at + |Decimal(n)|, n)
    decreases n
  {
    var r := Decimal(n);
    HasAt(b, at, r, |r| - 1);
    if n >= 10 {
      HasBoth(b, at, Decimal(n / 10), [48 + n % 10]);
      DigitsHere(b, at, n / 10);
    }
  }

  lemma {:induction false} NumberHere(b: seq<byte>, at: nat, n: number)
    requires Has(b, at, NumberText(n))
    ensures NumberAt(b, at, at + |NumberText(n)|, n)
  {
    hide Decimal, DigitsAt, Text;
    if n < 0 {
      HasBoth(b, at, [45], Decimal(-n));
      TextHere(b, at, [45], "-");
      DigitsHere(b, at + 1, -n);
    } else {
      DigitsHere(b, at, n);
    }
  }

  /** What the printer writes, wherever it stands, is laid out so. */
  lemma {:induction false} PrintedAt(b: seq<byte>, at: nat, v: Value, depth: nat)
    requires Has(b, at, Write(v, depth))
    ensures ValueAt(b, at, at + |Write(v, depth)|, v, depth)
    decreases v, 0
  {
    hide WriteItems, WriteEntries, Pad, Text, NumberAt, QuotedAt, Quoted, NumberText, ItemsAt, EntriesAt;
    match v {
      case Null => TextHere(b, at, NULL, "null");
      case Bool(on) =>
        if on {
          TextHere(b, at, TRUE, "true");
        } else {
          TextHere(b, at, FALSE, "false");
        }
      case Number(n) => NumberHere(b, at, n);
      case String(text) => QuotedHere(b, at, text);
      case Array(items) => ArrayHere(b, at, items, depth);
      case Object(entries) => ObjectHere(b, at, entries, depth);
    }
  }

  lemma {:induction false} ArrayHere(b: seq<byte>, at: nat, items: seq<Value>, depth: nat)
    requires Has(b, at, Write(Array(items), depth))
    ensures ValueAt(b, at, at + |Write(Array(items), depth)|, Array(items), depth)
    decreases items, 2
  {
    hide WriteItems, Pad, Text, ItemsAt, Has;
    if items == [] {
      TextHere(b, at, [91, 93], "[]");
    } else {
      var body := WriteItems(items, depth) + Pad(depth) + [93];
      assert Write(Array(items), depth) == [91, 10] + body;
      HasBoth(b, at, [91, 10], body);
      TextHere(b, at, [91, 10], "[\n");
      ItemsHere(b, at + 2, items, depth);
    }
  }

  lemma {:induction false} ObjectHere(b: seq<byte>, at: nat, entries: seq<Entry>, depth: nat)
    requires Has(b, at, Write(Object(entries), depth))
    ensures ValueAt(b, at, at + |Write(Object(entries), depth)|, Object(entries), depth)
    decreases entries, 2
  {
    hide WriteEntries, Pad, Text, EntriesAt, Has;
    if entries == [] {
      TextHere(b, at, [123, 125], "{}");
    } else {
      var body := WriteEntries(entries, depth) + Pad(depth) + [125];
      assert Write(Object(entries), depth) == [123, 10] + body;
      HasBoth(b, at, [123, 10], body);
      TextHere(b, at, [123, 10], "{\n");
      EntriesHere(b, at + 2, entries, depth);
    }
  }

  lemma {:induction false} EndingHere(b: seq<byte>, at: nat, more: bool)
    requires Has(b, at, Ending(more))
    ensures Text(b, at, if more then ",\n" else "\n") && |Ending(more)| == if more then 2 else 1
  {
    TextHere(b, at, Ending(more), if more then ",\n" else "\n");
  }

  lemma {:induction false} ClosesHere(b: seq<byte>, at: nat, depth: nat, bracket: byte, close: string)
    requires Has(b, at, Pad(depth) + [bracket]) && |close| == 1 && bracket == close[0] as int
    ensures ClosesAt(b, at, at + |Pad(depth)| + 1, depth, close)
  {
    hide Pad, Indented, Text;
    HasBoth(b, at, Pad(depth), [bracket]);
    PadHere(b, at, depth);
    TextHere(b, at + 2 * depth, [bracket], close);
  }

  /** The first item's line, and the rest. */
  lemma {:induction false} ItemLine(b: seq<byte>, at: nat, items: seq<Value>, depth: nat)
    requires items != [] && Has(b, at, WriteItems(items, depth) + Pad(depth) + [93])
    ensures var pad, text, line := Pad(depth + 1), Write(items[0], depth + 1), Ending(|items| > 1);
      && Has(b, at, pad) && Has(b, at + |pad|, text) && Has(b, at + |pad| + |text|, line)
      && Has(b, at + |pad| + |text| + |line|, WriteItems(items[1..], depth) + Pad(depth) + [93])
      && |WriteItems(items, depth)| == |pad| + |text| + |line| + |WriteItems(items[1..], depth)|
  {
    hide Write, Pad, Ending, Has;
    var pad, text, line := Pad(depth + 1), Write(items[0], depth + 1), Ending(|items| > 1);
    var rest := WriteItems(items[1..], depth) + Pad(depth) + [93];
    assert WriteItems(items, depth) + Pad(depth) + [93] == pad + text + line + rest;
    HasBoth(b, at, pad + text + line, rest);
    HasBoth(b, at, pad + text, line);
    HasBoth(b, at, pad, text);
  }

  lemma {:induction false} ItemsHere(b: seq<byte>, at: nat, items: seq<Value>, depth: nat)
    requires Has(b, at, WriteItems(items, depth) + Pad(depth) + [93])
    ensures ItemsAt(b, at, at + |WriteItems(items, depth)| + |Pad(depth)| + 1, items, depth)
    decreases items, 1
  {
    hide Write, WriteItems, Pad, Text, Indented, ValueAt, Ending, ClosesAt, Has;
    if items == [] {
      NothingWritten(depth);
      assert [] + Pad(depth) + [93] == Pad(depth) + [93];
      ClosesHere(b, at, depth, 93, "]");
    } else {
      var pad, text, line := Pad(depth + 1), Write(items[0], depth + 1), Ending(|items| > 1);
      var mid := at + |pad| + |text|;
      ItemLine(b, at, items, depth);
      PadHere(b, at, depth + 1);
      PrintedAt(b, at + |pad|, items[0], depth + 1);
      EndingHere(b, mid, |items| > 1);
      ItemsHere(b, mid + |line|, items[1..], depth);
      assert ItemAt(b, at, mid, at + |WriteItems(items, depth)| + |Pad(depth)| + 1, items, depth);
    }
  }

  lemma {:induction false} NothingWritten(depth: nat)
    ensures WriteItems([], depth) == [] && WriteEntries([], depth) == []
  {
  }

  /** The first entry's line, and the rest. */
  lemma {:induction false} EntryLine(b: seq<byte>, at: nat, entries: seq<Entry>, depth: nat)
    requires entries != [] && Has(b, at, WriteEntries(entries, depth) + Pad(depth) + [125])
    ensures var pad, key, text, line := Pad(depth + 1), Quoted(entries[0].key), Write(entries[0].value, depth + 1),
        Ending(|entries| > 1);
      var colon := at + |pad| + |key|;
      && Has(b, at, pad) && Has(b, at + |pad|, key) && Has(b, colon, [58, 32]) && Has(b, colon + 2, text)
      && Has(b, colon + 2 + |text|, line)
      && Has(b, colon + 2 + |text| + |line|, WriteEntries(entries[1..], depth) + Pad(depth) + [125])
      && |WriteEntries(entries, depth)|
          == |pad| + |key| + 2 + |text| + |line| + |WriteEntries(entries[1..], depth)|
  {
    hide Write, Pad, Ending, Quoted, Has;
    var pad, key, text, line := Pad(depth + 1), Quoted(entries[0].key), Write(entries[0].value, depth + 1),
        Ending(|entries| > 1);
    var rest := WriteEntries(entries[1..], depth) + Pad(depth) + [125];
    assert WriteEntries(entries, depth) + Pad(depth) + [125] == pad + key + [58, 32] + text + line + rest;
    HasBoth(b, at, pad + key + [58, 32] + text + line, rest);
    HasBoth(b, at, pad + key + [58, 32] + text, line);
    HasBoth(b, at, pad + key + [58, 32], text);
    HasBoth(b, at, pad + key, [58, 32]);
    HasBoth(b, at, pad, key);
  }

  lemma {:induction false} EntriesHere(b: seq<byte>, at: nat, entries: seq<Entry>, depth: nat)
    requires Has(b, at, WriteEntries(entries, depth) + Pad(depth) + [125])
    ensures EntriesAt(b, at, at + |WriteEntries(entries, depth)| + |Pad(depth)| + 1, entries, depth)
    decreases entries, 1
  {
    hide Write, WriteEntries, Pad, Text, Indented, ValueAt, Ending, ClosesAt, Quoted, QuotedAt, Has;
    if entries == [] {
      NothingWritten(depth);
      assert [] + Pad(depth) + [125] == Pad(depth) + [125];
      ClosesHere(b, at, depth, 125, "}");
    } else {
      var pad, key, text, line := Pad(depth + 1), Quoted(entries[0].key), Write(entries[0].value, depth + 1),
          Ending(|entries| > 1);
      var colon := at + |pad| + |key|;
      var mid := colon + 2 + |text|;
      EntryLine(b, at, entries, depth);
      PadHere(b, at, depth + 1);
      QuotedHere(b, at + |pad|, entries[0].key);
      TextHere(b, colon, [58, 32], ": ");
      PrintedAt(b, colon + 2, entries[0].value, depth + 1);
      EndingHere(b, mid, |entries| > 1);
      EntriesHere(b, mid + |line|, entries[1..], depth);
      assert EntryAt(b, at, colon, mid, at + |WriteEntries(entries, depth)| + |Pad(depth)| + 1, entries, depth);
    }
  }

  /** A rendered text is the value at the left margin and a new line. */
  lemma {:induction false} RendersExactly(v: Value)
    ensures var b := Render(v); b != [] && ValueAt(b, 0, |b| - 1, v, 0) && b[|b| - 1] == '\n' as int
  {
    hide Write, ValueAt;
    var b := Render(v);
    assert b[0..0 + |Write(v, 0)|] == Write(v, 0);
    PrintedAt(b, 0, v, 0);
  }
}
