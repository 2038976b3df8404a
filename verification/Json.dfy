/** The JSON reader and printer (crates/core/src/json.rs), on bytes. */
module Json {
  import opened Outcome
  import opened Bytes
  import opened Utf8

  const LIMIT := 1_000_000_000_000_000

  /** The numbers of the model: the integers below 10^15, which a double holds and prints exactly. */
  type number = n: int | -LIMIT < n < LIMIT

  datatype Entry = Entry(key: seq<scalar>, value: Value)

  datatype Value =
    | Null
    | Bool(on: bool)
    | Number(n: number)
    | String(text: seq<scalar>)
    | Array(items: seq<Value>)
    | Object(entries: seq<Entry>)

  // ----- printing

  function Spaces(n: nat): (r: seq<byte>)
    ensures |r| == n && forall i :: 0 <= i < n ==> r[i] == 32
  {
    seq(n, _ => 32)
  }

  function Pad(depth: nat): seq<byte> {
    Spaces(2 * depth)
  }

  /** The decimal digits of `n`. */
  function Decimal(n: nat): (r: seq<byte>)
    ensures |r| > 0 && forall i :: 0 <= i < |r| ==> 48 <= r[i] <= 57
  {
    if n < 10 then [48 + n] else Decimal(n / 10) + [48 + n % 10]
  }

  function NumberText(n: number): seq<byte> {
    if n < 0 then [45] + Decimal(-n) else Decimal(n)
  }

  function HexDigit(d: nat): byte
    requires d < 16
  {
    if d < 10 then 48 + d else 87 + d
  }

  /** One character inside quotes. */
  function Escaped(c: scalar): (r: seq<byte>)
    ensures |r| > 0
  {
    if c == 34 then [92, 34]
    else if c == 92 then [92, 92]
    else if c == 10 then [92, 110]
    else if c == 13 then [92, 114]
    else if c == 9 then [92, 116]
    else if c < 0x20 then [92, 117, 48, 48, HexDigit(c / 16), HexDigit(c % 16)]
    else Encode(c)
  }

  function EscapedText(s: seq<scalar>): seq<byte> {
    if s == [] then [] else Escaped(s[0]) + EscapedText(s[1..])
  }

  function Quoted(s: seq<scalar>): seq<byte> {
    [34] + EscapedText(s) + [34]
  }

  const NULL: seq<byte> := [110, 117, 108, 108]
  const TRUE: seq<byte> := [116, 114, 117, 101]
  const FALSE: seq<byte> := [102, 97, 108, 115, 101]

  /** A comma after all but the last, and a new line. */
  function Ending(more: bool): seq<byte> {
    if more then [44, 10] else [10]
  }

  function Write(v: Value, depth: nat): seq<byte>
    decreases v
  {
    match v
    case Null => NULL
    case Bool(on) => if on then TRUE else FALSE
    case Number(n) => NumberText(n)
    case String(text) => Quoted(text)
    case Array(items) =>
      if items == [] then [91, 93] else [91, 10] + WriteItems(items, depth) + Pad(depth) + [93]
    case Object(entries) =>
      if entries == [] then [123, 125] else [123, 10] + WriteEntries(entries, depth) + Pad(depth) + [125]
  }

  function WriteItems(items: seq<Value>, depth: nat): seq<byte>
    decreases items
  {
    if items == [] then []
    else Pad(depth + 1) + Write(items[0], depth + 1) + Ending(|items| > 1) + WriteItems(items[1..], depth)
  }

  function WriteEntries(entries: seq<Entry>, depth: nat): seq<byte>
    decreases entries
  {
    if entries == [] then []
    else
      Pad(depth + 1) + Quoted(entries[0].key) + [58, 32] + Write(entries[0].value, depth + 1) + Ending(|entries| > 1)
      + WriteEntries(entries[1..], depth)
  }

  function Render(v: Value): seq<byte> {
    Write(v, 0) + [10]
  }

  method QuoteText(s: seq<scalar>) returns (out: seq<byte>)
    ensures out == Quoted(s)
  {
    out := [34];
    for i := 0 to |s|
      invariant out + EscapedText(s[i..]) == [34] + EscapedText(s)
    {
      assert s[i..][0] == s[i] && s[i..][1..] == s[i + 1..];
      assert out + Escaped(s[i]) + EscapedText(s[i + 1..]) == out + EscapedText(s[i..]);
      out := out + Escaped(s[i]);
    }
    assert out + EscapedText(s[|s|..]) == out;
    out := out + [34];
  }

  /** `write_value`: the value appended to `start`. */
  method WriteValue(start: seq<byte>, v: Value, depth: nat) returns (out: seq<byte>)
    ensures out == start + Write(v, depth)
    decreases v
  {
    hide WriteItems, WriteEntries, Quoted, NumberText, Pad;
    match v {
      case Null => out := start + NULL;
      case Bool(on) => out := start + if on then TRUE else FALSE;
      case Number(n) => out := start + NumberText(n);
      case String(text) =>
        var quoted := QuoteText(text);
        out := start + quoted;
      case Array(items) =>
        if items == [] {
          return start + [91, 93];
        }
        out := WriteArray(start + [91, 10], items, depth);
        out := out + Pad(depth);
        out := out + [93];
        assert start + [91, 10] + WriteItems(items, depth) + Pad(depth) + [93] == start + Write(v, depth);
      case Object(entries) =>
        if entries == [] {
          return start + [123, 125];
        }
        out := WriteObject(start + [123, 10], entries, depth);
        out := out + Pad(depth);
        out := out + [125];
        assert start + [123, 10] + WriteEntries(entries, depth) + Pad(depth) + [125] == start + Write(v, depth);
    }
  }

  /** The loop of `write_value` over an array's items. */
  method WriteArray(start: seq<byte>, items: seq<Value>, depth: nat) returns (out: seq<byte>)
    ensures out == start + WriteItems(items, depth)
    decreases items
  {
    hide Write, Pad;
    out := start;
    for i := 0 to |items|
      invariant out + WriteItems(items[i..], depth) == start + WriteItems(items, depth)
    {
      assert items[i..][0] == items[i] && items[i..][1..] == items[i + 1..];
      ghost var before, rest := out, WriteItems(items[i + 1..], depth);
      out := out + Pad(depth + 1);
      out := WriteValue(out, items[i], depth + 1);
      if i + 1 < |items| {
        out := out + [44];
      }
      out := out + [10];
      JoinItem(before, Pad(depth + 1), Write(items[i], depth + 1), i + 1 < |items|, rest, out);
    }
    assert out + WriteItems(items[|items|..], depth) == out;
  }

  /** The loop of `write_value` over an object's entries. */
  method WriteObject(start: seq<byte>, entries: seq<Entry>, depth: nat) returns (out: seq<byte>)
    ensures out == start + WriteEntries(entries, depth)
    decreases entries
  {
    hide Write, Pad, Quoted;
    out := start;
    for i := 0 to |entries|
      invariant out + WriteEntries(entries[i..], depth) == start + WriteEntries(entries, depth)
    {
      assert entries[i..][0] == entries[i] && entries[i..][1..] == entries[i + 1..];
      ghost var before, rest := out, WriteEntries(entries[i + 1..], depth);
      out := out + Pad(depth + 1);
      var quoted := QuoteText(entries[i].key);
      out := out + quoted;
      out := out + [58, 32];
      out := WriteValue(out, entries[i].value, depth + 1);
      if i + 1 < |entries| {
        out := out + [44];
      }
      out := out + [10];
      JoinEntry(before, Pad(depth + 1), Quoted(entries[i].key), Write(entries[i].value, depth + 1),
                i + 1 < |entries|, rest, out);
    }
    assert out + WriteEntries(entries[|entries|..], depth) == out;
  }

  lemma {:induction false} JoinItem(before: seq<byte>, pad: seq<byte>, text: seq<byte>, more: bool, rest: seq<byte>,
                                    out: seq<byte>)
    requires out == (before + pad + text + if more then [44] else []) + [10]
    ensures out + rest == before + (pad + text + Ending(more) + rest)
  {
    assert (if more then [44] else []) + [10] == Ending(more);
  }

  lemma {:induction false} JoinEntry(before: seq<byte>, pad: seq<byte>, key: seq<byte>, text: seq<byte>, more: bool,
                                     rest: seq<byte>, out: seq<byte>)
    requires out == (before + pad + key + [58, 32] + text + if more then [44] else []) + [10]
    ensures out + rest == before + (pad + key + [58, 32] + text + Ending(more) + rest)
  {
    assert (if more then [44] else []) + [10] == Ending(more);
  }

  method RenderValue(v: Value) returns (out: seq<byte>)
    ensures out == Render(v)
  {
    out := WriteValue([], v, 0);
    assert [] + Write(v, 0) == Write(v, 0);
    out := out + [10];
  }

  // ----- reading: what the parser answers, by position

  predicate IsSpace(b: byte) {
    b == 32 || b == 9 || b == 13 || b == 10
  }

  function SkipSpace(b: seq<byte>, at: nat): (r: nat)
    requires at <= |b|
    ensures at <= r <= |b|
    ensures r < |b| ==> !IsSpace(b[r])
    decreases |b| - at
  {
    if at < |b| && IsSpace(b[at]) then SkipSpace(b, at + 1) else at
  }

  predicate Peeks(b: seq<byte>, at: nat, c: byte) {
    at < |b| && b[at] == c
  }

  function ParseLiteral(b: seq<byte>, at: nat, word: seq<byte>, v: Value): Result<(Value, nat)>
    requires at <= |b|
  {
    if at + |word| <= |b| && b[at..at + |word|] == word then Ok((v, at + |word|)) else Err(BadLiteral)
  }

  /** The value of a hexadecimal digit. */
  function HexValue(d: byte): Option<nat> {
    if 48 <= d <= 57 then Some(d - 48)
    else if 97 <= d <= 102 then Some(d - 87)
    else if 65 <= d <= 70 then Some(d - 55)
    else None
  }

  function HexNumber(s: seq<byte>): Option<nat> {
    if s == [] then Some(0)
    else match (HexNumber(s[..|s| - 1]), HexValue(s[|s| - 1]))
      case (Some(high), Some(low)) => Some(16 * high + low)
      case _ => None
  }

  /** Four hexadecimal digits; the number reader also takes a leading plus sign. */
  function ParseHex4(b: seq<byte>, at: nat): (r: Result<(nat, nat)>)
    requires at <= |b|
    ensures r.Ok? ==> r.value.1 == at + 4 <= |b|
  {
    if at + 4 > |b| then Err(BadEscape)
    else
      var text := b[at..at + 4];
      match HexNumber(if text[0] == 43 then text[1..] else text)
      case Some(code) => Ok((code, at + 4))
      case None => Err(BadEscape)
  }

  /** The scalar value of that number, or the replacement character. */
  function ScalarOr(code: int): scalar {
    if 0 <= code < 0x11_0000 && !(0xD800 <= code < 0xE000) then code else 0xFFFD
  }

  function ParseUnicode(b: seq<byte>, at: nat): (r: Result<(scalar, nat)>)
    requires at <= |b|
    ensures r.Ok? ==> at < r.value.1 <= |b|
  {
    var (code, next) :- ParseHex4(b, at);
    if 0xD800 <= code < 0xDC00 then
      if !Peeks(b, next, 92) || !Peeks(b, next + 1, 117) then Err(UnexpectedByte)
      else
        var (low, end) :- ParseHex4(b, next + 2);
        Ok((ScalarOr(0x1_0000 + (code - 0xD800) * 0x400 + if low < 0xDC00 then 0 else low - 0xDC00), end))
    else Ok((ScalarOr(code), next))
  }

  /** The character after a backslash. */
  function ParseEscape(b: seq<byte>, at: nat): (r: Result<(scalar, nat)>)
    requires at <= |b|
    ensures r.Ok? ==> at < r.value.1 <= |b|
  {
    if at >= |b| then Err(UnexpectedEnd)
    else
      var e := b[at];
      if e == 34 then Ok((34, at + 1))
      else if e == 92 then Ok((92, at + 1))
      else if e == 47 then Ok((47, at + 1))
      else if e == 98 then Ok((8, at + 1))
      else if e == 102 then Ok((12, at + 1))
      else if e == 110 then Ok((10, at + 1))
      else if e == 114 then Ok((13, at + 1))
      else if e == 116 then Ok((9, at + 1))
      else if e == 117 then ParseUnicode(b, at + 1)
      else Err(BadEscape)
  }

  /** A character that stands for itself. */
  function ParseRaw(b: seq<byte>, at: nat): (r: Result<(scalar, nat)>)
    requires at < |b|
    ensures r.Ok? ==> at < r.value.1 <= |b|
  {
    match Extra(b[at])
    case None => Err(BadUtf8)
    case Some(extra) =>
      if at + extra + 1 > |b| then Err(BadUtf8)
      else match Utf8.Decode(b[at..at + extra + 1])
        case None => Err(BadUtf8)
        case Some(c) => Ok((c, at + extra + 1))
  }

  function ParseChars(b: seq<byte>, at: nat, text: seq<scalar>): (r: Result<(seq<scalar>, nat)>)
    requires at <= |b|
    ensures r.Ok? ==> at < r.value.1 <= |b|
    decreases |b| - at
  {
    if at >= |b| then Err(UnexpectedEnd)
    else if b[at] == 34 then Ok((text, at + 1))
    else if b[at] == 92 then
      var (c, next) :- ParseEscape(b, at + 1);
      ParseChars(b, next, text + [c])
    else if b[at] < 0x20 then Err(ControlCharacter)
    else
      var (c, next) :- ParseRaw(b, at);
      ParseChars(b, next, text + [c])
  }

  function ParseString(b: seq<byte>, at: nat): (r: Result<(seq<scalar>, nat)>)
    requires at <= |b|
    ensures r.Ok? ==> at < r.value.1 <= |b|
  {
    if !Peeks(b, at, 34) then Err(UnexpectedByte) else ParseChars(b, at + 1, [])
  }

  predicate IsDigit(b: byte) {
    48 <= b <= 57
  }

  predicate NumberByte(b: byte) {
    IsDigit(b) || b == 46 || b == 101 || b == 69 || b == 43 || b == 45
  }

  function NumberEnd(b: seq<byte>, at: nat): (r: nat)
    requires at <= |b|
    ensures at <= r <= |b|
    decreases |b| - at
  {
    if at < |b| && NumberByte(b[at]) then NumberEnd(b, at + 1) else at
  }

  function DigitsValue(s: seq<byte>): Option<nat> {
    if s == [] then Some(0)
    else if !IsDigit(s[|s| - 1]) then None
    else match DigitsValue(s[..|s| - 1])
      case Some(high) => Some(10 * high + (s[|s| - 1] as int - 48))
      case None => None
  }

  /** The number a text of number bytes spells; what is not an integer of the model is left out. */
  function NumberOf(text: seq<byte>): Result<number> {
    var negative := text != [] && text[0] == 45;
    var digits := if negative then text[1..] else text;
    if digits == [] then Err(BadNumber)
    else match DigitsValue(digits)
      case None => Err(BeyondTheModel)
      case Some(n) =>
        var value: int := n;
        if value >= LIMIT then Err(BeyondTheModel) else Ok(if negative then -value else value)
  }

  function ParseNumber(b: seq<byte>, at: nat): (r: Result<(Value, nat)>)
    requires at < |b| && (b[at] == 45 || IsDigit(b[at]))
    ensures r.Ok? ==> at < r.value.1 <= |b|
  {
    var end := NumberEnd(b, if b[at] == 45 then at + 1 else at);
    var n :- NumberOf(b[at..end]);
    Ok((Number(n), end))
  }

  function ParseValue(b: seq<byte>, at: nat): (r: Result<(Value, nat)>)
    requires at <= |b|
    ensures r.Ok? ==> at < r.value.1 <= |b|
    decreases |b| - at, 1
  {
    if at >= |b| then Err(UnexpectedEnd)
    else if b[at] == 123 then
      var next := SkipSpace(b, at + 1);
      if Peeks(b, next, 125) then Ok((Object([]), next + 1)) else ParseEntries(b, next, [])
    else if b[at] == 91 then
      var next := SkipSpace(b, at + 1);
      if Peeks(b, next, 93) then Ok((Array([]), next + 1)) else ParseItems(b, next, [])
    else if b[at] == 34 then
      var (text, next) :- ParseString(b, at);
      Ok((String(text), next))
    else if b[at] == 116 then ParseLiteral(b, at, TRUE, Bool(true))
    else if b[at] == 102 then ParseLiteral(b, at, FALSE, Bool(false))
    else if b[at] == 110 then ParseLiteral(b, at, NULL, Null)
    else if b[at] == 45 || IsDigit(b[at]) then ParseNumber(b, at)
    else Err(UnexpectedByte)
  }

  function ParseItems(b: seq<byte>, at: nat, items: seq<Value>): (r: Result<(Value, nat)>)
    requires at <= |b|
    ensures r.Ok? ==> at < r.value.1 <= |b|
    decreases |b| - at, 2
  {
    var (v, next) :- ParseValue(b, SkipSpace(b, at));
    var end := SkipSpace(b, next);
    if Peeks(b, end, 44) then ParseItems(b, end + 1, items + [v])
    else if Peeks(b, end, 93) then Ok((Array(items + [v]), end + 1))
    else Err(UnexpectedByte)
  }

  function ParseEntries(b: seq<byte>, at: nat, entries: seq<Entry>): (r: Result<(Value, nat)>)
    requires at <= |b|
    ensures r.Ok? ==> at < r.value.1 <= |b|
    decreases |b| - at, 2
  {
    var (key, afterKey) :- ParseString(b, SkipSpace(b, at));
    var colon := SkipSpace(b, afterKey);
    if !Peeks(b, colon, 58) then Err(UnexpectedByte)
    else
      var (v, next) :- ParseValue(b, SkipSpace(b, colon + 1));
      var end := SkipSpace(b, next);
      if Peeks(b, end, 44) then ParseEntries(b, end + 1, entries + [Entry(key, v)])
      else if Peeks(b, end, 125) then Ok((Object(entries + [Entry(key, v)]), end + 1))
      else Err(UnexpectedByte)
  }

  function Parse(b: seq<byte>): Result<Value> {
    var (v, next) :- ParseValue(b, SkipSpace(b, 0));
    if SkipSpace(b, next) != |b| then Err(TrailingText) else Ok(v)
  }

  // ----- the parser

  class Parser {
    const bytes: seq<byte>
    var at: nat

    constructor (bytes: seq<byte>)
      ensures this.bytes == bytes && at == 0
    {
      this.bytes := bytes;
      this.at := 0;
    }

    method Skip()
      requires at <= |bytes|
      modifies this
      ensures at == SkipSpace(bytes, old(at))
    {
      while at < |bytes| && IsSpace(bytes[at])
        invariant old(at) <= at <= |bytes|
        invariant SkipSpace(bytes, old(at)) == SkipSpace(bytes, at)
      {
        at := at + 1;
      }
    }

    method Literal(word: seq<byte>, v: Value) returns (r: Result<Value>)
      requires at <= |bytes|
      modifies this
      ensures Reads(r, ParseLiteral(bytes, old(at), word, v))
    {
      if at + |word| <= |bytes| && bytes[at..at + |word|] == word {
        at := at + |word|;
        return Ok(v);
      }
      return Err(BadLiteral);
    }

    /** The answer is the specified one, and on success the parser stands where it ends. */
    predicate Reads<T(==)>(r: Result<T>, spec: Result<(T, nat)>)
      reads this
    {
      match spec
      case Ok((v, end)) => r == Ok(v) && at == end
      case Err(e) => r == Err(e)
    }

    method Hex4() returns (r: Result<nat>)
      requires at <= |bytes|
      modifies this
      ensures Reads(r, ParseHex4(bytes, old(at)))
    {
      if at + 4 > |bytes| {
        return Err(BadEscape);
      }
      var text := bytes[at..at + 4];
      var code := HexNumber(if text[0] == 43 then text[1..] else text);
      if code.None? {
        return Err(BadEscape);
      }
      at := at + 4;
      return Ok(code.value);
    }

    method Unicode() returns (r: Result<scalar>)
      requires at <= |bytes|
      modifies this
      ensures Reads(r, ParseUnicode(bytes, old(at)))
    {
      hide HexNumber;
      var code := Hex4();
      if code.Err? {
        return Err(code.error);
      }
      if 0xD800 <= code.value < 0xDC00 {
        if !Peeks(bytes, at, 92) {
          return Err(UnexpectedByte);
        }
        at := at + 1;
        if !Peeks(bytes, at, 117) {
          return Err(UnexpectedByte);
        }
        at := at + 1;
        var low := Hex4();
        if low.Err? {
          return Err(low.error);
        }
        return Ok(ScalarOr(0x1_0000 + (code.value - 0xD800) * 0x400
                           + if low.value < 0xDC00 then 0 else low.value - 0xDC00));
      }
      return Ok(ScalarOr(code.value));
    }

    method Escape() returns (r: Result<scalar>)
      requires at <= |bytes|
      modifies this
      ensures Reads(r, ParseEscape(bytes, old(at)))
    {
      hide ParseUnicode;
      if at >= |bytes| {
        return Err(UnexpectedEnd);
      }
      var e := bytes[at];
      at := at + 1;
      if e == 34 || e == 92 || e == 47 {
        return Ok(e);
      } else if e == 98 {
        return Ok(8);
      } else if e == 102 {
        return Ok(12);
      } else if e == 110 {
        return Ok(10);
      } else if e == 114 {
        return Ok(13);
      } else if e == 116 {
        return Ok(9);
      } else if e == 117 {
        r := Unicode();
        return;
      }
      return Err(BadEscape);
    }

    method Text() returns (r: Result<seq<scalar>>)
      requires at <= |bytes|
      modifies this
      ensures Reads(r, ParseString(bytes, old(at)))
    {
      hide ParseEscape, ParseRaw, Utf8.Decode;
      if !Peeks(bytes, at, 34) {
        return Err(UnexpectedByte);
      }
      at := at + 1;
      ghost var start := at;
      var text: seq<scalar> := [];
      while true
        invariant start <= at <= |bytes|
        invariant ParseChars(bytes, start, []) == ParseChars(bytes, at, text)
        decreases |bytes| - at
      {
        if at >= |bytes| {
          return Err(UnexpectedEnd);
        }
        if bytes[at] == 34 {
          at := at + 1;
          return Ok(text);
        }
        if bytes[at] == 92 {
          at := at + 1;
          var c := Escape();
          if c.Err? {
            return Err(c.error);
          }
          text := text + [c.value];
        } else if bytes[at] < 0x20 {
          return Err(ControlCharacter);
        } else {
          var raw := ParseRaw(bytes, at);
          if raw.Err? {
            return Err(raw.error);
          }
          text := text + [raw.value.0];
          at := raw.value.1;
        }
      }
    }

    method NumberValue() returns (r: Result<Value>)
      requires at < |bytes| && (bytes[at] == 45 || IsDigit(bytes[at]))
      modifies this
      ensures Reads(r, ParseNumber(bytes, old(at)))
    {
      hide NumberOf;
      var start := at;
      if bytes[at] == 45 {
        at := at + 1;
      }
      ghost var first := at;
      while at < |bytes| && NumberByte(bytes[at])
        invariant first <= at <= |bytes|
        invariant NumberEnd(bytes, first) == NumberEnd(bytes, at)
      {
        at := at + 1;
      }
      var n := NumberOf(bytes[start..at]);
      if n.Err? {
        return Err(n.error);
      }
      return Ok(Number(n.value));
    }

    method AnyValue() returns (r: Result<Value>)
      requires at <= |bytes|
      modifies this
      ensures Reads(r, ParseValue(bytes, old(at)))
      decreases |bytes| - at, 1
    {
      hide ParseEntries, ParseItems, ParseString, ParseNumber, ParseLiteral;
      if at >= |bytes| {
        return Err(UnexpectedEnd);
      }
      var c := bytes[at];
      if c == 123 {
        at := at + 1;
        Skip();
        if Peeks(bytes, at, 125) {
          at := at + 1;
          return Ok(Object([]));
        }
        r := Entries();
      } else if c == 91 {
        at := at + 1;
        Skip();
        if Peeks(bytes, at, 93) {
          at := at + 1;
          return Ok(Array([]));
        }
        r := Items();
      } else if c == 34 {
        var text := Text();
        if text.Err? {
          return Err(text.error);
        }
        return Ok(String(text.value));
      } else if c == 116 {
        r := Literal(TRUE, Bool(true));
      } else if c == 102 {
        r := Literal(FALSE, Bool(false));
      } else if c == 110 {
        r := Literal(NULL, Null);
      } else if c == 45 || IsDigit(c) {
        r := NumberValue();
      } else {
        return Err(UnexpectedByte);
      }
    }

    method Items() returns (r: Result<Value>)
      requires at <= |bytes|
      modifies this
      ensures Reads(r, ParseItems(bytes, old(at), []))
      decreases |bytes| - at, 2
    {
      hide ParseValue, ParseEntries, SkipSpace;
      ghost var start := at;
      var items: seq<Value> := [];
      while true
        invariant start <= at <= |bytes|
        invariant ParseItems(bytes, start, []) == ParseItems(bytes, at, items)
        decreases |bytes| - at
      {
        Skip();
        var v := AnyValue();
        if v.Err? {
          return Err(v.error);
        }
        items := items + [v.value];
        Skip();
        if Peeks(bytes, at, 44) {
          at := at + 1;
        } else if Peeks(bytes, at, 93) {
          at := at + 1;
          return Ok(Array(items));
        } else {
          return Err(UnexpectedByte);
        }
      }
    }

    method Entries() returns (r: Result<Value>)
      requires at <= |bytes|
      modifies this
      ensures Reads(r, ParseEntries(bytes, old(at), []))
      decreases |bytes| - at, 2
    {
      hide ParseValue, ParseItems, ParseString, SkipSpace;
      ghost var start := at;
      var entries: seq<Entry> := [];
      while true
        invariant start <= at <= |bytes|
        invariant ParseEntries(bytes, start, []) == ParseEntries(bytes, at, entries)
        decreases |bytes| - at
      {
        Skip();
        var key := Text();
        if key.Err? {
          return Err(key.error);
        }
        Skip();
        if !Peeks(bytes, at, 58) {
          return Err(UnexpectedByte);
        }
        at := at + 1;
        Skip();
        var v := AnyValue();
        if v.Err? {
          return Err(v.error);
        }
        entries := entries + [Entry(key.value, v.value)];
        Skip();
        if Peeks(bytes, at, 44) {
          at := at + 1;
        } else if Peeks(bytes, at, 125) {
          at := at + 1;
          return Ok(Object(entries));
        } else {
          return Err(UnexpectedByte);
        }
      }
    }
  }

  /** `parse`: terminates on every input, by the bytes that remain. */
  method ParseText(bytes: seq<byte>) returns (r: Result<Value>)
    ensures r == Parse(bytes)
  {
    hide ParseValue;
    var p := new Parser(bytes);
    p.Skip();
    r := p.AnyValue();
    if r.Ok? {
      p.Skip();
      if p.at != |bytes| {
        r := Err(TrailingText);
      }
    }
  }
}
