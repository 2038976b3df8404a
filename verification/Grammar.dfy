/** What the JSON reader accepts (crates/core/src/json.rs): exactly the texts of this grammar, which is that of RFC 8259
    but for numbers beyond the model, leading zeros, and the leniency of the reader about `\u` escapes. */
module Grammar {
  import opened Outcome
  import opened Bytes
  import opened Utf8
  import opened Json

  import RoundTrip

  // ----- the grammar

  /** Only spaces, tabs, line feeds and carriage returns from `i` to `j`. */
  predicate Blank(b: seq<byte>, i: nat, j: nat) {
    i <= j <= |b| && forall k :: i <= k < j ==> b[k] in {0x20, 0x09, 0x0A, 0x0D}
  }

  /** The byte is the hexadecimal digit of `n`, in either case. */
  predicate Nibble(d: byte, n: nat) {
    n < 16 && (d == "0123456789abcdef"[n] as int || d == "0123456789ABCDEF"[n] as int)
  }

  /** At `p` stand the hexadecimal digits of these four numbers, or a plus sign for a zero and three digits. */
  predicate HexDigits(b: seq<byte>, p: nat, h0: nat, h1: nat, h2: nat, h3: nat) {
    && p + 4 <= |b| && (Nibble(b[p], h0) || (b[p] == '+' as int && h0 == 0))
    && Nibble(b[p + 1], h1) && Nibble(b[p + 2], h2) && Nibble(b[p + 3], h3)
  }

  ghost predicate HexAt(b: seq<byte>, p: nat, n: nat) {
    exists h0: nat, h1: nat, h2: nat, h3: nat ::
      HexDigits(b, p, h0, h1, h2, h3) && n == 0x1000 * h0 + 0x100 * h1 + 0x10 * h2 + h3
  }

  predicate IsScalar(n: int) {
    0 <= n < 0x11_0000 && !(0xD800 <= n < 0xE000)
  }

  /** The letter behind a backslash, and the character it stands for. */
  predicate ShortEscape(e: byte, c: scalar) {
    || (e == '\"' as int && c == 0x22) || (e == '\\' as int && c == 0x5C) || (e == '/' as int && c == 0x2F)
    || (e == 'b' as int && c == 0x08) || (e == 'f' as int && c == 0x0C) || (e == 'n' as int && c == 0x0A)
    || (e == 'r' as int && c == 0x0D) || (e == 't' as int && c == 0x09)
  }

  predicate StartsUnicode(b: seq<byte>, at: nat) {
    at + 2 <= |b| && b[at] == '\\' as int && b[at + 1] == 'u' as int
  }

  /** `\u` and the number of a character; of a lone low surrogate comes the replacement character. */
  ghost predicate SingleUnicode(b: seq<byte>, at: nat, end: nat, c: scalar) {
    && StartsUnicode(b, at) && end == at + 6
    && exists n: nat :: HexAt(b, at + 2, n) && IsSingle(n, c)
  }

  predicate IsSingle(n: nat, c: scalar) {
    !(0xD800 <= n < 0xDC00) && c == if IsScalar(n) then n else 0xFFFD
  }

  /** Two escapes for a character past 0xFFFF: a high surrogate, and a low one, of which one below 0xDC00 counts as
      0xDC00 and one past the last makes the replacement character where it leads out of Unicode. */
  ghost predicate DoubleUnicode(b: seq<byte>, at: nat, end: nat, c: scalar) {
    && StartsUnicode(b, at) && StartsUnicode(b, at + 6) && end == at + 12
    && exists high: nat, low: nat :: IsPair(b, at, high, low, c)
  }

  ghost predicate IsPair(b: seq<byte>, at: nat, high: nat, low: nat, c: scalar) {
    && HexAt(b, at + 2, high) && HexAt(b, at + 8, low) && 0xD800 <= high < 0xDC00
    && var n := 0x1_0000 + 0x400 * (high - 0xD800) + if low < 0xDC00 then 0 else low - 0xDC00;
       c == if IsScalar(n) then n else 0xFFFD
  }

  /** From `at` to `end` the character `c` is written: as itself, or escaped. */
  ghost predicate CharSpans(b: seq<byte>, at: nat, end: nat, c: scalar) {
    || (c >= 0x20 && c != 0x22 && c != 0x5C && at <= end <= |b| && b[at..end] == Encode(c))
    || (end == at + 2 <= |b| && b[at] == '\\' as int && ShortEscape(b[at + 1], c))
    || SingleUnicode(b, at, end, c)
    || DoubleUnicode(b, at, end, c)
  }

  /** Characters up to a closing quotation mark. */
  ghost predicate CharsSpan(b: seq<byte>, at: nat, end: nat, text: seq<scalar>)
    decreases text
  {
    if text == [] then at < |b| && b[at] == '\"' as int && end == at + 1
    else exists mid: nat :: CharSpans(b, at, mid, text[0]) && CharsSpan(b, mid, end, text[1..])
  }

  ghost predicate TextSpans(b: seq<byte>, at: nat, end: nat, text: seq<scalar>) {
    at < |b| && b[at] == '\"' as int && CharsSpan(b, at + 1, end, text)
  }

  predicate IsNumeral(d: byte) {
    0x30 <= d <= 0x39
  }

  function Amount(b: seq<byte>, at: nat, end: nat): nat
    requires at <= end <= |b| && forall k :: at <= k < end ==> IsNumeral(b[k])
    decreases end - at
  {
    if at == end then 0
    else
      assert IsNumeral(b[end - 1]);
      10 * Amount(b, at, end - 1) + (b[end - 1] as int - 0x30)
  }

  /** No digit and no other byte a number could go on with. */
  predicate EndsNumber(b: seq<byte>, end: nat) {
    end < |b| ==> !IsNumeral(b[end]) && b[end] !in {'.' as int, 'e' as int, 'E' as int, '+' as int, '-' as int}
  }

  /** A minus sign or none, and digits. */
  predicate NumberSpans(b: seq<byte>, at: nat, end: nat, n: number) {
    && at < end <= |b|
    && var first := if b[at] == '-' as int then at + 1 else at;
       && first < end && (forall k :: first <= k < end ==> IsNumeral(b[k])) && EndsNumber(b, end)
       && var amount: int := Amount(b, first, end);
          n == if b[at] == '-' as int then -amount else amount
  }

  predicate WordSpans(b: seq<byte>, at: nat, end: nat, word: string)
    requires forall k :: 0 <= k < |word| ==> word[k] as int < 0x80
  {
    end == at + |word| <= |b| && forall k :: 0 <= k < |word| ==> b[at + k] == word[k] as int
  }

  ghost predicate ValueSpans(b: seq<byte>, at: nat, end: nat, v: Value)
    decreases v, 0
  {
    match v
    case Null => WordSpans(b, at, end, "null")
    case Bool(on) => if on then WordSpans(b, at, end, "true") else WordSpans(b, at, end, "false")
    case Number(n) => NumberSpans(b, at, end, n)
    case String(text) => TextSpans(b, at, end, text)
    case Array(items) =>
      at < |b| && b[at] == '[' as int
      && if items == [] then Closes(b, at + 1, end, ']') else ItemsSpan(b, at + 1, end, items)
    case Object(entries) =>
      at < |b| && b[at] == '{' as int
      && if entries == [] then Closes(b, at + 1, end, '}') else EntriesSpan(b, at + 1, end, entries)
  }

  /** Spaces and a closing bracket. */
  predicate Closes(b: seq<byte>, at: nat, end: nat, close: char)
    requires close as int < 0x80
  {
    0 < end <= |b| && Blank(b, at, end - 1) && b[end - 1] == close as int
  }

  /** Values between spaces, with commas between them, and a closing bracket. */
  ghost predicate ItemsSpan(b: seq<byte>, at: nat, end: nat, items: seq<Value>)
    requires items != []
    decreases items, 1
  {
    exists i: nat, j: nat, k: nat :: ItemSpans(b, at, i, j, k, end, items)
  }

  ghost predicate ItemSpans(b: seq<byte>, at: nat, i: nat, j: nat, k: nat, end: nat, items: seq<Value>)
    requires items != []
    decreases items, 0
  {
    && Blank(b, at, i) && ValueSpans(b, i, j, items[0]) && Blank(b, j, k) && k < |b|
    && if |items| == 1 then b[k] == ']' as int && end == k + 1
       else b[k] == ',' as int && ItemsSpan(b, k + 1, end, items[1..])
  }

  ghost predicate EntriesSpan(b: seq<byte>, at: nat, end: nat, entries: seq<Entry>)
    requires entries != []
    decreases entries, 1
  {
    exists p: nat, q: nat, r: nat, i: nat, j: nat, k: nat :: EntrySpans(b, at, p, q, r, i, j, k, end, entries)
  }

  /** A key from `p` to `q`, a colon at `r`, its value from `i` to `j`, and at `k` a comma or the closing brace. */
  ghost predicate EntrySpans(b: seq<byte>, at: nat, p: nat, q: nat, r: nat, i: nat, j: nat, k: nat, end: nat,
                             entries: seq<Entry>)
    requires entries != []
    decreases entries, 0
  {
    && Blank(b, at, p) && TextSpans(b, p, q, entries[0].key) && Blank(b, q, r) && r < |b| && b[r] == ':' as int
    && Blank(b, r + 1, i) && ValueSpans(b, i, j, entries[0].value) && Blank(b, j, k) && k < |b|
    && if |entries| == 1 then b[k] == '}' as int && end == k + 1
       else b[k] == ',' as int && EntriesSpan(b, k + 1, end, entries[1..])
  }

  /** A whole text: one value between spaces. */
  ghost predicate Spells(b: seq<byte>, v: Value) {
    exists i: nat, j: nat :: Blank(b, 0, i) && ValueSpans(b, i, j, v) && Blank(b, j, |b|)
  }

  // ----- spaces

  lemma {:induction false} SkipIsBlank(b: seq<byte>, at: nat)
    requires at <= |b|
    ensures Blank(b, at, SkipSpace(b, at))
    decreases |b| - at
  {
    if at < |b| && IsSpace(b[at]) {
      SkipIsBlank(b, at + 1);
    }
  }

  lemma {:induction false} BlankIsSkipped(b: seq<byte>, i: nat, j: nat)
    requires Blank(b, i, j) && (j < |b| ==> !IsSpace(b[j]))
    ensures SkipSpace(b, i) == j
    decreases j - i
  {
    if i < j {
      BlankIsSkipped(b, i + 1, j);
    }
  }

  // ----- characters

  lemma {:induction false} NibbleExactly(d: byte, n: nat)
    ensures Nibble(d, n) <==> HexValue(d) == Some(n)
  {
  }

  /** Three digits by value. */
  lemma {:induction false} HexOfThree(s: seq<byte>, n: nat)
    requires |s| == 3
    ensures HexNumber(s) == Some(n)
       <==> && HexValue(s[0]).Some? && HexValue(s[1]).Some? && HexValue(s[2]).Some?
            && n == 0x100 * HexValue(s[0]).value + 0x10 * HexValue(s[1]).value + HexValue(s[2]).value
  {
    hide HexValue;
    var two, one := s[..2], s[..2][..1];
    assert two[1] == s[1] && one[0] == s[0] && one[..0] == [];
    assert HexNumber([]) == Some(0);
    assert HexNumber(one) == HexValue(s[0]);
  }

  lemma {:induction false} HexOfFour(s: seq<byte>, n: nat)
    requires |s| == 4
    ensures HexNumber(s) == Some(n)
       <==> && HexValue(s[0]).Some? && HexValue(s[1]).Some? && HexValue(s[2]).Some? && HexValue(s[3]).Some?
            && n == 0x1000 * HexValue(s[0]).value + 0x100 * HexValue(s[1]).value + 0x10 * HexValue(s[2]).value
                    + HexValue(s[3]).value
  {
    hide HexValue;
    var three := s[..3];
    assert three[0] == s[0] && three[1] == s[1] && three[2] == s[2];
    if HexNumber(three).Some? {
      HexOfThree(three, HexNumber(three).value);
    }
    if HexValue(s[0]).Some? && HexValue(s[1]).Some? && HexValue(s[2]).Some? {
      HexOfThree(three, 0x100 * HexValue(s[0]).value + 0x10 * HexValue(s[1]).value + HexValue(s[2]).value);
    }
  }

  lemma {:induction false} HexExactly(b: seq<byte>, p: nat, n: nat)
    requires p <= |b|
    ensures ParseHex4(b, p) == Ok((n, p + 4)) <==> HexAt(b, p, n)
  {
    hide HexNumber, HexValue, Nibble;
    if p + 4 <= |b| {
      var text := b[p..p + 4];
      var tail := text[1..];
      assert text[0] == b[p] && text[1] == b[p + 1] && text[2] == b[p + 2] && text[3] == b[p + 3];
      assert tail[0] == b[p + 1] && tail[1] == b[p + 2] && tail[2] == b[p + 3];
      PlusIsNoDigit();
      forall d: byte, m: nat
        ensures Nibble(d, m) <==> HexValue(d) == Some(m)
      {
        NibbleExactly(d, m);
      }
      var v0, v1, v2, v3 := HexValue(b[p]), HexValue(b[p + 1]), HexValue(b[p + 2]), HexValue(b[p + 3]);
      if b[p] == 43 {
        HexOfThree(tail, n);
        if v1.Some? && v2.Some? && v3.Some? {
          assert HexDigits(b, p, 0, v1.value, v2.value, v3.value);
        }
      } else {
        HexOfFour(text, n);
        if v0.Some? && v1.Some? && v2.Some? && v3.Some? {
          assert HexDigits(b, p, v0.value, v1.value, v2.value, v3.value);
        }
      }
    }
  }

  lemma {:induction false} PlusIsNoDigit()
    ensures HexValue(43) == None
  {
  }

  lemma {:induction false} HexInside(b: seq<byte>, p: nat, n: nat)
    ensures HexAt(b, p, n) ==> p + 4 <= |b|
  {
  }

  /** At one place stands one number or none, the one that is read. */
  lemma {:induction false} HexIs(b: seq<byte>, p: nat)
    requires p <= |b|
    ensures forall n: nat :: HexAt(b, p, n) <==> ParseHex4(b, p).Ok? && ParseHex4(b, p).value.0 == n
  {
    hide ParseHex4, HexAt;
    forall n: nat
      ensures HexAt(b, p, n) <==> ParseHex4(b, p).Ok? && ParseHex4(b, p).value.0 == n
    {
      HexExactly(b, p, n);
    }
  }

  lemma {:induction false} SingleExactly(b: seq<byte>, at: nat, end: nat, c: scalar)
    requires StartsUnicode(b, at)
    ensures var high := ParseHex4(b, at + 2);
      SingleUnicode(b, at, end, c)
      <==> high.Ok? && !(0xD800 <= high.value.0 < 0xDC00) && end == at + 6 && c == ScalarOr(high.value.0)
  {
    hide ParseHex4, HexAt;
    HexIs(b, at + 2);
    var high := ParseHex4(b, at + 2);
    if high.Ok? {
      assert HexAt(b, at + 2, high.value.0);
      assert IsSingle(high.value.0, c) <==> !(0xD800 <= high.value.0 < 0xDC00) && c == ScalarOr(high.value.0);
    }
    if n: nat :| HexAt(b, at + 2, n) && IsSingle(n, c) {
      assert n == high.value.0;
    }
  }

  lemma {:induction false} DoubleExactly(b: seq<byte>, at: nat, end: nat, c: scalar)
    requires StartsUnicode(b, at) && StartsUnicode(b, at + 6)
    ensures var high, low := ParseHex4(b, at + 2), ParseHex4(b, at + 8);
      DoubleUnicode(b, at, end, c)
      <==> high.Ok? && 0xD800 <= high.value.0 < 0xDC00 && low.Ok? && end == at + 12
           && c == ScalarOr(0x1_0000 + (high.value.0 - 0xD800) * 0x400
                            + if low.value.0 < 0xDC00 then 0 else low.value.0 - 0xDC00)
  {
    hide ParseHex4, HexAt;
    HexIs(b, at + 2);
    HexIs(b, at + 8);
    var high, low := ParseHex4(b, at + 2), ParseHex4(b, at + 8);
    if high.Ok? && low.Ok? {
      assert HexAt(b, at + 2, high.value.0) && HexAt(b, at + 8, low.value.0);
      assert IsPair(b, at, high.value.0, low.value.0, c)
        <==> 0xD800 <= high.value.0 < 0xDC00
             && c == ScalarOr(0x1_0000 + (high.value.0 - 0xD800) * 0x400
                              + if low.value.0 < 0xDC00 then 0 else low.value.0 - 0xDC00);
    }
  }

  lemma {:induction false} UnicodeExactly(b: seq<byte>, at: nat, end: nat, c: scalar)
    requires StartsUnicode(b, at)
    ensures ParseUnicode(b, at + 2) == Ok((c, end)) <==> SingleUnicode(b, at, end, c) || DoubleUnicode(b, at, end, c)
  {
    hide ParseHex4, SingleUnicode, ScalarOr;
    SingleExactly(b, at, end, c);
    if StartsUnicode(b, at + 6) {
      DoubleExactly(b, at, end, c);
    }
  }

  lemma {:induction false} EscapeExactly(b: seq<byte>, at: nat, end: nat, c: scalar)
    requires at < |b| && b[at] == 92
    ensures ParseEscape(b, at + 1) == Ok((c, end)) <==> CharSpans(b, at, end, c)
  {
    hide ParseUnicode, SingleUnicode, DoubleUnicode, Encode;
    UnicodeStarts(b, at, end, c);
    if c != 0x5C {
      PlainIsNoEscape(b, at, end, c);
    }
    if StartsUnicode(b, at) {
      UnicodeExactly(b, at, end, c);
    }
  }

  lemma {:induction false} UnicodeStarts(b: seq<byte>, at: nat, end: nat, c: scalar)
    ensures SingleUnicode(b, at, end, c) || DoubleUnicode(b, at, end, c) ==> StartsUnicode(b, at)
  {
    hide HexAt;
  }

  lemma {:induction false} PlainIsNoEscape(b: seq<byte>, at: nat, end: nat, c: scalar)
    requires at < |b| && b[at] == 92 && c != 0x5C
    ensures at <= end <= |b| ==> b[at..end] != Encode(c)
  {
    hide Encode;
    EncodedLead(c);
    if at < end <= |b| {
      assert b[at..end][0] == b[at];
    }
  }

  lemma {:induction false} RawExactly(b: seq<byte>, at: nat, end: nat, c: scalar)
    requires at < |b| && b[at] != 34 && b[at] != 92 && b[at] >= 0x20
    ensures ParseRaw(b, at) == Ok((c, end)) <==> CharSpans(b, at, end, c)
  {
    hide SingleUnicode, DoubleUnicode, Encode, Utf8.Decode, Extra;
    UnicodeStarts(b, at, end, c);
    if ParseRaw(b, at) == Ok((c, end)) {
      EncodeDecode(b[at..end]);
      EncodedLead(c);
      assert b[at..end][0] == b[at];
    }
    if at <= end <= |b| && b[at..end] == Encode(c) {
      DecodeEncode(c);
      assert b[at..end][0] == b[at];
    }
  }

  lemma {:induction false} EncodedLead(c: scalar)
    ensures Encode(c)[0] == c || Encode(c)[0] >= 0x80
    ensures c < 0x80 ==> Encode(c)[0] == c
  {
  }

  lemma {:induction false} NoControl(b: seq<byte>, at: nat, end: nat, c: scalar)
    requires at < |b| && (b[at] == 34 || b[at] < 0x20)
    ensures !CharSpans(b, at, end, c)
  {
    hide SingleUnicode, DoubleUnicode, Encode;
    UnicodeStarts(b, at, end, c);
    EncodedLead(c);
    if at <= end <= |b| && b[at..end] == Encode(c) {
      assert b[at..end][0] == b[at];
    }
  }

  lemma {:induction false} CharAdvances(b: seq<byte>, at: nat, end: nat, c: scalar)
    requires CharSpans(b, at, end, c)
    ensures at < end <= |b|
  {
    hide Encode;
    HexInside(b, at + 2, 0);
  }

  /** One turn of the character loop. */
  lemma {:induction false} CharStep(b: seq<byte>, at: nat, mid: nat, c: scalar, text: seq<scalar>)
    requires CharSpans(b, at, mid, c)
    ensures at < mid <= |b| && b[at] != 34 && ParseChars(b, at, text) == ParseChars(b, mid, text + [c])
  {
    hide CharSpans, ParseEscape, ParseRaw;
    CharAdvances(b, at, mid, c);
    if b[at] == 34 || b[at] < 0x20 {
      NoControl(b, at, mid, c);
    } else if b[at] == 92 {
      EscapeExactly(b, at, mid, c);
    } else {
      RawExactly(b, at, mid, c);
    }
  }

  lemma {:induction false} CharsRead(b: seq<byte>, at: nat, end: nat, text: seq<scalar>, done: seq<scalar>)
    requires CharsSpan(b, at, end, text)
    ensures at <= |b| && ParseChars(b, at, done) == Ok((done + text, end))
    decreases text
  {
    hide CharSpans, ParseEscape, ParseRaw;
    if text == [] {
      assert done + [] == done;
    } else {
      var mid: nat :| CharSpans(b, at, mid, text[0]) && CharsSpan(b, mid, end, text[1..]);
      CharStep(b, at, mid, text[0], done);
      CharsRead(b, mid, end, text[1..], done + [text[0]]);
      assert done + [text[0]] + text[1..] == done + text;
    }
  }

  lemma {:induction false} ReadChars(b: seq<byte>, at: nat, done: seq<scalar>)
    requires at <= |b| && ParseChars(b, at, done).Ok?
    ensures var (r, end) := ParseChars(b, at, done).value;
      |done| <= |r| && r[..|done|] == done && CharsSpan(b, at, end, r[|done|..])
    decreases |b| - at
  {
    hide CharSpans, ParseEscape, ParseRaw;
    var (r, end) := ParseChars(b, at, done).value;
    if b[at] != 34 {
      var (c, mid) := if b[at] == 92 then ParseEscape(b, at + 1).value else ParseRaw(b, at).value;
      if b[at] == 92 {
        EscapeExactly(b, at, mid, c);
      } else {
        RawExactly(b, at, mid, c);
      }
      ReadChars(b, mid, done + [c]);
      assert r[..|done|] == r[..|done| + 1][..|done|];
      assert r[|done|] == r[..|done| + 1][|done|] == c;
      assert r[|done|..][0] == c && r[|done|..][1..] == r[|done| + 1..];
    }
  }

  lemma {:induction false} TextExactly(b: seq<byte>, at: nat, end: nat, text: seq<scalar>)
    requires at <= |b|
    ensures ParseString(b, at) == Ok((text, end)) <==> TextSpans(b, at, end, text)
  {
    hide ParseChars, CharsSpan;
    if TextSpans(b, at, end, text) {
      CharsRead(b, at + 1, end, text, []);
      assert [] + text == text;
    }
    if ParseString(b, at) == Ok((text, end)) {
      ReadChars(b, at + 1, []);
      assert text[0..] == text;
    }
  }

  // ----- numbers

  lemma {:induction false} AmountExactly(b: seq<byte>, at: nat, end: nat)
    requires at <= end <= |b|
    ensures DigitsValue(b[at..end]).Some? <==> forall k :: at <= k < end ==> IsNumeral(b[k])
    ensures DigitsValue(b[at..end]).Some? ==> DigitsValue(b[at..end]) == Some(Amount(b, at, end))
    decreases end - at
  {
    if at < end {
      AmountExactly(b, at, end - 1);
      var s := b[at..end];
      assert s[..|s| - 1] == b[at..end - 1] && s[|s| - 1] == b[end - 1];
    }
  }

  lemma {:induction false} NumberStops(b: seq<byte>, at: nat)
    requires at <= |b|
    ensures var end := NumberEnd(b, at); EndsNumber(b, end) && forall k :: at <= k < end ==> NumberByte(b[k])
    decreases |b| - at
  {
    if at < |b| && NumberByte(b[at]) {
      NumberStops(b, at + 1);
    }
  }

  lemma {:induction false} NumberRuns(b: seq<byte>, at: nat, end: nat)
    requires at <= end <= |b| && (forall k :: at <= k < end ==> IsNumeral(b[k])) && EndsNumber(b, end)
    ensures NumberEnd(b, at) == end
    decreases end - at
  {
    if at < end {
      NumberRuns(b, at + 1, end);
    }
  }

  lemma {:induction false} NumberExactly(b: seq<byte>, at: nat, end: nat, n: number)
    requires at < |b| && (b[at] == 45 || IsDigit(b[at]))
    ensures ParseNumber(b, at) == Ok((Number(n), end)) <==> NumberSpans(b, at, end, n)
  {
    hide DigitsValue, NumberEnd, Amount, EndsNumber;
    var first := if b[at] == 45 then at + 1 else at;
    var stop := NumberEnd(b, first);
    NumberStops(b, first);
    AmountExactly(b, first, stop);
    var text := b[at..stop];
    assert at < stop ==> text[0] == b[at];
    assert (if text != [] && text[0] == 45 then text[1..] else text) == b[first..stop];
    if NumberSpans(b, at, end, n) {
      NumberRuns(b, first, end);
    }
  }

  // ----- values

  lemma {:induction false} WordExactly(b: seq<byte>, at: nat, end: nat, word: string, bytes: seq<byte>, v: Value)
    requires at <= |b| && |bytes| == |word| && forall k :: 0 <= k < |word| ==> bytes[k] == word[k] as int < 0x80
    ensures ParseLiteral(b, at, bytes, v) == Ok((v, end)) <==> WordSpans(b, at, end, word)
    ensures ParseLiteral(b, at, bytes, v).Ok? ==> ParseLiteral(b, at, bytes, v).value.0 == v
  {
    if at + |bytes| <= |b| {
      var s := b[at..at + |bytes|];
      if s == bytes {
        forall k | 0 <= k < |word|
          ensures b[at + k] == word[k] as int
        {
          assert s[k] == b[at + k];
        }
      }
      if forall k :: 0 <= k < |word| ==> b[at + k] == word[k] as int {
        assert s == bytes;
      }
    }
  }

  /** How a value starts. */
  lemma {:induction false} ValueStarts(b: seq<byte>, at: nat, end: nat, v: Value)
    requires ValueSpans(b, at, end, v)
    ensures at < |b| && !IsSpace(b[at]) && b[at] != 93 && b[at] != 125
  {
    hide ItemsSpan, EntriesSpan, CharsSpan;
    match v {
      case Null => assert "null"[0] == 'n'; assert b[at + 0] == 110;
      case Bool(on) => assert "true"[0] == 't' && "false"[0] == 'f'; assert b[at + 0] == 116 || b[at + 0] == 102;
      case Number(n) =>
      case String(text) =>
      case Array(items) =>
      case Object(entries) =>
    }
  }

  lemma {:induction false} CloseExactly(b: seq<byte>, at: nat, end: nat, close: char)
    requires at <= |b| && (close == ']' || close == '}')
    ensures Closes(b, at, end, close) <==> end == SkipSpace(b, at) + 1 && Peeks(b, SkipSpace(b, at), close as int)
  {
    hide Blank, SkipSpace;
    SkipIsBlank(b, at);
    if Closes(b, at, end, close) {
      BlankIsSkipped(b, at, end - 1);
    }
  }

  /** The parser reads what the grammar writes. */
  lemma {:induction false} Reads(b: seq<byte>, at: nat, end: nat, v: Value)
    requires ValueSpans(b, at, end, v)
    ensures at <= |b| && ParseValue(b, at) == Ok((v, end))
    decreases v, 0
  {
    hide ParseItems, ParseEntries, SkipSpace, ItemsSpan, EntriesSpan, TextSpans, NumberSpans, WordSpans, Closes,
         ParseString, ParseNumber, ParseLiteral;
    ValueStarts(b, at, end, v);
    match v {
      case Null => ReadsPlain(b, at, end, v);
      case Bool(on) => ReadsPlain(b, at, end, v);
      case Number(n) => ReadsPlain(b, at, end, v);
      case String(text) => ReadsPlain(b, at, end, v);
      case Array(items) =>
        if items == [] {
          CloseExactly(b, at + 1, end, ']');
        } else {
          ItemsStart(b, at + 1, end, items);
          RoundTrip.SkipTwice(b, at + 1);
          ReadsItems(b, SkipSpace(b, at + 1), at + 1, end, items, []);
          assert [] + items == items;
        }
      case Object(entries) =>
        if entries == [] {
          CloseExactly(b, at + 1, end, '}');
        } else {
          EntriesStart(b, at + 1, end, entries);
          RoundTrip.SkipTwice(b, at + 1);
          ReadsEntries(b, SkipSpace(b, at + 1), at + 1, end, entries, []);
          assert [] + entries == entries;
        }
    }
  }

  lemma {:induction false} ReadsPlain(b: seq<byte>, at: nat, end: nat, v: Value)
    requires !v.Array? && !v.Object? && at < |b| && ValueSpans(b, at, end, v)
    ensures ParseValue(b, at) == Ok((v, end))
  {
    hide CharsSpan, ParseString, ParseNumber, ParseLiteral, SkipSpace, Amount;
    match v {
      case Null =>
        WordExactly(b, at, end, "null", NULL, v);
        assert b[at + 0] == "null"[0] as int;
      case Bool(on) =>
        if on {
          WordExactly(b, at, end, "true", TRUE, v);
          assert b[at + 0] == "true"[0] as int;
        } else {
          WordExactly(b, at, end, "false", FALSE, v);
          assert b[at + 0] == "false"[0] as int;
        }
      case Number(n) => NumberExactly(b, at, end, n);
      case String(text) => TextExactly(b, at, end, text);
    }
  }

  lemma {:induction false} ItemsStart(b: seq<byte>, at: nat, end: nat, items: seq<Value>)
    requires items != [] && ItemsSpan(b, at, end, items)
    ensures at <= |b| && !Peeks(b, SkipSpace(b, at), 93)
  {
    hide ValueSpans, SkipSpace;
    var i: nat, j: nat, k: nat :| ItemSpans(b, at, i, j, k, end, items);
    ValueStarts(b, i, j, items[0]);
    BlankIsSkipped(b, at, i);
  }

  lemma {:induction false} EntriesStart(b: seq<byte>, at: nat, end: nat, entries: seq<Entry>)
    requires entries != [] && EntriesSpan(b, at, end, entries)
    ensures at <= |b| && !Peeks(b, SkipSpace(b, at), 125)
  {
    hide ValueSpans, SkipSpace, CharsSpan;
    var p: nat, q: nat, r: nat, i: nat, j: nat, k: nat :| EntrySpans(b, at, p, q, r, i, j, k, end, entries);
    BlankIsSkipped(b, at, p);
  }

  lemma {:induction false} ReadsItems(b: seq<byte>, from: nat, at: nat, end: nat, items: seq<Value>, done: seq<Value>)
    requires items != [] && ItemsSpan(b, at, end, items)
    requires at <= |b| && from <= |b| && SkipSpace(b, from) == SkipSpace(b, at)
    ensures ParseItems(b, from, done) == Ok((Array(done + items), end))
    decreases items, 0
  {
    hide ParseValue, ParseEntries, SkipSpace, ValueSpans;
    var i: nat, j: nat, k: nat :| ItemSpans(b, at, i, j, k, end, items);
    ValueStarts(b, i, j, items[0]);
    BlankIsSkipped(b, at, i);
    Reads(b, i, j, items[0]);
    BlankIsSkipped(b, j, k);
    if |items| > 1 {
      ReadsItems(b, k + 1, k + 1, end, items[1..], done + [items[0]]);
      assert done + [items[0]] + items[1..] == done + items;
    } else {
      assert done + [items[0]] == done + items;
    }
  }

  lemma {:induction false} EntryParses(b: seq<byte>, at: nat, p: nat, q: nat, r: nat, i: nat, j: nat, k: nat, end: nat,
                                       entries: seq<Entry>)
    requires entries != [] && EntrySpans(b, at, p, q, r, i, j, k, end, entries)
    ensures at <= |b| && SkipSpace(b, at) == p && ParseString(b, p) == Ok((entries[0].key, q))
    ensures q <= |b| && SkipSpace(b, q) == r < |b| && b[r] == 58 && SkipSpace(b, r + 1) == i <= |b|
    ensures j <= |b| && SkipSpace(b, j) == k < |b|
    ensures ValueSpans(b, i, j, entries[0].value)
    ensures if |entries| == 1 then b[k] == 125 && end == k + 1
            else b[k] == 44 && EntriesSpan(b, k + 1, end, entries[1..])
  {
    hide SkipSpace, ValueSpans, ParseString, EntriesSpan, CharsSpan;
    TextExactly(b, p, q, entries[0].key);
    ValueStarts(b, i, j, entries[0].value);
    BlankIsSkipped(b, at, p);
    BlankIsSkipped(b, q, r);
    BlankIsSkipped(b, r + 1, i);
    BlankIsSkipped(b, j, k);
  }

  lemma {:induction false} ReadsEntries(b: seq<byte>, from: nat, at: nat, end: nat, entries: seq<Entry>,
                                        done: seq<Entry>)
    requires entries != [] && EntriesSpan(b, at, end, entries)
    requires at <= |b| && from <= |b| && SkipSpace(b, from) == SkipSpace(b, at)
    ensures ParseEntries(b, from, done) == Ok((Object(done + entries), end))
    decreases entries, 0
  {
    hide ParseValue, ParseEntries, ParseString, SkipSpace, ValueSpans, EntrySpans;
    var p: nat, q: nat, r: nat, i: nat, j: nat, k: nat :| EntrySpans(b, at, p, q, r, i, j, k, end, entries);
    EntryParses(b, at, p, q, r, i, j, k, end, entries);
    Reads(b, i, j, entries[0].value);
    RoundTrip.EntryStep(b, from, entries[0].key, q, entries[0].value, j, done);
    assert Entry(entries[0].key, entries[0].value) == entries[0];
    if |entries| > 1 {
      ReadsEntries(b, k + 1, k + 1, end, entries[1..], done + [entries[0]]);
      assert done + [entries[0]] + entries[1..] == done + entries;
    } else {
      assert done + [entries[0]] == done + entries;
    }
  }

  /** What the parser reads is in the grammar. */
  lemma {:induction false} IsRead(b: seq<byte>, at: nat)
    requires at <= |b| && ParseValue(b, at).Ok?
    ensures var (v, end) := ParseValue(b, at).value; ValueSpans(b, at, end, v)
    decreases |b| - at, 1
  {
    hide ParseItems, ParseEntries, SkipSpace, ItemsSpan, EntriesSpan, TextSpans, NumberSpans, WordSpans, Closes,
         ParseString, ParseNumber, ParseLiteral;
    var (v, end) := ParseValue(b, at).value;
    if b[at] == 123 {
      CloseExactly(b, at + 1, end, '}');
      if !Peeks(b, SkipSpace(b, at + 1), 125) {
        SkipIsBlank(b, at + 1);
        EntriesAreRead(b, SkipSpace(b, at + 1), at + 1, []);
      }
    } else if b[at] == 91 {
      CloseExactly(b, at + 1, end, ']');
      if !Peeks(b, SkipSpace(b, at + 1), 93) {
        SkipIsBlank(b, at + 1);
        ItemsAreRead(b, SkipSpace(b, at + 1), at + 1, []);
      }
    } else {
      PlainIsRead(b, at);
    }
  }

  lemma {:induction false} PlainIsRead(b: seq<byte>, at: nat)
    requires at < |b| && b[at] != 123 && b[at] != 91 && ParseValue(b, at).Ok?
    ensures var (v, end) := ParseValue(b, at).value; ValueSpans(b, at, end, v)
  {
    hide ParseItems, ParseEntries, SkipSpace, ItemsSpan, EntriesSpan, TextSpans, NumberSpans, WordSpans, ParseString,
         ParseNumber, ParseLiteral;
    var (v, end) := ParseValue(b, at).value;
    if b[at] == 34 {
      TextExactly(b, at, end, v.text);
    } else if b[at] == 116 {
      WordExactly(b, at, end, "true", TRUE, Bool(true));
    } else if b[at] == 102 {
      WordExactly(b, at, end, "false", FALSE, Bool(false));
    } else if b[at] == 110 {
      WordExactly(b, at, end, "null", NULL, Null);
    } else {
      ParsedNumber(b, at);
      NumberExactly(b, at, end, v.n);
    }
  }

  lemma {:induction false} ParsedNumber(b: seq<byte>, at: nat)
    requires at < |b| && (b[at] == 45 || IsDigit(b[at])) && ParseNumber(b, at).Ok?
    ensures ParseNumber(b, at).value.0.Number?
  {
    hide NumberOf;
  }

  lemma {:induction false} ItemsAreRead(b: seq<byte>, from: nat, at: nat, done: seq<Value>)
    requires at <= from <= |b| && Blank(b, at, from) && ParseItems(b, from, done).Ok?
    ensures var (v, end) := ParseItems(b, from, done).value;
      && v.Array? && |done| < |v.items| && v.items[..|done|] == done
      && ItemsSpan(b, at, end, v.items[|done|..])
    decreases |b| - from, 2
  {
    hide ParseValue, ParseEntries, SkipSpace, ValueSpans;
    var (v, end) := ParseItems(b, from, done).value;
    var i := SkipSpace(b, from);
    var (first, j) := ParseValue(b, i).value;
    var k := SkipSpace(b, j);
    SkipIsBlank(b, from);
    BlankJoins(b, at, from, i);
    IsRead(b, i);
    SkipIsBlank(b, j);
    var n := |done|;
    if Peeks(b, k, 44) {
      NothingIsBlank(b, k + 1);
      ItemsAreRead(b, k + 1, k + 1, done + [first]);
      assert v.items[..n] == v.items[..n + 1][..n] && v.items[n] == v.items[..n + 1][n] == first;
      assert v.items[n..][1..] == v.items[n + 1..];
    } else {
      assert v.items == done + [first] && v.items[n..] == [first];
    }
    assert ItemSpans(b, at, i, j, k, end, v.items[n..]);
  }

  lemma {:induction false} BlankJoins(b: seq<byte>, i: nat, j: nat, k: nat)
    requires Blank(b, i, j) && Blank(b, j, k)
    ensures Blank(b, i, k)
  {
  }

  lemma {:induction false} NothingIsBlank(b: seq<byte>, i: nat)
    requires i <= |b|
    ensures Blank(b, i, i)
  {
  }

  lemma {:induction false} EntryIsRead(b: seq<byte>, from: nat, at: nat, done: seq<Entry>)
    returns (p: nat, q: nat, r: nat, i: nat, j: nat, k: nat, entry: Entry)
    requires at <= from <= |b| && Blank(b, at, from) && ParseEntries(b, from, done).Ok?
    ensures Blank(b, at, p) && TextSpans(b, p, q, entry.key) && Blank(b, q, r) && r < |b| && b[r] == 58
    ensures from < r && Blank(b, r + 1, i) && ParseValue(b, i).Ok? && ParseValue(b, i).value == (entry.value, j)
    ensures Blank(b, j, k) && from < k < |b| && (b[k] == 44 || b[k] == 125)
    ensures b[k] == 44 ==> ParseEntries(b, from, done) == ParseEntries(b, k + 1, done + [entry])
    ensures b[k] == 125 ==> ParseEntries(b, from, done) == Ok((Object(done + [entry]), k + 1))
  {
    hide ParseValue, ParseItems, ParseString, SkipSpace, TextSpans, Blank;
    p := SkipSpace(b, from);
    var (key, afterKey) := ParseString(b, p).value;
    q := afterKey;
    r := SkipSpace(b, q);
    i := SkipSpace(b, r + 1);
    var (v, afterValue) := ParseValue(b, i).value;
    j := afterValue;
    k := SkipSpace(b, j);
    entry := Entry(key, v);
    SkipIsBlank(b, from);
    BlankJoins(b, at, from, p);
    TextExactly(b, p, q, key);
    SkipIsBlank(b, q);
    SkipIsBlank(b, r + 1);
    SkipIsBlank(b, j);
  }

  lemma {:induction false} EntriesAreRead(b: seq<byte>, from: nat, at: nat, done: seq<Entry>)
    requires at <= from <= |b| && Blank(b, at, from) && ParseEntries(b, from, done).Ok?
    ensures var (v, end) := ParseEntries(b, from, done).value;
      && v.Object? && |done| < |v.entries| && v.entries[..|done|] == done
      && EntriesSpan(b, at, end, v.entries[|done|..])
    decreases |b| - from, 2
  {
    hide ParseValue, ParseEntries, ValueSpans, TextSpans, Blank;
    var (v, end) := ParseEntries(b, from, done).value;
    var p, q, r, i, j, k, entry := EntryIsRead(b, from, at, done);
    BlankInside(b, r + 1, i);
    IsRead(b, i);
    var n := |done|;
    if b[k] == 44 {
      NothingIsBlank(b, k + 1);
      EntriesAreRead(b, k + 1, k + 1, done + [entry]);
      assert v.entries[..n] == v.entries[..n + 1][..n] && v.entries[n] == v.entries[..n + 1][n] == entry;
      assert v.entries[n..][1..] == v.entries[n + 1..];
    } else {
      assert v.entries == done + [entry] && v.entries[n..] == [entry];
    }
    assert EntrySpans(b, at, p, q, r, i, j, k, end, v.entries[n..]);
  }

  lemma {:induction false} BlankInside(b: seq<byte>, i: nat, j: nat)
    requires Blank(b, i, j)
    ensures i <= j <= |b|
  {
  }

  /** The reader, exactly: a text is accepted as a value if and only if the grammar spells that value so. */
  lemma {:induction false} ParsesExactly(b: seq<byte>, v: Value)
    ensures Parse(b) == Ok(v) <==> Spells(b, v)
  {
    hide ParseValue, SkipSpace, ValueSpans, Blank;
    SkipIsBlank(b, 0);
    if Parse(b) == Ok(v) {
      var i := SkipSpace(b, 0);
      IsRead(b, i);
      SkipIsBlank(b, ParseValue(b, i).value.1);
    }
    if i: nat, j: nat :| Blank(b, 0, i) && ValueSpans(b, i, j, v) && Blank(b, j, |b|) {
      ValueStarts(b, i, j, v);
      BlankIsSkipped(b, 0, i);
      Reads(b, i, j, v);
      BlankIsSkipped(b, j, |b|);
    }
  }
}
