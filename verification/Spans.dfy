/** The spans a module's units write (crates/core/src/unit_apply.rs): in bounds and disjoint. */
module Spans {
  import opened Outcome
  import opened Bytes
  import opened Units

  datatype Payload = Payload(unit: Unit, code: seq<byte>)

  datatype Span = Span(start: nat, end: nat)

  predicate Checked(payloads: seq<Payload>) {
    forall i :: 0 <= i < |payloads| ==> Check(payloads[i].unit)
  }

  predicate Apart(a: Span, b: Span) {
    a.end <= b.start || b.end <= a.start
  }

  predicate PairwiseApart(s: seq<Span>) {
    forall i, j :: 0 <= i < j < |s| ==> Apart(s[i], s[j])
  }

  predicate Nonempty(s: seq<Span>) {
    forall i :: 0 <= i < |s| ==> s[i].start < s[i].end
  }

  // ----- sorting, by start and then by end

  predicate Before(a: Span, b: Span) {
    a.start < b.start || (a.start == b.start && a.end <= b.end)
  }

  predicate Sorted(s: seq<Span>) {
    forall i, j :: 0 <= i < j < |s| ==> Before(s[i], s[j])
  }

  function Insert(x: Span, s: seq<Span>): (r: seq<Span>)
    requires Sorted(s)
    ensures Sorted(r) && |r| == |s| + 1
    ensures forall y :: y in r <==> y == x || y in s
  {
    if s == [] then [x]
    else if Before(x, s[0]) then [x] + s
    else
      var rest := Insert(x, s[1..]);
      assert forall y :: y in s[1..] ==> Before(s[0], y);
      assert forall y :: y in s <==> y == s[0] || y in s[1..];
      assert forall i :: 0 <= i < |rest| ==> rest[i] in rest;
      [s[0]] + rest
  }

  function Sort(s: seq<Span>): (r: seq<Span>)
    ensures Sorted(r) && |r| == |s|
    ensures forall y :: y in r <==> y in s
  {
    if s == [] then []
    else
      assert s == [s[0]] + s[1..];
      Insert(s[0], Sort(s[1..]))
  }

  predicate ApartFromAll(x: Span, s: seq<Span>) {
    forall y :: y in s ==> Apart(x, y)
  }

  lemma {:induction false} PairwiseApartCons(x: Span, s: seq<Span>)
    ensures PairwiseApart([x] + s) <==> ApartFromAll(x, s) && PairwiseApart(s)
  {
    var r := [x] + s;
    if PairwiseApart(r) {
      forall y | y in s ensures Apart(x, y) {
        var i :| 0 <= i < |s| && s[i] == y;
        assert Apart(r[0], r[i + 1]);
      }
      forall i, j | 0 <= i < j < |s| ensures Apart(s[i], s[j]) { assert Apart(r[i + 1], r[j + 1]); }
    }
  }

  lemma {:induction false} PairwiseApartInsert(x: Span, s: seq<Span>)
    requires Sorted(s)
    ensures PairwiseApart(Insert(x, s)) <==> ApartFromAll(x, s) && PairwiseApart(s)
  {
    hide PairwiseApart, Apart;
    if s == [] {
      assert [x] + s == [x];
      PairwiseApartCons(x, s);
    } else if Before(x, s[0]) {
      PairwiseApartCons(x, s);
    } else {
      var tail := s[1..];
      assert s == [s[0]] + tail;
      PairwiseApartInsert(x, tail);
      PairwiseApartCons(s[0], Insert(x, tail));
      PairwiseApartCons(s[0], tail);
      ApartSymmetric(x, s[0]);
      assert ApartFromAll(s[0], Insert(x, tail)) <==> ApartFromAll(s[0], tail) && Apart(s[0], x);
      assert ApartFromAll(x, s) <==> ApartFromAll(x, tail) && Apart(x, s[0]);
    }
  }

  lemma {:induction false} ApartSymmetric(a: Span, b: Span)
    ensures Apart(a, b) <==> Apart(b, a)
  {
  }

  lemma {:induction false} PairwiseApartSort(s: seq<Span>)
    ensures PairwiseApart(Sort(s)) <==> PairwiseApart(s)
  {
    hide PairwiseApart, Apart;
    if s != [] {
      assert s == [s[0]] + s[1..];
      PairwiseApartSort(s[1..]);
      PairwiseApartInsert(s[0], Sort(s[1..]));
      PairwiseApartCons(s[0], s[1..]);
    }
  }

  /** The check the code makes: no span runs past the start of its successor. */
  predicate NeighboursApart(s: seq<Span>) {
    forall i :: 0 <= i < |s| - 1 ==> s[i].end <= s[i + 1].start
  }

  predicate Forward(s: seq<Span>) {
    forall i :: 0 <= i < |s| ==> s[i].start <= s[i].end
  }

  lemma {:induction false} NeighboursReach(s: seq<Span>, i: nat, j: nat)
    requires NeighboursApart(s) && Forward(s) && i < j < |s|
    ensures s[i].end <= s[j].start
  {
    if i + 1 < j {
      NeighboursReach(s, i, j - 1);
      assert s[j - 1].end <= s[j - 1 + 1].start;
    } else {
      assert s[i].end <= s[i + 1].start;
    }
  }

  /** Spans whose sorted neighbours are apart are all apart, empty ones included. */
  lemma {:induction false} NeighboursSuffice(s: seq<Span>)
    requires Forward(s) && NeighboursApart(Sort(s))
    ensures PairwiseApart(s)
  {
    var r := Sort(s);
    PairwiseApartSort(s);
    forall i | 0 <= i < |r|
      ensures r[i].start <= r[i].end
    {
      assert r[i] in r;
    }
    forall i, j | 0 <= i < j < |r|
      ensures Apart(r[i], r[j])
    {
      NeighboursReach(r, i, j);
    }
  }

  /** Comparing sorted neighbours decides whether all pairs of nonempty spans are apart. */
  lemma {:induction false} NeighboursDecide(s: seq<Span>)
    requires Nonempty(s)
    ensures NeighboursApart(Sort(s)) <==> PairwiseApart(s)
  {
    var r := Sort(s);
    PairwiseApartSort(s);
    if NeighboursApart(r) {
      NeighboursSuffice(s);
    }
    if PairwiseApart(r) {
      forall i | 0 <= i < |r| - 1
        ensures r[i].end <= r[i + 1].start
      {
        assert r[i] in r && r[i + 1] in r;
        assert Apart(r[i], r[i + 1]);
        assert Before(r[i], r[i + 1]);
      }
    }
  }

  // ----- the spans of every write, checked one by one

  function SpanOf(w: Write): Span {
    Span(w.rva, w.rva + |w.before|)
  }

  function WriteSpan(w: Write, size: nat): Result<Span> {
    if w.rva + |w.before| >= WORD64 then Err(AddressOverflow)
    else if w.rva + |w.before| > size then Err(WriteOutside)
    else Ok(SpanOf(w))
  }

  function CollectWrites(writes: seq<Write>, size: nat, spans: seq<Span>): Result<seq<Span>> {
    if writes == [] then Ok(spans)
    else
      var span :- WriteSpan(writes[0], size);
      CollectWrites(writes[1..], size, spans + [span])
  }

  predicate AnchorInside(a: Anchor, size: nat) {
    a.rva + |a.bytes| < WORD64 && a.rva + |a.bytes| <= size
  }

  predicate AnchorsInside(anchors: seq<Anchor>, size: nat) {
    forall i :: 0 <= i < |anchors| ==> AnchorInside(anchors[i], size)
  }

  function Collect(payloads: seq<Payload>, size: nat, spans: seq<Span>): Result<seq<Span>> {
    if payloads == [] then Ok(spans)
    else
      var next :- CollectWrites(payloads[0].unit.writes, size, spans);
      if AnchorsInside(payloads[0].unit.anchors, size) then Collect(payloads[1..], size, next)
      else Err(AnchorOutside)
  }

  function CheckSpans(payloads: seq<Payload>, size: nat): Result<()> {
    var spans :- Collect(payloads, size, []);
    if NeighboursApart(Sort(spans)) then Ok(()) else Err(WritesOverlap)
  }

  /** The loops of `spans`. */
  method ValidateSpans(payloads: seq<Payload>, size: nat) returns (r: Result<()>)
    ensures r == CheckSpans(payloads, size)
  {
    var spans: seq<Span> := [];
    for i := 0 to |payloads|
      invariant Collect(payloads, size, []) == Collect(payloads[i..], size, spans)
    {
      var writes, anchors := payloads[i].unit.writes, payloads[i].unit.anchors;
      ghost var start := spans;
      assert payloads[i..][1..] == payloads[i + 1..];
      for j := 0 to |writes|
        invariant CollectWrites(writes, size, start) == CollectWrites(writes[j..], size, spans)
      {
        assert writes[j..][1..] == writes[j + 1..];
        var span := WriteSpan(writes[j], size);
        if span.Err? {
          return Err(span.error);
        }
        spans := spans + [span.value];
      }
      for j := 0 to |anchors|
        invariant forall k :: 0 <= k < j ==> AnchorInside(anchors[k], size)
      {
        if !AnchorInside(anchors[j], size) {
          return Err(AnchorOutside);
        }
      }
    }
    var sorted := Sort(spans);
    for i := 0 to if sorted == [] then 0 else |sorted| - 1
      invariant forall k :: 0 <= k < i ==> sorted[k].end <= sorted[k + 1].start
    {
      if sorted[i].end > sorted[i + 1].start {
        return Err(WritesOverlap);
      }
    }
    return Ok(());
  }

  // ----- what an accepted set of spans guarantees

  function WritesOf(payloads: seq<Payload>): seq<Write> {
    if payloads == [] then [] else payloads[0].unit.writes + WritesOf(payloads[1..])
  }

  function SpansOf(writes: seq<Write>): (r: seq<Span>)
    ensures |r| == |writes|
    ensures forall i :: 0 <= i < |r| ==> r[i] == SpanOf(writes[i])
  {
    if writes == [] then [] else [SpanOf(writes[0])] + SpansOf(writes[1..])
  }

  predicate WritesInside(writes: seq<Write>, size: nat) {
    forall i :: 0 <= i < |writes| ==> WriteSpan(writes[i], size).Ok?
  }

  predicate AllAnchorsInside(payloads: seq<Payload>, size: nat) {
    forall i :: 0 <= i < |payloads| ==> AnchorsInside(payloads[i].unit.anchors, size)
  }

  lemma {:induction false} CollectWritesMeaning(writes: seq<Write>, size: nat, spans: seq<Span>)
    ensures var r := CollectWrites(writes, size, spans);
      && (r.Ok? <==> WritesInside(writes, size))
      && (r.Ok? ==> r.value == spans + SpansOf(writes))
  {
    hide WriteSpan;
    if writes == [] {
      assert spans + [] == spans;
    } else {
      var span := WriteSpan(writes[0], size);
      assert WritesInside(writes, size) <==> span.Ok? && WritesInside(writes[1..], size) by {
        assert writes == [writes[0]] + writes[1..];
        WritesInsideAppend([writes[0]], writes[1..], size);
        if span.Ok? { assert WritesInside([writes[0]], size); }
        if WritesInside(writes, size) { assert WriteSpan(writes[0], size).Ok?; }
      }
      if span.Ok? {
        WriteSpanIsSpan(writes[0], size);
        CollectWritesMeaning(writes[1..], size, spans + [span.value]);
        assert spans + [span.value] + SpansOf(writes[1..]) == spans + SpansOf(writes);
      }
    }
  }

  lemma {:induction false} WriteSpanIsSpan(w: Write, size: nat)
    requires WriteSpan(w, size).Ok?
    ensures WriteSpan(w, size).value == SpanOf(w)
  {
  }

  lemma {:induction false} WritesInsideAppend(a: seq<Write>, b: seq<Write>, size: nat)
    ensures WritesInside(a + b, size) <==> WritesInside(a, size) && WritesInside(b, size)
    ensures SpansOf(a + b) == SpansOf(a) + SpansOf(b)
  {
    hide WriteSpan;
    if WritesInside(a + b, size) {
      forall i | 0 <= i < |a| ensures WriteSpan(a[i], size).Ok? { assert (a + b)[i] == a[i]; }
      forall i | 0 <= i < |b| ensures WriteSpan(b[i], size).Ok? { assert (a + b)[|a| + i] == b[i]; }
    }
  }

  lemma {:induction false} AnchorsInsideCons(payloads: seq<Payload>, size: nat)
    requires payloads != []
    ensures AllAnchorsInside(payloads, size)
       <==> AnchorsInside(payloads[0].unit.anchors, size) && AllAnchorsInside(payloads[1..], size)
  {
    hide AnchorsInside;
    assert payloads == [payloads[0]] + payloads[1..];
  }

  lemma {:induction false} CollectMeaning(payloads: seq<Payload>, size: nat, spans: seq<Span>)
    ensures var r := Collect(payloads, size, spans);
      var writes := WritesOf(payloads);
      && (r.Ok? <==> WritesInside(writes, size) && AllAnchorsInside(payloads, size))
      && (r.Ok? ==> r.value == spans + SpansOf(writes))
  {
    hide AnchorsInside, AllAnchorsInside, WritesInside, CollectWrites, SpansOf;
    if payloads == [] {
      assert SpansOf([]) == [] && spans + [] == spans;
      NothingInside(size);
    } else {
      var u := payloads[0].unit;
      var rest := WritesOf(payloads[1..]);
      CollectWritesMeaning(u.writes, size, spans);
      WritesInsideAppend(u.writes, rest, size);
      AnchorsInsideCons(payloads, size);
      var next := CollectWrites(u.writes, size, spans);
      if next.Ok? && AnchorsInside(u.anchors, size) {
        CollectMeaning(payloads[1..], size, next.value);
        assert spans + (SpansOf(u.writes) + SpansOf(rest)) == next.value + SpansOf(rest);
      }
    }
  }

  lemma {:induction false} NothingInside(size: nat)
    ensures WritesInside([], size) && AllAnchorsInside([], size)
  {
  }

  lemma {:induction false} CheckedWritesNonempty(payloads: seq<Payload>)
    requires Checked(payloads)
    ensures Nonempty(SpansOf(WritesOf(payloads)))
  {
    if payloads != [] {
      CheckedWritesNonempty(payloads[1..]);
      var first, rest := payloads[0].unit.writes, WritesOf(payloads[1..]);
      WritesInsideAppend(first, rest, 0);
      forall i | 0 <= i < |first + rest|
        ensures SpansOf(first + rest)[i].start < SpansOf(first + rest)[i].end
      {
        if i < |first| {
          assert WriteFits(first[i], payloads[0].unit.unitBytes);
        } else {
          assert SpansOf(rest)[i - |first|].start < SpansOf(rest)[i - |first|].end;
        }
      }
    }
  }

  /** The span check is sound and complete: it accepts exactly the sets whose writes and anchors lie in
      the module and whose writes are pairwise disjoint. */
  lemma {:induction false} SpansDecideDisjointness(payloads: seq<Payload>, size: nat)
    requires Checked(payloads)
    ensures CheckSpans(payloads, size).Ok?
       <==> (WritesInside(WritesOf(payloads), size) && AllAnchorsInside(payloads, size)
             && PairwiseApart(SpansOf(WritesOf(payloads))))
  {
    CollectMeaning(payloads, size, []);
    var spans := SpansOf(WritesOf(payloads));
    assert [] + spans == spans;
    CheckedWritesNonempty(payloads);
    NeighboursDecide(spans);
  }
}
