/** The overlap sweep of the patch inventory (tools/patch_inventory.py:160-177). */
module Inventory {

  /** A write of a plugin; modules, kinds and plugins are numbered in the order of their names. */
  datatype Span = Span(moduleId: nat, rva: nat, length: nat, kind: nat, plugin: nat)

  /** The order of the tuples that are sorted. */
  predicate Before(x: Span, y: Span) {
    if x.moduleId != y.moduleId then x.moduleId < y.moduleId
    else if x.rva != y.rva then x.rva < y.rva
    else if x.length != y.length then x.length < y.length
    else if x.kind != y.kind then x.kind < y.kind
    else x.plugin <= y.plugin
  }

  function Insert(x: Span, s: seq<Span>): seq<Span> {
    if s == [] || Before(x, s[0]) then [x] + s else [s[0]] + Insert(x, s[1..])
  }

  function Sort(s: seq<Span>): seq<Span> {
    if s == [] then [] else Insert(s[0], Sort(s[1..]))
  }

  predicate Sorted(s: seq<Span>) {
    forall i, j :: 0 <= i < j < |s| ==> Before(s[i], s[j])
  }

  predicate Nonempty(s: seq<Span>) {
    forall i :: 0 <= i < |s| ==> s[i].length > 0
  }

  predicate Covers(x: Span, moduleId: nat, address: nat) {
    x.moduleId == moduleId && x.rva <= address < x.rva + x.length
  }

  /** Two plugins write the same byte. */
  predicate Conflict(x: Span, y: Span) {
    x.plugin != y.plugin && x.moduleId == y.moduleId && x.rva < y.rva + y.length && y.rva < x.rva + x.length
  }

  ghost predicate SharesByte(x: Span, y: Span) {
    exists m: nat, a: nat :: Covers(x, m, a) && Covers(y, m, a)
  }

  lemma {:induction false} ConflictIsSharedByte(x: Span, y: Span)
    requires x.length > 0 && y.length > 0
    ensures Conflict(x, y)
       <==> x.plugin != y.plugin && SharesByte(x, y)
    ensures Conflict(x, y) <==> Conflict(y, x)
  {
    if Conflict(x, y) {
      var a := if x.rva < y.rva then y.rva else x.rva;
      assert Covers(x, x.moduleId, a) && Covers(y, x.moduleId, a);
    }
  }

  /** Every conflict of `x` with a later span, in order. */
  function PairsWith(x: Span, s: seq<Span>): seq<(Span, Span)> {
    if s == [] then [] else (if Conflict(x, s[0]) then [(x, s[0])] else []) + PairsWith(x, s[1..])
  }

  /** Every conflicting pair, once. */
  function Conflicts(s: seq<Span>): seq<(Span, Span)> {
    if s == [] then [] else PairsWith(s[0], s[1..]) + Conflicts(s[1..])
  }

  lemma {:induction false} InsertKeepsSorted(x: Span, s: seq<Span>)
    requires Sorted(s)
    ensures Sorted(Insert(x, s))
    ensures multiset(Insert(x, s)) == multiset(s) + multiset{x}
    decreases |s|
  {
    if s != [] && !Before(x, s[0]) {
      InsertKeepsSorted(x, s[1..]);
      var rest := Insert(x, s[1..]);
      assert s == [s[0]] + s[1..];
      forall j | 0 <= j < |rest| ensures Before(s[0], rest[j]) {
        assert rest[j] in multiset(rest);
        assert rest[j] == x || rest[j] in s[1..];
      }
    }
  }

  lemma {:induction false} SortIsSorted(s: seq<Span>)
    ensures Sorted(Sort(s)) && multiset(Sort(s)) == multiset(s)
    decreases |s|
  {
    if s != [] {
      SortIsSorted(s[1..]);
      InsertKeepsSorted(s[0], Sort(s[1..]));
      assert s == [s[0]] + s[1..];
    }
  }

  /** Behind the first span that starts past the end of `x`, or lies in another module, nothing conflicts with `x`. */
  lemma {:induction false} NothingBehind(x: Span, s: seq<Span>)
    requires Sorted([x] + s) && s != []
    requires s[0].moduleId != x.moduleId || s[0].rva >= x.rva + x.length
    ensures PairsWith(x, s) == []
    decreases |s|
  {
    assert ([x] + s)[0] == x && ([x] + s)[1] == s[0];
    if |s| > 1 {
      assert ([x] + s)[2] == s[1];
      assert Before(x, s[0]) && Before(s[0], s[1]);
      forall i, j | 0 <= i < j < |[x] + s[1..]| ensures Before(([x] + s[1..])[i], ([x] + s[1..])[j]) {
        assert ([x] + s[1..])[j] == ([x] + s)[j + 1];
        assert ([x] + s[1..])[i] == ([x] + s)[if i == 0 then 0 else i + 1];
      }
      NothingBehind(x, s[1..]);
    }
  }

  /** The inner loop with its break. */
  method SweepFrom(spans: seq<Span>, i: nat, start: seq<(Span, Span)>) returns (problems: seq<(Span, Span)>)
    requires i < |spans| && Sorted(spans) && Nonempty(spans)
    ensures problems == start + PairsWith(spans[i], spans[i + 1..])
  {
    hide Before;
    problems := start;
    var j := i + 1;
    while j < |spans|
      invariant i < j <= |spans|
      invariant problems + PairsWith(spans[i], spans[j..]) == start + PairsWith(spans[i], spans[i + 1..])
    {
      var other := spans[j];
      assert spans[j..][0] == other && spans[j..][1..] == spans[j + 1..];
      if other.moduleId != spans[i].moduleId || other.rva >= spans[i].rva + spans[i].length {
        NothingBehind(spans[i], spans[j..]);
        break;
      }
      ConflictOfLater(spans[i], other);
      if other.plugin != spans[i].plugin {
        problems := problems + [(spans[i], other)];
      }
      j := j + 1;
    }
    assert j == |spans| ==> PairsWith(spans[i], spans[j..]) == [];
    assert problems + [] == problems;
  }

  /** A later span that starts inside the span conflicts with it unless it is the same plugin's. */
  lemma {:induction false} ConflictOfLater(x: Span, y: Span)
    requires Before(x, y) && y.length > 0 && x.moduleId == y.moduleId && y.rva < x.rva + x.length
    ensures Conflict(x, y) <==> y.plugin != x.plugin
  {
  }

  /** The overlaps `compare` reports: every conflicting pair of the sorted spans, once, in order. */
  method Overlaps(input: seq<Span>) returns (problems: seq<(Span, Span)>)
    requires Nonempty(input)
    ensures problems == Conflicts(Sort(input))
  {
    hide PairsWith, Sort, Sorted, Nonempty, Conflicts;
    var spans := Sort(input);
    SortIsNonempty(input);
    problems := [];
    assert spans[0..] == spans;
    for i := 0 to |spans|
      invariant problems + Conflicts(spans[i..]) == Conflicts(spans)
    {
      Unfolded(spans, i);
      ghost var before, pairs, rest := problems, PairsWith(spans[i], spans[i + 1..]), Conflicts(spans[i + 1..]);
      problems := SweepFrom(spans, i, problems);
      assert before + (pairs + rest) == before + pairs + rest;
    }
    assert problems + Conflicts([]) == problems by {
      NoConflicts();
    }
    assert spans[|spans|..] == [];
  }

  lemma {:induction false} NoConflicts()
    ensures Conflicts([]) == []
  {
  }

  lemma {:induction false} Unfolded(s: seq<Span>, i: nat)
    requires i < |s|
    ensures Conflicts(s[i..]) == PairsWith(s[i], s[i + 1..]) + Conflicts(s[i + 1..])
  {
    assert s[i..][1..] == s[i + 1..];
  }

  lemma {:induction false} SortIsNonempty(s: seq<Span>)
    requires Nonempty(s)
    ensures Sorted(Sort(s)) && Nonempty(Sort(s))
  {
    hide Sort, Sorted;
    SortIsSorted(s);
    var t := Sort(s);
    forall i | 0 <= i < |t| ensures t[i].length > 0 {
      assert t[i] in multiset(t);
      assert t[i] in s;
    }
  }

  // ----- the report against the spans as they were given

  /** How many of the spans conflict with `x`. */
  function Against(x: Span, s: seq<Span>): nat {
    if s == [] then 0 else (if Conflict(x, s[0]) then 1 else 0) + Against(x, s[1..])
  }

  /** How many pairs of the spans conflict, whatever their order. */
  function ConflictCount(s: seq<Span>): nat {
    if s == [] then 0 else Against(s[0], s[1..]) + ConflictCount(s[1..])
  }

  lemma {:induction false} PairsAreCounted(x: Span, s: seq<Span>)
    ensures |PairsWith(x, s)| == Against(x, s)
    ensures forall p :: p in PairsWith(x, s) <==> p.0 == x && p.1 in s && Conflict(x, p.1)
    decreases |s|
  {
    hide Conflict;
    if s != [] {
      PairsAreCounted(x, s[1..]);
      assert s == [s[0]] + s[1..];
    }
  }

  lemma {:induction false} ConflictsAreCounted(s: seq<Span>)
    ensures |Conflicts(s)| == ConflictCount(s)
    decreases |s|
  {
    if s != [] {
      PairsAreCounted(s[0], s[1..]);
      ConflictsAreCounted(s[1..]);
    }
  }

  lemma {:induction false} InsertAgainst(x: Span, y: Span, s: seq<Span>)
    ensures Against(x, Insert(y, s)) == Against(x, s) + if Conflict(x, y) then 1 else 0
    decreases |s|
  {
    hide Conflict, Before;
    if s == [] || Before(y, s[0]) {
      assert ([y] + s)[1..] == s;
    } else {
      InsertAgainst(x, y, s[1..]);
      assert ([s[0]] + Insert(y, s[1..]))[1..] == Insert(y, s[1..]);
    }
  }

  lemma {:induction false} InsertCount(y: Span, s: seq<Span>)
    ensures ConflictCount(Insert(y, s)) == ConflictCount(s) + Against(y, s)
    decreases |s|
  {
    hide Before;
    if s == [] || Before(y, s[0]) {
      assert ([y] + s)[1..] == s;
    } else {
      var rest := Insert(y, s[1..]);
      InsertCount(y, s[1..]);
      InsertAgainst(s[0], y, s[1..]);
      assert ([s[0]] + rest)[1..] == rest;
      assert Conflict(s[0], y) <==> Conflict(y, s[0]);
    }
  }

  lemma {:induction false} SortAgainst(x: Span, s: seq<Span>)
    ensures Against(x, Sort(s)) == Against(x, s)
    decreases |s|
  {
    hide Conflict, Insert;
    if s != [] {
      SortAgainst(x, s[1..]);
      InsertAgainst(x, s[0], Sort(s[1..]));
    }
  }

  lemma {:induction false} SortCount(s: seq<Span>)
    ensures ConflictCount(Sort(s)) == ConflictCount(s)
    decreases |s|
  {
    hide Against, Insert;
    if s != [] {
      SortCount(s[1..]);
      SortAgainst(s[0], s[1..]);
      InsertCount(s[0], Sort(s[1..]));
    }
  }

  lemma {:induction false} ConflictsHold(s: seq<Span>, x: Span, y: Span)
    ensures (x, y) in Conflicts(s) ==> x in s && y in s && Conflict(x, y)
    ensures x in s && y in s && Conflict(x, y) ==> (x, y) in Conflicts(s) || (y, x) in Conflicts(s)
    decreases |s|
  {
    hide PairsWith;
    if s != [] {
      PairsAreCounted(s[0], s[1..]);
      ConflictsHold(s[1..], x, y);
      assert s == [s[0]] + s[1..];
    }
  }

  /**
   * For nonempty spans, in whatever order they are given, the sweep reports a pair exactly when two plugins write the
   * same byte, and as many pairs as there are conflicting pairs: each once.
   */
  lemma {:induction false} SweepIsExact(input: seq<Span>, x: Span, y: Span)
    requires Nonempty(input)
    ensures var report := Conflicts(Sort(input));
            && |report| == ConflictCount(input)
            && ((x, y) in report || (y, x) in report
                <==> x in input && y in input && x.plugin != y.plugin && SharesByte(x, y))
  {
    hide Conflicts, Sort, ConflictCount, Conflict, SharesByte;
    var sorted := Sort(input);
    ConflictsAreCounted(sorted);
    SortCount(input);
    SortIsSorted(input);
    ConflictsHold(sorted, x, y);
    ConflictsHold(sorted, y, x);
    if x in input && y in input {
      ConflictIsSharedByte(x, y);
    }
    assert x in input <==> x in multiset(input);
    assert y in input <==> y in multiset(input);
    assert x in sorted <==> x in multiset(sorted);
    assert y in sorted <==> y in multiset(sorted);
  }
}
