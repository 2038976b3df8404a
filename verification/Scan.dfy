/** Masked signature search and the distance each site has moved (crates/core/src/scan.rs). */
module Scan {
  import opened Outcome
  import opened Bytes
  import opened Units

  // ----- searching

  /** Every fixed byte of the pattern is in the image at `at`. */
  predicate Matches(image: seq<byte>, pattern: Pattern, at: nat) {
    && at + |pattern| <= |image|
    && forall i :: 0 <= i < |pattern| ==> pattern[i].None? || pattern[i].value == image[at + i]
  }

  predicate HasFixed(pattern: Pattern) {
    exists i :: 0 <= i < |pattern| && pattern[i].Some?
  }

  /** The matching offsets from `at` on, in order. */
  function Hits(image: seq<byte>, pattern: Pattern, at: nat): seq<nat>
    decreases |image| - at
  {
    if at >= |image| || at + |pattern| > |image| then []
    else (if Matches(image, pattern, at) then [at] else []) + Hits(image, pattern, at + 1)
  }

  /** What the search answers: nothing for a pattern with no fixed byte. */
  function Found(image: seq<byte>, pattern: Pattern): seq<nat> {
    if HasFixed(pattern) then Hits(image, pattern, 0) else []
  }

  predicate Increasing(s: seq<nat>) {
    forall i, j :: 0 <= i < j < |s| ==> s[i] < s[j]
  }

  lemma {:induction false} HitsExact(image: seq<byte>, pattern: Pattern, at: nat)
    requires pattern != []
    ensures var r := Hits(image, pattern, at);
      && Increasing(r)
      && (forall s: nat :: s in r <==> at <= s && Matches(image, pattern, s))
    decreases |image| - at
  {
    hide Matches, Increasing;
    if at < |image| && at + |pattern| <= |image| {
      HitsExact(image, pattern, at + 1);
      var rest := Hits(image, pattern, at + 1);
      IncreasingCons(at, rest);
      if !Matches(image, pattern, at) {
        assert [] + rest == rest;
      }
    } else {
      forall s: nat | at <= s ensures !Matches(image, pattern, s) {
        NoRoom(image, pattern, at, s);
      }
      NoneIncrease();
    }
  }

  lemma {:induction false} NoneIncrease()
    ensures Increasing([])
  {
  }

  lemma {:induction false} NoRoom(image: seq<byte>, pattern: Pattern, at: nat, s: nat)
    requires pattern != [] && (at >= |image| || at + |pattern| > |image|) && at <= s
    ensures !Matches(image, pattern, s)
  {
  }

  lemma {:induction false} IncreasingCons(x: nat, s: seq<nat>)
    requires Increasing(s) && forall y: nat :: y in s ==> x < y
    ensures Increasing([x] + s)
  {
    forall i | 0 <= i < |s| ensures x < s[i] {
      assert s[i] in s;
    }
  }

  /** At `at` the pattern stands whole: every byte it fixes is there. */
  ghost predicate Stands(image: seq<byte>, pattern: Pattern, at: nat) {
    at + |pattern| <= |image| && forall i, b :: 0 <= i < |pattern| && pattern[i] == Some(b) ==> image[at + i] == b
  }

  lemma {:induction false} MatchesIsStanding(image: seq<byte>, pattern: Pattern, at: nat)
    ensures Matches(image, pattern, at) <==> Stands(image, pattern, at)
  {
  }

  lemma {:induction false} FoundMeaning(image: seq<byte>, pattern: Pattern)
    ensures var r := Found(image, pattern);
      && Increasing(r)
      && (HasFixed(pattern) ==> forall s: nat :: s in r <==> Matches(image, pattern, s))
      && (!HasFixed(pattern) ==> r == [])
  {
    if HasFixed(pattern) {
      HitsExact(image, pattern, 0);
    }
  }

  /** The search is exact: for a pattern with a fixed byte it answers precisely the offsets at which the pattern stands,
      in increasing order, and for one without it answers nothing. */
  lemma {:induction false} SearchIsExact(image: seq<byte>, pattern: Pattern)
    ensures var r := Found(image, pattern);
      && (forall i, j :: 0 <= i < j < |r| ==> r[i] < r[j])
      && ((exists i, b :: 0 <= i < |pattern| && pattern[i] == Some(b))
          ==> forall s: nat :: s in r <==> Stands(image, pattern, s))
      && ((forall i :: 0 <= i < |pattern| ==> pattern[i] == None) ==> r == [])
  {
    hide Matches, Stands;
    FoundMeaning(image, pattern);
    forall s: nat ensures Matches(image, pattern, s) <==> Stands(image, pattern, s) {
      MatchesIsStanding(image, pattern, s);
    }
  }

  /** The first position of `b` in `image[from..to]`. */
  method Position(image: seq<byte>, from: nat, to: nat, b: byte) returns (r: Option<nat>)
    requires from <= to <= |image|
    ensures r.Some? ==> from + r.value < to && image[from + r.value] == b
                        && forall k :: from <= k < from + r.value ==> image[k] != b
    ensures r.None? ==> forall k :: from <= k < to ==> image[k] != b
  {
    for i := from to to
      invariant forall k :: from <= k < i ==> image[k] != b
    {
      if image[i] == b {
        return Some(i - from);
      }
    }
    return None;
  }

  method FirstFixed(pattern: Pattern) returns (r: Option<nat>)
    ensures r.Some? <==> HasFixed(pattern)
    ensures r.Some? ==> r.value < |pattern| && pattern[r.value].Some?
  {
    for i := 0 to |pattern|
      invariant forall j :: 0 <= j < i ==> pattern[j].None?
    {
      if pattern[i].Some? {
        return Some(i);
      }
    }
    return None;
  }

  method WindowMatches(image: seq<byte>, pattern: Pattern, at: nat) returns (r: bool)
    requires at + |pattern| <= |image|
    ensures r == Matches(image, pattern, at)
  {
    for i := 0 to |pattern|
      invariant forall j :: 0 <= j < i ==> pattern[j].None? || pattern[j].value == image[at + j]
    {
      if pattern[i].Some? && pattern[i].value != image[at + i] {
        return false;
      }
    }
    return true;
  }

  /** Offsets that cannot match may be skipped. */
  lemma {:induction false} SkipMisses(image: seq<byte>, pattern: Pattern, at: nat, to: nat)
    requires at <= to && pattern != []
    requires forall s :: at <= s < to ==> !Matches(image, pattern, s)
    ensures Hits(image, pattern, at) == Hits(image, pattern, to)
    decreases if at < to then to - at else 0
  {
    if at < to {
      if at < |image| && at + |pattern| <= |image| {
        SkipMisses(image, pattern, at + 1, to);
      } else {
        assert Hits(image, pattern, at) == [];
        assert Hits(image, pattern, to) == [];
      }
    }
  }

  /** Where a fixed byte of the pattern is absent, nothing matches. */
  lemma {:induction false} SkipAbsent(image: seq<byte>, pattern: Pattern, lead: nat, at: nat, end: nat)
    requires lead < |pattern| && pattern[lead].Some? && at <= end && end + |pattern| <= |image| + 1
    requires forall k :: at + lead <= k < end + lead ==> image[k] != pattern[lead].value
    ensures Hits(image, pattern, at) == Hits(image, pattern, end)
  {
    hide Hits;
    forall s | at <= s < end
      ensures !Matches(image, pattern, s)
    {
      assert image[s + lead] != pattern[lead].value;
    }
    SkipMisses(image, pattern, at, end);
  }

  /** The search itself, skipping from one occurrence of the first fixed byte to the next. */
  method ScanImage(image: seq<byte>, pattern: Pattern) returns (out: seq<nat>)
    ensures out == Found(image, pattern)
  {
    hide Matches, Hits, HasFixed;
    out := [];
    var lead := FirstFixed(pattern);
    if lead.None? {
      return;
    }
    if |image| < |pattern| {
      NoMoreHits(image, pattern, 0);
      return;
    }
    var first := pattern[lead.value].value;
    var last := |image| - |pattern|;
    var at := 0;
    while at <= last
      invariant at <= last + 1
      invariant Hits(image, pattern, 0) == out + Hits(image, pattern, at)
    {
      var skip := Position(image, at + lead.value, last + lead.value + 1, first);
      if skip.None? {
        SkipAbsent(image, pattern, lead.value, at, last + 1);
        break;
      }
      var start := at + skip.value;
      SkipAbsent(image, pattern, lead.value, at, start);
      NextHit(image, pattern, start);
      var matched := WindowMatches(image, pattern, start);
      if matched {
        out := out + [start];
      }
      at := start + 1;
    }
    NoMoreHits(image, pattern, last + 1);
  }

  lemma {:induction false} NextHit(image: seq<byte>, pattern: Pattern, at: nat)
    requires pattern != [] && at + |pattern| <= |image|
    ensures Hits(image, pattern, at)
         == (if Matches(image, pattern, at) then [at] else []) + Hits(image, pattern, at + 1)
  {
    hide Matches;
  }

  lemma {:induction false} NoMoreHits(image: seq<byte>, pattern: Pattern, at: nat)
    requires at + |pattern| > |image|
    ensures Hits(image, pattern, at) == []
  {
  }

  // ----- the distance of every site

  datatype Moves = Moves(sites: seq<Site>, deltas: seq<int>)

  function SiteDelta(image: seq<byte>, site: Site): Result<int> {
    var hits := Found(image, site.pattern);
    if |hits| == 1 then Ok(hits[0] - site.start)
    else if hits == [] then Err(SiteMissing)
    else Err(SiteAmbiguous)
  }

  function DeltasFrom(image: seq<byte>, sites: seq<Site>, deltas: seq<int>): Result<seq<int>> {
    if sites == [] then Ok(deltas)
    else
      var delta :- SiteDelta(image, sites[0]);
      DeltasFrom(image, sites[1..], deltas + [delta])
  }

  /** Sites of one function have moved together. */
  predicate Rigid(sites: seq<Site>, deltas: seq<int>)
    requires |sites| == |deltas|
  {
    forall i, j :: 0 <= i < j < |sites| && sites[i].group == sites[j].group ==> deltas[i] == deltas[j]
  }

  lemma {:induction false} DeltasMeaning(image: seq<byte>, sites: seq<Site>, deltas: seq<int>)
    ensures var r := DeltasFrom(image, sites, deltas);
      && (r.Ok? <==> forall i :: 0 <= i < |sites| ==> SiteDelta(image, sites[i]).Ok?)
      && (r.Ok? ==> |r.value| == |deltas| + |sites| && r.value[..|deltas|] == deltas
                    && forall i :: 0 <= i < |sites| ==> SiteDelta(image, sites[i]) == Ok(r.value[|deltas| + i]))
  {
    hide SiteDelta;
    if sites != [] {
      var delta := SiteDelta(image, sites[0]);
      assert forall i :: 0 < i < |sites| ==> sites[i] == sites[1..][i - 1];
      if delta.Ok? {
        DeltasMeaning(image, sites[1..], deltas + [delta.value]);
        var r := DeltasFrom(image, sites, deltas);
        if r.Ok? {
          assert r.value[..|deltas|] == r.value[..|deltas| + 1][..|deltas|];
          assert r.value[|deltas|] == r.value[..|deltas| + 1][|deltas|];
          forall i | 0 <= i < |sites|
            ensures SiteDelta(image, sites[i]) == Ok(r.value[|deltas| + i])
          {
            if i > 0 {
              assert SiteDelta(image, sites[1..][i - 1]) == Ok(r.value[|deltas| + 1 + (i - 1)]);
            }
          }
        } else {
          var i :| 0 <= i < |sites[1..]| && SiteDelta(image, sites[1..][i]).Err?;
          assert SiteDelta(image, sites[i + 1]).Err?;
        }
      }
    }
  }

  lemma {:induction false} DeltasLength(image: seq<byte>, sites: seq<Site>)
    ensures var r := DeltasFrom(image, sites, []); r.Ok? ==> |r.value| == |sites|
  {
    DeltasMeaning(image, sites, []);
  }

  function Locate(sites: seq<Site>, image: seq<byte>): (r: Result<Moves>) {
    var deltas :- DeltasFrom(image, sites, []);
    DeltasLength(image, sites);
    if Rigid(sites, deltas) then Ok(Moves(sites, deltas)) else Err(SitesMovedApart)
  }

  /** `find_by`: each signature searched for once, then every pair of a group compared. */
  method FindSites(sites: seq<Site>, image: seq<byte>) returns (r: Result<Moves>)
    ensures r == Locate(sites, image)
  {
    hide Found, Rigid;
    var deltas: seq<int> := [];
    for i := 0 to |sites|
      invariant |deltas| == i
      invariant DeltasFrom(image, sites, []) == DeltasFrom(image, sites[i..], deltas)
    {
      assert sites[i..][1..] == sites[i + 1..];
      var hits := ScanImage(image, sites[i].pattern);
      if |hits| == 1 {
        deltas := deltas + [hits[0] - sites[i].start];
      } else if hits == [] {
        return Err(SiteMissing);
      } else {
        return Err(SiteAmbiguous);
      }
    }
    var together := MovedTogether(sites, deltas);
    if !together {
      return Err(SitesMovedApart);
    }
    return Ok(Moves(sites, deltas));
  }

  /** The second loop of `find_by`: every pair compared. */
  method MovedTogether(sites: seq<Site>, deltas: seq<int>) returns (r: bool)
    requires |sites| == |deltas|
    ensures r == Rigid(sites, deltas)
  {
    for i := 0 to |sites|
      invariant forall a, b ::
        0 <= a < i && a < b < |sites| && sites[a].group == sites[b].group ==> deltas[a] == deltas[b]
    {
      for j := i + 1 to |sites|
        invariant forall b :: i < b < j && sites[i].group == sites[b].group ==> deltas[i] == deltas[b]
      {
        if sites[i].group == sites[j].group && deltas[i] != deltas[j] {
          return false;
        }
      }
    }
    return true;
  }

  /** Located sites: each signature matches in exactly one place, its site has moved there, and sites of one
      group have moved by the same distance. */
  ghost predicate Located(m: Moves, image: seq<byte>) {
    && |m.deltas| == |m.sites|
    && Rigid(m.sites, m.deltas)
    && forall i :: 0 <= i < |m.sites| ==>
         && m.sites[i].start + m.deltas[i] >= 0
         && Found(image, m.sites[i].pattern) == [m.sites[i].start + m.deltas[i]]
  }

  /** The search finds located sites, and whatever is located is what it finds. */
  lemma {:induction false} LocateMeaning(sites: seq<Site>, image: seq<byte>)
    ensures var r := Locate(sites, image);
      && (r.Ok? ==> r.value.sites == sites && Located(r.value, image))
      && (forall m: Moves :: m.sites == sites && Located(m, image) ==> r == Ok(m))
  {
    hide Locate, Located;
    if Locate(sites, image).Ok? {
      FoundIsLocated(sites, image);
    }
    forall m: Moves | m.sites == sites && Located(m, image)
      ensures Locate(sites, image) == Ok(m)
    {
      LocatedIsFound(m, image);
    }
  }

  lemma {:induction false} FoundIsLocated(sites: seq<Site>, image: seq<byte>)
    requires Locate(sites, image).Ok?
    ensures Locate(sites, image).value.sites == sites && Located(Locate(sites, image).value, image)
  {
    DeltasMeaning(image, sites, []);
    hide Found, Rigid;
    var deltas := DeltasFrom(image, sites, []).value;
    forall i | 0 <= i < |sites|
      ensures sites[i].start + deltas[i] >= 0
      ensures Found(image, sites[i].pattern) == [sites[i].start + deltas[i]]
    {
      assert SiteDelta(image, sites[i]) == Ok(deltas[0 + i]);
    }
  }

  lemma {:induction false} LocatedIsFound(m: Moves, image: seq<byte>)
    requires Located(m, image)
    ensures Locate(m.sites, image) == Ok(m)
  {
    DeltasMeaning(image, m.sites, []);
    hide Found, Rigid, DeltasFrom;
    forall i | 0 <= i < |m.sites|
      ensures SiteDelta(image, m.sites[i]) == Ok(m.deltas[i])
    {
    }
    var deltas := DeltasFrom(image, m.sites, []).value;
    forall i | 0 <= i < |m.sites|
      ensures deltas[i] == m.deltas[i]
    {
      assert SiteDelta(image, m.sites[i]) == Ok(deltas[0 + i]);
    }
    assert deltas == m.deltas;
  }

  // ----- moving an address

  /** The site's window holds `rva`, the address just past it included. */
  predicate Covers(site: Site, rva: nat) {
    site.start <= rva <= site.start + |site.pattern|
  }

  function DeltaFrom(sites: seq<Site>, deltas: seq<int>, rva: nat, seen: Option<int>): Result<Option<int>>
    requires |sites| == |deltas|
  {
    if sites == [] then Ok(seen)
    else if !Covers(sites[0], rva) then DeltaFrom(sites[1..], deltas[1..], rva, seen)
    else if seen.Some? && seen.value != deltas[0] then Err(MovedDifferently)
    else DeltaFrom(sites[1..], deltas[1..], rva, Some(deltas[0]))
  }

  /** `rva + d` as an unsigned machine word. */
  function Shift(rva: nat, d: int): nat {
    (rva + d) % WORD64
  }

  function At(m: Moves, rva: nat): Result<nat>
    requires |m.deltas| == |m.sites|
  {
    var delta :- DeltaFrom(m.sites, m.deltas, rva, None);
    match delta
    case Some(d) => Ok(Shift(rva, d))
    case None => Err(NotCovered)
  }

  method MoveAddress(m: Moves, rva: nat) returns (r: Result<nat>)
    requires |m.deltas| == |m.sites|
    ensures r == At(m, rva)
  {
    var delta: Option<int> := None;
    for i := 0 to |m.sites|
      invariant DeltaFrom(m.sites, m.deltas, rva, None) == DeltaFrom(m.sites[i..], m.deltas[i..], rva, delta)
    {
      assert m.sites[i..][1..] == m.sites[i + 1..] && m.deltas[i..][1..] == m.deltas[i + 1..];
      if Covers(m.sites[i], rva) {
        if delta.Some? && delta.value != m.deltas[i] {
          return Err(MovedDifferently);
        }
        delta := Some(m.deltas[i]);
      }
    }
    match delta {
      case Some(d) => return Ok(Shift(rva, d));
      case None => return Err(NotCovered);
    }
  }

  predicate AllMoveBy(sites: seq<Site>, deltas: seq<int>, rva: nat, d: int)
    requires |sites| == |deltas|
  {
    forall i :: 0 <= i < |sites| && Covers(sites[i], rva) ==> deltas[i] == d
  }

  predicate Covered(sites: seq<Site>, rva: nat) {
    exists i :: 0 <= i < |sites| && Covers(sites[i], rva)
  }

  lemma {:induction false} CoveredCons(sites: seq<Site>, deltas: seq<int>, rva: nat, d: int)
    requires |sites| == |deltas| > 0
    ensures Covered(sites, rva) <==> Covers(sites[0], rva) || Covered(sites[1..], rva)
    ensures AllMoveBy(sites, deltas, rva, d)
       <==> (Covers(sites[0], rva) ==> deltas[0] == d) && AllMoveBy(sites[1..], deltas[1..], rva, d)
  {
    hide Covers;
    assert sites == [sites[0]] + sites[1..] && deltas == [deltas[0]] + deltas[1..];
  }

  lemma {:induction false} DeltaMeaning(sites: seq<Site>, deltas: seq<int>, rva: nat, seen: Option<int>, d: int)
    requires |sites| == |deltas|
    ensures DeltaFrom(sites, deltas, rva, seen) == Ok(Some(d))
       <==> AllMoveBy(sites, deltas, rva, d) && (seen == Some(d) || (seen.None? && Covered(sites, rva)))
  {
    hide Covers, AllMoveBy, Covered;
    if sites == [] {
      NothingCovered(rva, d);
    } else {
      CoveredCons(sites, deltas, rva, d);
      if !Covers(sites[0], rva) {
        DeltaMeaning(sites[1..], deltas[1..], rva, seen, d);
      } else if !(seen.Some? && seen.value != deltas[0]) {
        DeltaMeaning(sites[1..], deltas[1..], rva, Some(deltas[0]), d);
      }
    }
  }

  lemma {:induction false} NothingCovered(rva: nat, d: int)
    ensures !Covered([], rva) && AllMoveBy([], [], rva, d)
  {
  }

  /** Through any covering window, an address moves to a place in the image or just past it. */
  lemma {:induction false} MovesInside(m: Moves, image: seq<byte>, i: nat, rva: nat)
    requires Located(m, image) && i < |m.sites| && Covers(m.sites[i], rva)
    ensures 0 <= rva + m.deltas[i] <= |image|
  {
    var hit := m.sites[i].start + m.deltas[i];
    SearchIsExact(image, m.sites[i].pattern);
    assert hit in Found(image, m.sites[i].pattern);
    assert Matches(image, m.sites[i].pattern, hit);
  }

  /** Moving an address by located sites succeeds exactly when some window covers it and all that do have
      moved alike; then every covering window gives the same answer, which is never negative. */
  lemma {:induction false} AtMeaning(m: Moves, image: seq<byte>, rva: nat, to: nat)
    requires Located(m, image) && |image| < WORD64
    ensures At(m, rva) == Ok(to)
       <==> (Covered(m.sites, rva)
             && forall i :: 0 <= i < |m.sites| && Covers(m.sites[i], rva) ==> rva + m.deltas[i] == to)
  {
    hide Located, Covers, DeltaFrom, Shift;
    ShiftsExactly(m, image, rva);
    var delta := DeltaFrom(m.sites, m.deltas, rva, None);
    if delta.Ok? && delta.value.Some? {
      DeltaMeaning(m.sites, m.deltas, rva, None, delta.value.value);
    }
    if Covered(m.sites, rva) {
      var i :| 0 <= i < |m.sites| && Covers(m.sites[i], rva);
      DeltaMeaning(m.sites, m.deltas, rva, None, m.deltas[i]);
    }
  }

  /** The pattern stands at `at` and nowhere else in the image, and it has something to stand by. */
  ghost predicate StandsOnlyAt(image: seq<byte>, pattern: Pattern, at: int) {
    && (exists i, b :: 0 <= i < |pattern| && pattern[i] == Some(b))
    && 0 <= at && forall s: nat :: Stands(image, pattern, s) <==> s == at
  }

  lemma {:induction false} OnlyThere(image: seq<byte>, pattern: Pattern, at: int)
    ensures Found(image, pattern) == [at] <==> StandsOnlyAt(image, pattern, at)
  {
    hide Found, Stands;
    SearchIsExact(image, pattern);
    var r := Found(image, pattern);
    if StandsOnlyAt(image, pattern, at) {
      var place: nat := at;
      assert forall s: nat :: s in r <==> s == place;
      JustOne(r, place);
    }
    if r == [at] {
      var place: nat := r[0];
      assert forall s: nat :: s in r <==> s == place;
      if i :| 0 <= i < |pattern| && pattern[i] != None {
        assert pattern[i] == Some(pattern[i].value);
      }
    }
  }

  lemma {:induction false} JustOne(s: seq<nat>, x: nat)
    requires (forall i, j :: 0 <= i < j < |s| ==> s[i] < s[j]) && forall y: nat :: y in s <==> y == x
    ensures s == [x]
  {
    assert x in s;
    assert s[0] in s && s[|s| - 1] in s;
  }

  /** The sites are located with these distances if and only if each signature stands in exactly one place, that far
      from its site's start, and the sites of one function have moved by one distance. */
  lemma {:induction false} LocateIsExact(sites: seq<Site>, image: seq<byte>, deltas: seq<int>)
    ensures Locate(sites, image) == Ok(Moves(sites, deltas))
       <==> |deltas| == |sites|
            && (forall i :: 0 <= i < |sites| ==> StandsOnlyAt(image, sites[i].pattern, sites[i].start + deltas[i]))
            && forall i, j :: 0 <= i < |sites| && 0 <= j < |sites| && sites[i].group == sites[j].group
                 ==> deltas[i] == deltas[j]
    ensures Locate(sites, image).Ok? ==> Locate(sites, image).value.sites == sites
  {
    hide Locate, Found, StandsOnlyAt;
    LocateMeaning(sites, image);
    if |deltas| == |sites| {
      forall i | 0 <= i < |sites|
        ensures Found(image, sites[i].pattern) == [sites[i].start + deltas[i]]
           <==> StandsOnlyAt(image, sites[i].pattern, sites[i].start + deltas[i])
        ensures StandsOnlyAt(image, sites[i].pattern, sites[i].start + deltas[i]) ==> sites[i].start + deltas[i] >= 0
      {
        OnlyThere(image, sites[i].pattern, sites[i].start + deltas[i]);
        OnlyInside(image, sites[i].pattern, sites[i].start + deltas[i]);
      }
    }
  }

  /** A refusal tells the first signature that stands nowhere, or in two places, or else that sites moved apart. */
  lemma {:induction false} LocateRefuses(sites: seq<Site>, image: seq<byte>, e: Error)
    requires Locate(sites, image) == Err(e)
    ensures || (e == SitesMovedApart && forall i :: 0 <= i < |sites| ==> HasOnePlace(image, sites[i]))
            || exists i :: 0 <= i < |sites| && (forall j :: 0 <= j < i ==> HasOnePlace(image, sites[j]))
                 && StopsSearch(image, sites[i].pattern, e)
  {
    hide Rigid, SiteDelta, HasOnePlace, StopsSearch;
    if DeltasFrom(image, sites, []).Err? {
      FirstRefusal(image, sites, [], e);
    } else {
      DeltasMeaning(image, sites, []);
      forall i | 0 <= i < |sites| ensures HasOnePlace(image, sites[i]) {
        PlacesDecide(image, sites[i], e);
      }
    }
  }

  ghost predicate HasOnePlace(image: seq<byte>, site: Site) {
    exists at :: StandsOnlyAt(image, site.pattern, at)
  }

  ghost predicate StopsSearch(image: seq<byte>, pattern: Pattern, e: Error) {
    if (forall i :: 0 <= i < |pattern| ==> pattern[i] == None) || (forall s: nat :: !Stands(image, pattern, s))
    then e == SiteMissing
    else e == SiteAmbiguous && exists s: nat, t: nat :: s < t && Stands(image, pattern, s) && Stands(image, pattern, t)
  }

  lemma {:induction false} PlacesDecide(image: seq<byte>, site: Site, e: Error)
    ensures SiteDelta(image, site).Ok? ==> HasOnePlace(image, site)
    ensures SiteDelta(image, site) == Err(e) ==> StopsSearch(image, site.pattern, e)
  {
    hide Found, StandsOnlyAt, Stands;
    var pattern := site.pattern;
    SearchIsExact(image, pattern);
    var r := Found(image, pattern);
    if |r| == 1 {
      OnlyThere(image, pattern, r[0]);
    } else if SiteDelta(image, site) == Err(e) {
      assert forall i :: 0 <= i < |r| ==> r[i] in r;
      if |r| >= 2 {
        assert r[0] < r[1];
      }
      if k :| 0 <= k < |pattern| && pattern[k] != None {
        assert pattern[k] == Some(pattern[k].value);
        assert forall s: nat :: s in r <==> Stands(image, pattern, s);
      }
    }
  }

  lemma {:induction false} FirstRefusal(image: seq<byte>, sites: seq<Site>, deltas: seq<int>, e: Error)
    requires DeltasFrom(image, sites, deltas) == Err(e)
    ensures exists i :: 0 <= i < |sites| && (forall j :: 0 <= j < i ==> HasOnePlace(image, sites[j]))
              && StopsSearch(image, sites[i].pattern, e)
  {
    hide SiteDelta, HasOnePlace, StopsSearch;
    PlacesDecide(image, sites[0], e);
    if SiteDelta(image, sites[0]).Ok? {
      FirstRefusal(image, sites[1..], deltas + [SiteDelta(image, sites[0]).value], e);
      var i :| 0 <= i < |sites[1..]| && (forall j :: 0 <= j < i ==> HasOnePlace(image, sites[1..][j]))
        && StopsSearch(image, sites[1..][i].pattern, e);
      forall j | 0 <= j < i + 1 ensures HasOnePlace(image, sites[j]) {
        assert j > 0 ==> sites[j] == sites[1..][j - 1];
      }
      assert sites[i + 1] == sites[1..][i];
    }
  }

  lemma {:induction false} OnlyInside(image: seq<byte>, pattern: Pattern, at: int)
    ensures StandsOnlyAt(image, pattern, at) ==> at >= 0
  {
  }

  /** The address is in the site's window or just past it. */
  ghost predicate InWindow(site: Site, rva: nat) {
    site.start <= rva && rva - site.start <= |site.pattern|
  }

  /** Of located sites: an address moves exactly when it is in a window, and all such sites moved alike; it moves along
      with each, and never below zero. */
  lemma {:induction false} AtIsRigid(m: Moves, image: seq<byte>, rva: nat, to: nat)
    requires Locate(m.sites, image) == Ok(m) && |image| < WORD64
    ensures |m.deltas| == |m.sites|
    ensures At(m, rva) == Ok(to)
       <==> (exists i :: 0 <= i < |m.sites| && InWindow(m.sites[i], rva))
            && forall i :: 0 <= i < |m.sites| && InWindow(m.sites[i], rva) ==> rva + m.deltas[i] == to
  {
    hide Locate, At;
    LocateMeaning(m.sites, image);
    AtMeaning(m, image, rva, to);
    forall i | 0 <= i < |m.sites|
      ensures Covers(m.sites[i], rva) <==> InWindow(m.sites[i], rva)
    {
    }
  }

  /** Shifting by a located site's distance does not wrap around. */
  lemma {:induction false} ShiftsExactly(m: Moves, image: seq<byte>, rva: nat)
    requires Located(m, image) && |image| < WORD64
    ensures |m.deltas| == |m.sites|
    ensures forall i :: 0 <= i < |m.sites| && Covers(m.sites[i], rva) ==> Shift(rva, m.deltas[i]) == rva + m.deltas[i]
  {
    forall i | 0 <= i < |m.sites| && Covers(m.sites[i], rva)
      ensures Shift(rva, m.deltas[i]) == rva + m.deltas[i]
    {
      MovesInside(m, image, i, rva);
    }
  }

  // ----- a site found by any of several signatures

  datatype Signature = Signature(pattern: Pattern, at: nat)

  function InsertUnique(x: nat, s: seq<nat>): (r: seq<nat>)
    requires Increasing(s)
    ensures Increasing(r) && forall y :: y in r <==> y == x || y in s
  {
    if s == [] then [x]
    else if x < s[0] then [x] + s
    else if x == s[0] then s
    else
      var rest := InsertUnique(x, s[1..]);
      assert forall i :: 0 <= i < |rest| ==> rest[i] in rest;
      assert forall y :: y in s <==> y == s[0] || y in s[1..];
      assert forall y :: y in s[1..] ==> s[0] < y;
      [s[0]] + rest
  }

  /** The values in increasing order, each once. */
  function SortUnique(s: seq<nat>): (r: seq<nat>)
    ensures Increasing(r) && forall y :: y in r <==> y in s
  {
    if s == [] then [] else InsertUnique(s[0], SortUnique(s[1..]))
  }

  /** `at` is the site's place by one of the alternatives. */
  ghost predicate Names(image: seq<byte>, alternatives: seq<Signature>, place: nat) {
    exists i :: 0 <= i < |alternatives| && alternatives[i].at <= place
                && (place - alternatives[i].at) in Found(image, alternatives[i].pattern)
  }

  /** `Image::find`: the alternatives together must name exactly one place. */
  method FindSignature(image: seq<byte>, alternatives: seq<Signature>) returns (r: Result<nat>)
    ensures r.Ok? <==> exists place :: Names(image, alternatives, place)
                                       && forall other :: Names(image, alternatives, other) ==> other == place
    ensures r.Ok? ==> Names(image, alternatives, r.value)
    ensures r == Err(SiteMissing) <==> forall place :: !Names(image, alternatives, place)
    ensures r.Err? ==> r == Err(SiteMissing) || r == Err(SiteAmbiguous)
  {
    hide Names, SortUnique, Found;
    var found: seq<nat> := [];
    NoNames(image);
    for i := 0 to |alternatives|
      invariant forall place :: place in found <==> Names(image, alternatives[..i], place)
    {
      var hits := ScanImage(image, alternatives[i].pattern);
      var more := Offset(hits, alternatives[i].at);
      NamesMore(image, alternatives, i, more);
      found := found + more;
    }
    assert alternatives[..|alternatives|] == alternatives;
    found := SortUnique(found);
    if |found| == 1 {
      assert found[0] in found;
      forall other | Names(image, alternatives, other)
        ensures other == found[0]
      {
        assert other in found;
      }
      return Ok(found[0]);
    }
    if found == [] {
      return Err(SiteMissing);
    }
    assert found[0] in found && found[1] in found && found[0] < found[1];
    return Err(SiteAmbiguous);
  }

  lemma {:induction false} NoNames(image: seq<byte>)
    ensures forall place :: !Names(image, [], place)
  {
  }

  function Offset(hits: seq<nat>, at: nat): (r: seq<nat>)
    ensures |r| == |hits| && forall i :: 0 <= i < |r| ==> r[i] == hits[i] + at
  {
    seq(|hits|, i requires 0 <= i < |hits| => hits[i] + at)
  }

  lemma {:induction false} NamesMore(image: seq<byte>, alternatives: seq<Signature>, i: nat, more: seq<nat>)
    requires i < |alternatives|
    requires more == Offset(Found(image, alternatives[i].pattern), alternatives[i].at)
    ensures forall place ::
      Names(image, alternatives[..i + 1], place) <==> Names(image, alternatives[..i], place) || place in more
  {
    hide Found;
    var hits, at := Found(image, alternatives[i].pattern), alternatives[i].at;
    forall place: nat
      ensures place in more <==> at <= place && (place - at) in hits
    {
      if place in more {
        var j :| 0 <= j < |more| && more[j] == place;
        assert hits[j] == place - at;
      }
      if at <= place && (place - at) in hits {
        var j :| 0 <= j < |hits| && hits[j] == place - at;
        assert more[j] == place;
      }
    }
    var upto := alternatives[..i + 1];
    assert upto[i] == alternatives[i] && upto[..i] == alternatives[..i];
    forall place: nat
      ensures Names(image, upto, place) <==> Names(image, alternatives[..i], place) || place in more
    {
      if Names(image, alternatives[..i], place) {
        var j :| 0 <= j < i && alternatives[..i][j].at <= place
                 && (place - alternatives[..i][j].at) in Found(image, alternatives[..i][j].pattern);
        assert upto[j] == alternatives[..i][j];
      }
      if Names(image, upto, place) {
        var j :| 0 <= j < i + 1 && upto[j].at <= place && (place - upto[j].at) in Found(image, upto[j].pattern);
        if j < i {
          assert alternatives[..i][j] == upto[j];
        }
      }
      if place in more {
        assert upto[i].at <= place && (place - upto[i].at) in Found(image, upto[i].pattern);
      }
    }
  }

  // ----- the target of a branch

  /** The target of the call or jump at `rva`. */
  function BranchTarget(image: seq<byte>, rva: nat): Option<nat> {
    if rva + 5 > |image| || (image[rva] != 0xe8 && image[rva] != 0xe9) then None
    else
      var target := rva + 5 + I32(image[rva + 1..rva + 5]);
      if 0 <= target < WORD64 then Some(target) else None
  }

  /** A target is read exactly where a call or a jump with the distance to it stands. */
  lemma {:induction false} TargetIsBranch(image: seq<byte>, rva: nat, target: nat)
    ensures BranchTarget(image, rva) == Some(target)
       <==> target < 0x1_0000_0000_0000_0000 && Rel32(rva + 5, target).Ok? && rva + 5 <= |image|
            && (image[rva..rva + 5] == [0xe8] + Rel32(rva + 5, target).value
                || image[rva..rva + 5] == [0xe9] + Rel32(rva + 5, target).value)
  {
    hide I32, Rel32;
    if rva + 5 <= |image| {
      var field := image[rva + 1..rva + 5];
      assert image[rva..rva + 5] == [image[rva]] + field;
      Rel32Inverts(rva + 5, field);
      forall b: byte, other: seq<byte> | image[rva..rva + 5] == [b] + other
        ensures image[rva] == b && field == other
      {
        assert image[rva..rva + 5][0] == b && ([b] + other)[1..] == other;
      }
    }
  }

  lemma {:induction false} Rel32Inverts(end: int, field: seq<byte>)
    requires |field| == 4
    ensures Rel32(end, end + I32(field)) == Ok(field)
  {
    Le32OfI32(field);
  }

  /** Reading back the branch a write placed gives the entry it was aimed at. */
  lemma {:induction false} TargetReadsPlaced(image: seq<byte>, w: Write, unitBytes: nat, at: nat)
    requires WriteFits(w, unitBytes) && !w.kind.Edit? && PlacedWrite(w, 0, at).Ok? && at + w.entry < WORD64
    requires w.rva + |w.before| <= |image|
    requires image[w.rva..w.rva + |w.before|] == PlacedWrite(w, 0, at).value.after
    ensures BranchTarget(image, w.rva) == Some(at + w.entry)
  {
    hide I32, Rel32, PlacedWrite;
    BranchPlaced(w, at);
    InnerSlice(image, w.rva, |w.before|);
  }

  lemma {:induction false} BranchPlaced(w: Write, at: nat)
    requires !w.kind.Edit? && PlacedWrite(w, 0, at).Ok?
    ensures Rel32(w.rva + 5, at + w.entry).Ok?
    ensures var after := PlacedWrite(w, 0, at).value.after;
            |after| == 5 + |w.tail| && after[0] == (if w.kind.Jmp? then 0xe9 else 0xe8)
                && after[1..5] == Rel32(w.rva + 5, at + w.entry).value
  {
    hide I32;
  }

  /** The operand of a branch, read through the span of the write or from the image. */
  lemma {:induction false} InnerSlice(image: seq<byte>, at: nat, length: nat)
    requires at + length <= |image| && 5 <= length
    ensures image[at..at + length][1..5] == image[at + 1..at + 5]
    ensures image[at..at + length][0] == image[at]
  {
    var inner, outer := image[at..at + length][1..5], image[at + 1..at + 5];
    assert |inner| == |outer|;
    forall i | 0 <= i < 4 ensures inner[i] == outer[i] {
      assert image[at..at + length][1 + i] == image[at + 1 + i];
    }
    assert inner == outer;
  }
}
