/** What relocation guarantees (crates/core/src/unit.rs: `relocate`): it tracks the target build, and it is
    a fixed point there. */
module Relocated {
  import opened Outcome
  import opened Bytes
  import opened Units
  import opened Scan
  import opened Relocate

  // ----- addresses stay where they were moved to

  function Zeros(n: nat): (r: seq<int>)
    ensures |r| == n && forall i :: 0 <= i < n ==> r[i] == 0
  {
    seq(n, _ => 0)
  }

  /** The located sites of the relocated unit: none moves any further. */
  function Settled(sites: seq<Site>): Moves {
    Moves(sites, Zeros(|sites|))
  }

  lemma {:induction false} SiteSettles(m: Moves, image: seq<byte>, sites: seq<Site>, i: nat)
    requires Located(m, image) && |image| < WORD64 && MoveSites(m.sites, m) == Ok(sites) && i < |sites|
    ensures sites[i].start == m.sites[i].start + m.deltas[i] && sites[i].pattern == m.sites[i].pattern
  {
    AtMeaning(m, image, m.sites[i].start, sites[i].start);
    assert Covers(m.sites[i], m.sites[i].start);
  }

  lemma {:induction false} SitesSettle(m: Moves, image: seq<byte>, sites: seq<Site>)
    requires Located(m, image) && |image| < WORD64 && MoveSites(m.sites, m) == Ok(sites)
    ensures Located(Settled(sites), image) && Locate(sites, image) == Ok(Settled(sites))
  {
    hide Found, At;
    forall i | 0 <= i < |sites|
      ensures sites[i].start + Settled(sites).deltas[i] >= 0
      ensures Found(image, sites[i].pattern) == [sites[i].start + Settled(sites).deltas[i]]
    {
      SiteSettles(m, image, sites, i);
    }
    LocateFinds(Settled(sites), image);
  }

  lemma {:induction false} LocateFinds(m: Moves, image: seq<byte>)
    requires Located(m, image)
    ensures Locate(m.sites, image) == Ok(m)
  {
    hide Locate, Located;
    LocateMeaning(m.sites, image);
  }

  /** A moved address is one the relocated unit's own sites cover, and leave alone. */
  lemma {:induction false} AddressSettles(m: Moves, image: seq<byte>, sites: seq<Site>, rva: nat, to: nat)
    requires Located(m, image) && |image| < WORD64 && MoveSites(m.sites, m) == Ok(sites) && At(m, rva) == Ok(to)
    ensures At(Settled(sites), to) == Ok(to)
  {
    AtMeaning(m, image, rva, to);
    SitesSettle(m, image, sites);
    var i :| 0 <= i < |m.sites| && Covers(m.sites[i], rva);
    SiteSettles(m, image, sites, i);
    assert Covers(sites[i], to);
    AtMeaning(Settled(sites), image, to, to);
  }

  // ----- the writes

  predicate Extends(a: Pairs, b: Pairs) {
    |a| <= |b| && b[..|a|] == a
  }

  lemma {:induction false} LookupExtends(a: Pairs, b: Pairs, key: nat)
    requires Extends(a, b) && Lookup(a, key).Some?
    ensures Lookup(b, key) == Lookup(a, key)
    decreases a
  {
    if a[0].0 != key {
      assert b[0] == b[..|a|][0];
      assert b[1..][..|a| - 1] == b[..|a|][1..];
      LookupExtends(a[1..], b[1..], key);
    }
  }

  /** Each write was moved, and `moved` says from where to where. */
  predicate EachMoved(writes: seq<Write>, m: Moves, image: seq<byte>, ws: seq<Write>, moved: Pairs)
    requires |m.deltas| == |m.sites|
  {
    && |ws| == |writes| == |moved|
    && forall i :: 0 <= i < |writes| ==>
         MoveWrite(writes[i], m, image) == Ok(ws[i]) && moved[i] == (writes[i].rva, ws[i].rva)
  }

  /** What each retargeted call's stock became. */
  predicate StocksTell(writes: seq<Write>, ws: seq<Write>, stocks: Pairs)
    requires |ws| == |writes|
  {
    forall i :: 0 <= i < |writes| && writes[i].stock != 0 ==> Lookup(stocks, writes[i].stock) == Some(ws[i].stock)
  }

  predicate StocksFrom(writes: seq<Write>, ws: seq<Write>, earlier: Pairs, stocks: Pairs)
    requires |ws| == |writes|
  {
    forall p :: p in stocks ==>
      p in earlier || exists i :: 0 <= i < |writes| && writes[i].stock != 0 && p == (writes[i].stock, ws[i].stock)
  }

  lemma {:induction false} AgreeMeaning(stocks: Pairs, stock: nat, reached: nat)
    requires Agree(stocks, stock, reached).Ok?
    ensures var r := Agree(stocks, stock, reached).value;
      && Extends(stocks, r) && Lookup(r, stock) == Some(reached)
      && forall p :: p in r ==> p in stocks || p == (stock, reached)
  {
  }

  lemma {:induction false} ExtendsTrans(a: Pairs, b: Pairs, c: Pairs)
    requires Extends(a, b) && Extends(b, c)
    ensures Extends(a, c)
  {
    assert c[..|a|] == c[..|b|][..|a|];
  }

  lemma {:induction false} MovedMeaning(writes: seq<Write>, m: Moves, image: seq<byte>, done: Moved)
    returns (ws: seq<Write>, moved: Pairs)
    requires |m.deltas| == |m.sites| && MoveWritesFrom(writes, m, image, done).Ok?
    ensures var r := MoveWritesFrom(writes, m, image, done).value;
      && r.writes == done.writes + ws && r.moved == done.moved + moved
      && EachMoved(writes, m, image, ws, moved)
      && Extends(done.stocks, r.stocks)
      && StocksTell(writes, ws, r.stocks) && StocksFrom(writes, ws, done.stocks, r.stocks)
  {
    hide MoveWrite, Agree, Lookup, EachMoved, StocksTell, StocksFrom, Extends;
    if writes == [] {
      NothingMoved(m, image, done.stocks);
      ws, moved := [], [];
      assert done.writes + [] == done.writes && done.moved + [] == done.moved;
    } else {
      var r := MoveWritesFrom(writes, m, image, done).value;
      var w := MoveWrite(writes[0], m, image).value;
      var stocks := if writes[0].stock == 0 then done.stocks else Agree(done.stocks, writes[0].stock, w.stock).value;
      var rest, restMoved := MovedMeaning(writes[1..], m, image,
                                          Moved(done.writes + [w], stocks, done.moved + [(writes[0].rva, w.rva)]));
      ws, moved := [w] + rest, [(writes[0].rva, w.rva)] + restMoved;
      assert done.writes + [w] + rest == done.writes + ws;
      assert done.moved + [(writes[0].rva, w.rva)] + restMoved == done.moved + moved;
      EachMovedCons(writes, m, image, rest, restMoved);
      StocksCons(writes, w, rest, done.stocks, stocks, r.stocks);
    }
  }

  lemma {:induction false} NothingMoved(m: Moves, image: seq<byte>, stocks: Pairs)
    requires |m.deltas| == |m.sites|
    ensures EachMoved([], m, image, [], []) && Extends(stocks, stocks)
    ensures StocksTell([], [], stocks) && StocksFrom([], [], stocks, stocks)
  {
  }

  lemma {:induction false} StocksCons(writes: seq<Write>, w: Write, rest: seq<Write>, earlier: Pairs, stocks: Pairs,
                                      later: Pairs)
    requires writes != [] && |rest| == |writes[1..]| && Extends(stocks, later)
    requires if writes[0].stock == 0 then stocks == earlier else Agree(earlier, writes[0].stock, w.stock) == Ok(stocks)
    requires StocksTell(writes[1..], rest, later) && StocksFrom(writes[1..], rest, stocks, later)
    ensures Extends(earlier, later)
    ensures StocksTell(writes, [w] + rest, later) && StocksFrom(writes, [w] + rest, earlier, later)
  {
    hide Agree, Lookup;
    var ws := [w] + rest;
    if writes[0].stock != 0 {
      AgreeMeaning(earlier, writes[0].stock, w.stock);
      LookupExtends(stocks, later, writes[0].stock);
    }
    ExtendsTrans(earlier, stocks, later);
    forall i | 0 <= i < |writes| && writes[i].stock != 0
      ensures Lookup(later, writes[i].stock) == Some(ws[i].stock)
    {
      if i > 0 {
        assert writes[i] == writes[1..][i - 1] && ws[i] == rest[i - 1];
      }
    }
    forall p | p in later && p !in earlier
      ensures exists i :: 0 <= i < |writes| && writes[i].stock != 0 && p == (writes[i].stock, ws[i].stock)
    {
      if p in stocks {
        assert p == (writes[0].stock, ws[0].stock);
      } else {
        var i :| 0 <= i < |writes[1..]| && writes[1..][i].stock != 0 && p == (writes[1..][i].stock, rest[i].stock);
        assert writes[i + 1] == writes[1..][i] && ws[i + 1] == rest[i];
      }
    }
  }

  lemma {:induction false} EachMovedCons(writes: seq<Write>, m: Moves, image: seq<byte>, rest: seq<Write>,
                                         restMoved: Pairs)
    requires |m.deltas| == |m.sites| && writes != [] && MoveWrite(writes[0], m, image).Ok?
    requires EachMoved(writes[1..], m, image, rest, restMoved)
    ensures |rest| == |writes[1..]|
    ensures var w := MoveWrite(writes[0], m, image).value;
      EachMoved(writes, m, image, [w] + rest, [(writes[0].rva, w.rva)] + restMoved)
  {
    hide MoveWrite;
    var w := MoveWrite(writes[0], m, image).value;
    var ws, moved := [w] + rest, [(writes[0].rva, w.rva)] + restMoved;
    forall i | 0 <= i < |writes|
      ensures MoveWrite(writes[i], m, image) == Ok(ws[i]) && moved[i] == (writes[i].rva, ws[i].rva)
    {
      if i > 0 {
        assert writes[i] == writes[1..][i - 1] && ws[i] == rest[i - 1] && moved[i] == restMoved[i - 1];
      }
    }
  }

  predicate Identity(pairs: Pairs) {
    forall p :: p in pairs ==> p.0 == p.1
  }

  predicate AnyStock(writes: seq<Write>, s: nat) {
    s != 0 && exists i :: 0 <= i < |writes| && writes[i].stock == s
  }

  lemma {:induction false} AnyStockCons(writes: seq<Write>, s: nat)
    requires writes != []
    ensures AnyStock(writes, s) <==> (s != 0 && writes[0].stock == s) || AnyStock(writes[1..], s)
  {
    if AnyStock(writes[1..], s) {
      var i :| 0 <= i < |writes[1..]| && writes[1..][i].stock == s;
      assert writes[i + 1].stock == s;
    }
    if AnyStock(writes, s) && writes[0].stock != s {
      var i :| 0 <= i < |writes| && writes[i].stock == s;
      assert writes[1..][i - 1].stock == s;
    }
  }

  /** What is left behind by writes that do not move: identity pairs, one for every stock function. */
  ghost predicate FixedMeans(writes: seq<Write>, done: Moved, r: Moved) {
    && r.writes == done.writes + writes
    && Identity(r.stocks) && Identity(r.moved)
    && (forall s: nat :: (s, s) in r.stocks <==> (s, s) in done.stocks || AnyStock(writes, s))
    && (forall w :: w in writes ==> (w.rva, w.rva) in r.moved)
    && (forall p :: p in done.moved ==> p in r.moved)
  }

  lemma {:induction false} FixedWrites(writes: seq<Write>, m: Moves, image: seq<byte>, done: Moved)
    requires |m.deltas| == |m.sites| && Identity(done.stocks) && Identity(done.moved)
    requires forall w :: w in writes ==> MoveWrite(w, m, image) == Ok(w)
    ensures var r := MoveWritesFrom(writes, m, image, done); r.Ok? && FixedMeans(writes, done, r.value)
    decreases writes
  {
    hide MoveWrite, Lookup, FixedMeans;
    if writes == [] {
      NoFixed(done);
    } else {
      var w := writes[0];
      var stocks := if w.stock == 0 then done.stocks else Agree(done.stocks, w.stock, w.stock).value;
      var next := Moved(done.writes + [w], stocks, done.moved + [(w.rva, w.rva)]);
      FixedWrites(writes[1..], m, image, next);
      FixedCons(writes, done, next, MoveWritesFrom(writes, m, image, done).value);
    }
  }

  lemma {:induction false} NoFixed(done: Moved)
    requires Identity(done.stocks) && Identity(done.moved)
    ensures FixedMeans([], done, done)
  {
    assert done.writes + [] == done.writes;
  }

  lemma {:induction false} FixedCons(writes: seq<Write>, done: Moved, next: Moved, r: Moved)
    requires writes != [] && FixedMeans(writes[1..], next, r)
    requires var w := writes[0];
      && next.writes == done.writes + [w] && next.moved == done.moved + [(w.rva, w.rva)]
      && (forall s: nat :: (s, s) in next.stocks <==> (s, s) in done.stocks || (w.stock == s && s != 0))
    ensures FixedMeans(writes, done, r)
  {
    var w := writes[0];
    assert done.writes + [w] + writes[1..] == done.writes + writes;
    assert (w.rva, w.rva) in next.moved;
    assert writes == [w] + writes[1..];
    forall s: nat
      ensures (s, s) in r.stocks <==> (s, s) in done.stocks || AnyStock(writes, s)
    {
      AnyStockCons(writes, s);
    }
  }

  /** A moved write does not move again, whatever an edit of it was aimed at since. */
  lemma {:induction false} WriteSettles(m: Moves, image: seq<byte>, sites: seq<Site>, w: Write, w1: Write,
                                        after: seq<byte>)
    requires Located(m, image) && |image| < WORD64 && MoveSites(m.sites, m) == Ok(sites)
    requires MoveWrite(w, m, image) == Ok(w1)
    ensures MoveWrite(w1.(after := after), Settled(sites), image) == Ok(w1.(after := after))
  {
    AddressSettles(m, image, sites, w.rva, w1.rva);
  }

  // ----- the fixups

  /** Every moved fixup aimed, in order. */
  function AimAll(writes: seq<Write>, fixups: seq<Fixup>): (r: Result<seq<Write>>)
    ensures r.Ok? ==> |r.value| == |writes|
    decreases fixups
  {
    if fixups == [] then Ok(writes)
    else
      var next :- Aim(writes, fixups[0]);
      AimAll(next, fixups[1..])
  }

  predicate EachFixup(fixups: seq<Fixup>, m: Moves, stocks: Pairs, moved: Pairs, fs: seq<Fixup>)
    requires |m.deltas| == |m.sites|
  {
    && |fs| == |fixups|
    && forall j :: 0 <= j < |fs| ==> MoveFixup(fixups[j], m, stocks, moved) == Ok(fs[j])
  }

  lemma {:induction false} FixupsMeaning(fixups: seq<Fixup>, m: Moves, stocks: Pairs, moved: Pairs, done: Aimed)
    returns (fs: seq<Fixup>)
    requires |m.deltas| == |m.sites| && MoveFixupsFrom(fixups, m, stocks, moved, done).Ok?
    ensures var r := MoveFixupsFrom(fixups, m, stocks, moved, done).value;
      && r.fixups == done.fixups + fs && EachFixup(fixups, m, stocks, moved, fs)
      && AimAll(done.writes, fs) == Ok(r.writes)
  {
    hide MoveFixup, Aim;
    if fixups == [] {
      fs := [];
      assert done.fixups + [] == done.fixups;
    } else {
      var f := MoveFixup(fixups[0], m, stocks, moved).value;
      var writes := Aim(done.writes, f).value;
      var rest := FixupsMeaning(fixups[1..], m, stocks, moved, Aimed(writes, done.fixups + [f]));
      fs := [f] + rest;
      assert done.fixups + [f] + rest == done.fixups + fs;
      assert fs[1..] == rest;
      forall j | 0 <= j < |fs|
        ensures MoveFixup(fixups[j], m, stocks, moved) == Ok(fs[j])
      {
        if j > 0 {
          assert fixups[j] == fixups[1..][j - 1] && fs[j] == rest[j - 1];
        }
      }
    }
  }

  lemma {:induction false} FixupsMade(fixups: seq<Fixup>, m: Moves, stocks: Pairs, moved: Pairs, done: Aimed,
                                      fs: seq<Fixup>, writes: seq<Write>)
    requires |m.deltas| == |m.sites| && EachFixup(fixups, m, stocks, moved, fs) && AimAll(done.writes, fs) == Ok(writes)
    ensures MoveFixupsFrom(fixups, m, stocks, moved, done) == Ok(Aimed(writes, done.fixups + fs))
    decreases fixups
  {
    hide MoveFixup, Aim;
    if fixups == [] {
      assert done.fixups + fs == done.fixups;
    } else {
      assert MoveFixup(fixups[0], m, stocks, moved) == Ok(fs[0]);
      var next := Aim(done.writes, fs[0]).value;
      forall j | 0 <= j < |fs[1..]|
        ensures MoveFixup(fixups[1..][j], m, stocks, moved) == Ok(fs[1..][j])
      {
        assert fixups[1..][j] == fixups[j + 1] && fs[1..][j] == fs[j + 1];
      }
      FixupsMade(fixups[1..], m, stocks, moved, Aimed(next, done.fixups + [fs[0]]), fs[1..], writes);
      assert done.fixups + [fs[0]] + fs[1..] == done.fixups + fs;
    }
  }

  /** One fixup that cannot be moved refuses them all. */
  lemma {:induction false} FixupRefused(fixups: seq<Fixup>, m: Moves, stocks: Pairs, moved: Pairs, done: Aimed, j: nat)
    requires |m.deltas| == |m.sites| && j < |fixups| && MoveFixup(fixups[j], m, stocks, moved).Err?
    ensures MoveFixupsFrom(fixups, m, stocks, moved, done).Err?
    decreases fixups
  {
    hide MoveFixup, Aim;
    if j > 0 {
      var f := MoveFixup(fixups[0], m, stocks, moved);
      if f.Ok? && Aim(done.writes, f.value).Ok? {
        FixupRefused(fixups[1..], m, stocks, moved,
                     Aimed(Aim(done.writes, f.value).value, done.fixups + [f.value]), j - 1);
      }
    }
  }

  // ----- aiming twice

  /** The two lists differ at most in the bytes their edits write. */
  predicate SameShape(a: seq<Write>, b: seq<Write>) {
    && |a| == |b|
    && forall i :: 0 <= i < |a| ==> a[i].(after := b[i].after) == b[i] && |a[i].after| == |b[i].after|
  }

  /** Byte `k` of edit `i` is one the fixup writes. */
  predicate AimsAt(writes: seq<Write>, f: Fixup, i: nat, k: nat) {
    f.Retarget? && FindEdit(writes, f.rva) == Some(i) && f.offset <= k < f.offset + 4
  }

  predicate AgreeExcept(a: seq<Write>, b: seq<Write>, fixups: seq<Fixup>) {
    && SameShape(a, b)
    && forall i, k :: 0 <= i < |a| && 0 <= k < |a[i].after| && (forall f :: f in fixups ==> !AimsAt(a, f, i, k))
         ==> a[i].after[k] == b[i].after[k]
  }

  lemma {:induction false} FindEditSame(a: seq<Write>, b: seq<Write>, rva: nat)
    requires SameShape(a, b)
    ensures FindEdit(a, rva) == FindEdit(b, rva)
    decreases a
  {
    if a != [] {
      assert a[0].(after := b[0].after) == b[0];
      forall i | 0 <= i < |a[1..]|
        ensures a[1..][i].(after := b[1..][i].after) == b[1..][i] && |a[1..][i].after| == |b[1..][i].after|
      {
        assert a[1..][i] == a[i + 1] && b[1..][i] == b[i + 1];
      }
      FindEditSame(a[1..], b[1..], rva);
    }
  }

  lemma {:induction false} SameShapeTrans(a: seq<Write>, b: seq<Write>, c: seq<Write>)
    requires SameShape(a, b) && SameShape(b, c)
    ensures SameShape(a, c)
  {
  }

  lemma {:induction false} AimShape(writes: seq<Write>, f: Fixup)
    requires Aim(writes, f).Ok?
    ensures SameShape(writes, Aim(writes, f).value)
    ensures var r := Aim(writes, f).value;
      forall i, k :: 0 <= i < |writes| && 0 <= k < |writes[i].after| && !AimsAt(writes, f, i, k)
        ==> r[i].after[k] == writes[i].after[k]
  {
  }

  /** Aiming changes only the bytes the fixups name. */
  lemma {:induction false} AimAllOutside(writes: seq<Write>, fixups: seq<Fixup>)
    requires AimAll(writes, fixups).Ok?
    ensures AgreeExcept(writes, AimAll(writes, fixups).value, fixups)
    decreases fixups
  {
    hide Aim, AimsAt, SameShape;
    var r := AimAll(writes, fixups).value;
    if fixups == [] {
      SameShapeItself(writes);
    } else {
      var next := Aim(writes, fixups[0]).value;
      AimShape(writes, fixups[0]);
      AimAllOutside(next, fixups[1..]);
      SameShapeTrans(writes, next, r);
      forall i, k | 0 <= i < |writes| && 0 <= k < |writes[i].after| &&
                    (forall f :: f in fixups ==> !AimsAt(writes, f, i, k))
        ensures writes[i].after[k] == r[i].after[k]
      {
        assert fixups[0] in fixups;
        forall f | f in fixups[1..]
          ensures !AimsAt(next, f, i, k)
        {
          assert f in fixups;
          AimsAtSame(writes, next, f, i, k);
        }
      }
    }
  }

  lemma {:induction false} SameShapeItself(writes: seq<Write>)
    ensures SameShape(writes, writes)
  {
  }

  lemma {:induction false} AimsAtSame(a: seq<Write>, b: seq<Write>, f: Fixup, i: nat, k: nat)
    requires SameShape(a, b)
    ensures AimsAt(a, f, i, k) <==> AimsAt(b, f, i, k)
  {
    if f.Retarget? {
      FindEditSame(a, b, f.rva);
    }
  }

  /** One aim of two lists that agree outside the fixups: they agree on one slot more. */
  lemma {:induction false} AimOneAgrees(a: seq<Write>, b: seq<Write>, fixups: seq<Fixup>)
    requires fixups != [] && AgreeExcept(a, b, fixups)
    ensures Aim(a, fixups[0]).Ok? <==> Aim(b, fixups[0]).Ok?
    ensures Aim(a, fixups[0]).Err? ==> Aim(a, fixups[0]) == Aim(b, fixups[0])
    ensures Aim(a, fixups[0]).Ok? ==> AgreeExcept(Aim(a, fixups[0]).value, Aim(b, fixups[0]).value, fixups[1..])
  {
    var f := fixups[0];
    if f.Retarget? {
      FindEditSame(a, b, f.rva);
    }
    if Aim(a, f).Ok? {
      var a', b' := Aim(a, f).value, Aim(b, f).value;
      AimedSameShape(a, b, f);
      AimShape(a, f);
      forall i, k | 0 <= i < |a'| && 0 <= k < |a'[i].after| && (forall g :: g in fixups[1..] ==> !AimsAt(a', g, i, k))
        ensures a'[i].after[k] == b'[i].after[k]
      {
        AimByte(a, b, f, i, k);
        if !AimsAt(a, f, i, k) {
          forall g | g in fixups
            ensures !AimsAt(a, g, i, k)
          {
            AimsAtSame(a, a', g, i, k);
          }
        }
      }
    }
  }

  lemma {:induction false} AimedSameShape(a: seq<Write>, b: seq<Write>, f: Fixup)
    requires SameShape(a, b) && Aim(a, f).Ok? && Aim(b, f).Ok?
    ensures SameShape(Aim(a, f).value, Aim(b, f).value)
  {
    if f.Retarget? {
      FindEditSame(a, b, f.rva);
    }
  }

  lemma {:induction false} AimByte(a: seq<Write>, b: seq<Write>, f: Fixup, i: nat, k: nat)
    requires SameShape(a, b) && Aim(a, f).Ok? && Aim(b, f).Ok? && i < |a| && k < |a[i].after|
    ensures var a', b' := Aim(a, f).value, Aim(b, f).value;
      && |a'| == |b'| == |a| && |a'[i].after| == |b'[i].after| == |a[i].after| == |b[i].after|
      && (AimsAt(a, f, i, k) ==> a'[i].after[k] == b'[i].after[k])
      && (!AimsAt(a, f, i, k) ==> a'[i].after[k] == a[i].after[k] && b'[i].after[k] == b[i].after[k])
  {
    if f.Retarget? {
      FindEditSame(a, b, f.rva);
      if AimsAt(a, f, i, k) {
        var rel := Rel32(f.rva + f.offset + 4, f.target).value;
        assert Put(a[i].after, f.offset, rel)[k]
            == Put(a[i].after, f.offset, rel)[f.offset..f.offset + 4][k - f.offset];
        assert Put(b[i].after, f.offset, rel)[k]
            == Put(b[i].after, f.offset, rel)[f.offset..f.offset + 4][k - f.offset];
      }
    }
  }

  lemma {:induction false} AimAllAgrees(a: seq<Write>, b: seq<Write>, fixups: seq<Fixup>)
    requires AgreeExcept(a, b, fixups)
    ensures AimAll(a, fixups) == AimAll(b, fixups)
    decreases fixups
  {
    hide Aim, AimsAt;
    if fixups == [] {
      AgreeEverywhere(a, b);
    } else {
      AimOneAgrees(a, b, fixups);
      if Aim(a, fixups[0]).Ok? {
        AimAllAgrees(Aim(a, fixups[0]).value, Aim(b, fixups[0]).value, fixups[1..]);
      }
    }
  }

  lemma {:induction false} AgreeEverywhere(a: seq<Write>, b: seq<Write>)
    requires AgreeExcept(a, b, [])
    ensures a == b
  {
    forall i | 0 <= i < |a|
      ensures a[i] == b[i]
    {
      assert a[i].after == b[i].after;
    }
  }

  /** Aiming what was already aimed changes nothing, overlapping slots included. */
  lemma {:induction false} AimTwice(writes: seq<Write>, fixups: seq<Fixup>)
    requires AimAll(writes, fixups).Ok?
    ensures AimAll(AimAll(writes, fixups).value, fixups) == AimAll(writes, fixups)
  {
    AimAllOutside(writes, fixups);
    AimAllAgrees(writes, AimAll(writes, fixups).value, fixups);
  }

  // ----- a fixup moved twice

  /** A delta whose target is the function at rva 0, which the second run cannot tell from "no stock". */
  predicate ToZero(f: Fixup) {
    f.Delta? && f.to == 0
  }

  /** A moved fixup does not move again, unless it is a delta to rva 0. */
  lemma {:induction false} FixupSettles(m: Moves, image: seq<byte>, sites: seq<Site>, f: Fixup, f1: Fixup,
                                        stocks: Pairs, moved: Pairs, stocks2: Pairs, moved2: Pairs)
    requires Located(m, image) && |image| < WORD64 && MoveSites(m.sites, m) == Ok(sites)
    requires MoveFixup(f, m, stocks, moved) == Ok(f1)
    requires Identity(stocks2) && Identity(moved2)
    requires forall p :: p in stocks && p.1 != 0 ==> (p.1, p.1) in stocks2
    requires (0, 0) !in stocks2
    requires forall p :: p in moved ==> (p.1, p.1) in moved2
    ensures MoveFixup(f1, Settled(sites), stocks2, moved2) == if ToZero(f1) then Err(NoStock) else Ok(f1)
  {
    hide At, Located, MoveSites, Lookup;
    match f
    case Abs64(_, target) => AddressSettles(m, image, sites, target, f1.target);
    case Branch(_, target) => AddressSettles(m, image, sites, target, f1.target);
    case Delta(_, from, to) =>
      AddressSettles(m, image, sites, from, f1.from);
      assert (to, f1.to) in stocks;
    case Retarget(rva, _, target) =>
      AddressSettles(m, image, sites, target, f1.target);
      assert (rva, f1.rva) in moved;
    case _ =>
  }

  lemma {:induction false} NativesSettle(natives: seq<Native>, m: Moves, image: seq<byte>, sites: seq<Site>)
    requires Located(m, image) && |image| < WORD64 && MoveSites(m.sites, m) == Ok(sites) && MoveNatives(natives, m).Ok?
    ensures var r := MoveNatives(natives, m); MoveNatives(r.value, Settled(sites)) == r
  {
    hide At, Found, MoveSites;
    if natives != [] {
      var r := MoveNatives(natives, m).value;
      AddressSettles(m, image, sites, natives[0].rva, r[0].rva);
      NativesSettle(natives[1..], m, image, sites);
      assert r[1..] == MoveNatives(natives[1..], m).value;
    }
  }

  lemma {:induction false} AnchorsSettle(anchors: seq<Anchor>, m: Moves, image: seq<byte>, sites: seq<Site>)
    requires Located(m, image) && |image| < WORD64 && MoveSites(m.sites, m) == Ok(sites)
      && MoveAnchors(anchors, m, image).Ok?
    ensures var r := MoveAnchors(anchors, m, image); MoveAnchors(r.value, Settled(sites), image) == r
  {
    hide At, Found, MoveSites;
    if anchors != [] {
      var r := MoveAnchors(anchors, m, image).value;
      AddressSettles(m, image, sites, anchors[0].rva, r[0].rva);
      AnchorsSettle(anchors[1..], m, image, sites);
      assert r[1..] == MoveAnchors(anchors[1..], m, image).value;
    }
  }

  lemma {:induction false} SitesStay(sites: seq<Site>, m: Moves)
    requires |m.deltas| == |m.sites| && forall s :: s in sites ==> At(m, s.start) == Ok(s.start)
    ensures MoveSites(sites, m) == Ok(sites)
  {
    hide At;
    if sites != [] {
      assert sites[0] in sites;
      SitesStay(sites[1..], m);
      assert sites == [sites[0]] + sites[1..];
    }
  }

  lemma {:induction false} OwnSitesStay(m: Moves, image: seq<byte>, sites: seq<Site>)
    requires Located(m, image) && |image| < WORD64 && MoveSites(m.sites, m) == Ok(sites)
    ensures MoveSites(sites, Settled(sites)) == Ok(sites)
  {
    hide At, Located;
    forall s | s in sites
      ensures At(Settled(sites), s.start) == Ok(s.start)
    {
      var i :| 0 <= i < |sites| && sites[i] == s;
      AddressSettles(m, image, sites, m.sites[i].start, s.start);
    }
    SitesStay(sites, Settled(sites));
  }

  // ----- the whole unit

  /** The parts of a relocation, named. */
  datatype Parts = Parts(m: Moves, ws: seq<Write>, stocks: Pairs, moved: Pairs, fs: seq<Fixup>)

  predicate IsRelocation(u: Unit, image: seq<byte>, sha: string, r: Unit, p: Parts) {
    && |p.m.deltas| == |p.m.sites| && Locate(u.sites, image) == Ok(p.m) && p.m.sites == u.sites
    && EachMoved(u.writes, p.m, image, p.ws, p.moved)
    && StocksTell(u.writes, p.ws, p.stocks) && StocksFrom(u.writes, p.ws, [], p.stocks)
    && EachFixup(u.fixups, p.m, p.stocks, p.moved, p.fs)
    && AimAll(p.ws, p.fs) == Ok(r.writes)
    && r.fixups == p.fs
    && MoveNatives(u.natives, p.m) == Ok(r.natives)
    && MoveAnchors(u.anchors, p.m, image) == Ok(r.anchors)
    && MoveSites(u.sites, p.m) == Ok(r.sites)
    && r == u.(sourceSha := sha, verified := [], writes := r.writes, fixups := r.fixups,
               natives := r.natives, anchors := r.anchors, sites := r.sites)
  }

  lemma {:induction false} TakeApart(u: Unit, image: seq<byte>, sha: string) returns (p: Parts)
    requires RelocateUnit(u, image, sha).Ok?
    ensures IsRelocation(u, image, sha, RelocateUnit(u, image, sha).value, p)
  {
    hide Locate, MoveWritesFrom, MoveFixupsFrom, MoveNatives, MoveAnchors, MoveSites, EachMoved, StocksTell, StocksFrom,
         EachFixup, AimAll, Extends;
    var m := Locate(u.sites, image).value;
    LocateShape(u.sites, image);
    var done := MoveWritesFrom(u.writes, m, image, Moved([], [], [])).value;
    var ws, moved := MovedMeaning(u.writes, m, image, Moved([], [], []));
    assert [] + ws == ws && [] + moved == moved;
    var fs := FixupsMeaning(u.fixups, m, done.stocks, done.moved, Aimed(done.writes, []));
    assert [] + fs == fs;
    p := Parts(m, ws, done.stocks, moved, fs);
  }

  lemma {:induction false} WritesSettle(u: Unit, image: seq<byte>, sha: string, r: Unit, p: Parts)
    requires IsRelocation(u, image, sha, r, p) && |image| < WORD64
    ensures forall w :: w in r.writes ==> MoveWrite(w, Settled(r.sites), image) == Ok(w)
    ensures |r.writes| == |p.ws|
    ensures forall i :: 0 <= i < |p.ws| ==> r.writes[i].stock == p.ws[i].stock && r.writes[i].rva == p.ws[i].rva
  {
    hide Locate, MoveWrite, MoveNatives, MoveAnchors, MoveSites, AimAll, EachFixup, StocksTell, StocksFrom, Located;
    LocateMeaning(u.sites, image);
    AimAllOutside(p.ws, p.fs);
    forall i | 0 <= i < |r.writes|
      ensures MoveWrite(r.writes[i], Settled(r.sites), image) == Ok(r.writes[i])
      ensures r.writes[i].stock == p.ws[i].stock && r.writes[i].rva == p.ws[i].rva
    {
      assert p.ws[i].(after := r.writes[i].after) == r.writes[i];
      WriteSettles(p.m, image, r.sites, u.writes[i], p.ws[i], r.writes[i].after);
    }
  }

  /** What the second run remembers covers everything the first one resolved. */
  lemma {:induction false} PairsSettle(u: Unit, image: seq<byte>, sha: string, r: Unit, p: Parts, done: Moved)
    requires IsRelocation(u, image, sha, r, p) && |r.writes| == |p.ws|
    requires forall i :: 0 <= i < |p.ws| ==> r.writes[i].stock == p.ws[i].stock && r.writes[i].rva == p.ws[i].rva
    requires FixedMeans(r.writes, Moved([], [], []), done)
    ensures Identity(done.stocks) && Identity(done.moved) && (0, 0) !in done.stocks && done.writes == r.writes
    ensures forall q :: q in p.stocks && q.1 != 0 ==> (q.1, q.1) in done.stocks
    ensures forall q :: q in p.moved ==> (q.1, q.1) in done.moved
  {
    hide Locate, MoveWrite, MoveNatives, MoveAnchors, MoveSites, AimAll, EachFixup, StocksTell;
    assert [] + r.writes == r.writes;
    assert !AnyStock(r.writes, 0);
    forall q | q in p.stocks && q.1 != 0
      ensures (q.1, q.1) in done.stocks
    {
      var i :| 0 <= i < |u.writes| && u.writes[i].stock != 0 && q == (u.writes[i].stock, p.ws[i].stock);
      assert r.writes[i].stock == q.1;
      assert AnyStock(r.writes, q.1);
    }
    forall q | q in p.moved
      ensures (q.1, q.1) in done.moved
    {
      var i :| 0 <= i < |p.moved| && p.moved[i] == q;
      assert r.writes[i] in r.writes && r.writes[i].rva == q.1;
    }
  }

  /** Relocation is a fixed point exactly when no relocated delta aims at rva 0: relocating the result
      against the same image again changes nothing then, and is refused otherwise. */
  lemma {:induction false} RelocationIsFixedPoint(u: Unit, image: seq<byte>, sha: string)
    requires |image| < WORD64 && RelocateUnit(u, image, sha).Ok?
    ensures var r := RelocateUnit(u, image, sha).value;
      && (RelocateUnit(r, image, sha) == Ok(r) <==> forall f :: f in r.fixups ==> !ToZero(f))
      && (RelocateUnit(r, image, sha).Err? <==> exists f :: f in r.fixups && ToZero(f))
  {
    hide RelocateUnit, Locate, MoveWrite, MoveNatives, MoveAnchors, MoveSites, AimAll, Located, MoveFixup, FixedMeans,
         MoveWritesFrom, MoveFixupsFrom;
    var r := RelocateUnit(u, image, sha).value;
    var p := TakeApart(u, image, sha);
    LocateMeaning(u.sites, image);
    var m2 := Settled(r.sites);
    SitesSettle(p.m, image, r.sites);
    WritesSettle(u, image, sha, r, p);
    FixedWrites(r.writes, m2, image, Moved([], [], []));
    var done := MoveWritesFrom(r.writes, m2, image, Moved([], [], [])).value;
    PairsSettle(u, image, sha, r, p, done);
    forall j | 0 <= j < |p.fs|
      ensures MoveFixup(p.fs[j], m2, done.stocks, done.moved) == if ToZero(p.fs[j]) then Err(NoStock) else Ok(p.fs[j])
    {
      FixupSettles(p.m, image, r.sites, u.fixups[j], p.fs[j], p.stocks, p.moved, done.stocks, done.moved);
    }
    if exists f :: f in r.fixups && ToZero(f) {
      var f :| f in r.fixups && ToZero(f);
      var j :| 0 <= j < |p.fs| && p.fs[j] == f;
      FixupRefused(r.fixups, m2, done.stocks, done.moved, Aimed(r.writes, []), j);
      SecondRun(r, image, sha, m2, done);
    } else {
      assert forall j :: 0 <= j < |p.fs| ==> p.fs[j] in r.fixups;
      AimTwice(p.ws, p.fs);
      FixupsMade(r.fixups, m2, done.stocks, done.moved, Aimed(r.writes, []), p.fs, r.writes);
      assert [] + p.fs == p.fs;
      SecondRun(r, image, sha, m2, done);
      NativesSettle(u.natives, p.m, image, r.sites);
      AnchorsSettle(u.anchors, p.m, image, r.sites);
      OwnSitesStay(p.m, image, r.sites);
    }
  }

  /** A six-byte image whose call at rva 1 reaches rva 0. */
  const CALLS_ZERO: seq<byte> := [0x90, 0xe8, 0xfa, 0xff, 0xff, 0xff]

  const CALL_SITE := Site("call", 1, 1, [Some(0xe8), Some(0xfa), Some(0xff), Some(0xff), Some(0xff)])

  const CALL_WRITE := Write(Call, 1, [0xe8, 0, 0, 0, 0], 0, "call", [], [], 7)

  /** A unit that retargets that call and keeps the distance to the function it called. */
  const ZERO_UNIT := Unit("zero", "", "", "", 4, [], [CALL_WRITE], [Delta(0, 1, 7)], [], [], [CALL_SITE], [])

  lemma {:induction false} OnlyOne(s: seq<nat>, x: nat)
    requires Increasing(s) && forall y: nat :: y in s <==> y == x
    ensures s == [x]
  {
    assert x in s;
    assert s[0] in s && s[|s| - 1] in s;
  }

  lemma {:induction false} CallIsFound()
    ensures Locate([CALL_SITE], CALLS_ZERO) == Ok(Moves([CALL_SITE], [0]))
  {
    hide Locate, Found;
    FoundMeaning(CALLS_ZERO, CALL_SITE.pattern);
    var found := Found(CALLS_ZERO, CALL_SITE.pattern);
    assert CALL_SITE.pattern[0].Some?;
    assert Matches(CALLS_ZERO, CALL_SITE.pattern, 1);
    assert !Matches(CALLS_ZERO, CALL_SITE.pattern, 0);
    assert forall s: nat :: s in found <==> s == 1;
    OnlyOne(found, 1);
    LocateMeaning([CALL_SITE], CALLS_ZERO);
    assert Located(Moves([CALL_SITE], [0]), CALLS_ZERO);
  }

  /** Relocation is not a fixed point of every unit: this one relocates, and its result is refused. */
  lemma {:induction false} ZeroUnitIsNoFixedPoint(sha: string)
    ensures RelocateUnit(ZERO_UNIT, CALLS_ZERO, sha).Ok?
    ensures RelocateUnit(RelocateUnit(ZERO_UNIT, CALLS_ZERO, sha).value, CALLS_ZERO, sha).Err?
  {
    hide Locate;
    CallIsFound();
    var m := Moves([CALL_SITE], [0]);
    assert m.sites[1..] == [] && m.deltas[1..] == [];
    assert Covers(CALL_SITE, 1);
    assert DeltaFrom(m.sites, m.deltas, 1, None) == DeltaFrom([], [], 1, Some(0)) == Ok(Some(0));
    assert At(m, 1) == Ok(1);
    var before := CALLS_ZERO[1..6];
    var rel: seq<byte> := [0xfa, 0xff, 0xff, 0xff];
    assert U32(rel) == 0xffff_fffa && I32(rel) == -6;
    assert BytesAt(CALLS_ZERO, 1, 5) == Ok(before);
    assert before == [0xe8, 0xfa, 0xff, 0xff, 0xff];
    assert before[1..5] == rel;
    assert Reached(CALLS_ZERO, 1, before) == Ok(0);
    var w := CALL_WRITE.(before := before, stock := 0);
    assert MoveWrite(CALL_WRITE, m, CALLS_ZERO) == Ok(w);
    assert [CALL_WRITE][1..] == [] && [] + [w] == [w];
    var none: Pairs := [];
    assert none + [(7, 0)] == [(7, 0)] && none + [(1, 1)] == [(1, 1)];
    assert Agree([], 7, 0) == Ok([(7, 0)]);
    assert MoveWritesFrom([], m, CALLS_ZERO, Moved([w], [(7, 0)], [(1, 1)])) == Ok(Moved([w], [(7, 0)], [(1, 1)]));
    assert MoveWritesFrom([CALL_WRITE], m, CALLS_ZERO, Moved([], [], [])) == Ok(Moved([w], [(7, 0)], [(1, 1)]));
    assert MoveFixup(Delta(0, 1, 7), m, [(7, 0)], [(1, 1)]) == Ok(Delta(0, 1, 0));
    assert [Delta(0, 1, 7)][1..] == [] && [] + [Delta(0, 1, 0)] == [Delta(0, 1, 0)];
    assert Aim([w], Delta(0, 1, 0)) == Ok([w]);
    assert MoveFixupsFrom([], m, [(7, 0)], [(1, 1)], Aimed([w], [Delta(0, 1, 0)])) == Ok(Aimed([w], [Delta(0, 1, 0)]));
    assert MoveFixupsFrom([Delta(0, 1, 7)], m, [(7, 0)], [(1, 1)], Aimed([w], [])) == Ok(Aimed([w], [Delta(0, 1, 0)]));
    assert MoveSites([CALL_SITE], m).Ok?;
    var r := RelocateUnit(ZERO_UNIT, CALLS_ZERO, sha).value;
    assert r.fixups == [Delta(0, 1, 0)];
    assert ToZero(r.fixups[0]);
    RelocationIsFixedPoint(ZERO_UNIT, CALLS_ZERO, sha);
  }

  lemma {:induction false} SecondRun(r: Unit, image: seq<byte>, sha: string, m2: Moves, done: Moved)
    requires |m2.deltas| == |m2.sites| && Locate(r.sites, image) == Ok(m2)
    requires MoveWritesFrom(r.writes, m2, image, Moved([], [], [])) == Ok(done)
    ensures var aimed := MoveFixupsFrom(r.fixups, m2, done.stocks, done.moved, Aimed(done.writes, []));
      && (aimed.Err? ==> RelocateUnit(r, image, sha).Err?)
      && (aimed == Ok(Aimed(r.writes, r.fixups)) && MoveNatives(r.natives, m2) == Ok(r.natives)
          && MoveAnchors(r.anchors, m2, image) == Ok(r.anchors) && MoveSites(r.sites, m2) == Ok(r.sites)
          && r.sourceSha == sha && r.verified == []
          ==> RelocateUnit(r, image, sha) == Ok(r))
  {
    hide Locate, MoveWritesFrom, MoveFixupsFrom, MoveNatives, MoveAnchors, MoveSites;
  }

  // ----- relocation tracks the target build

  /** A relocated write: its address moved with its site, the bytes it replaces read from the image, and its
      stock the function the branch there reaches. */
  predicate Tracks(w: Write, r: Write, m: Moves, image: seq<byte>)
    requires |m.deltas| == |m.sites|
  {
    && At(m, w.rva) == Ok(r.rva)
    && r.rva + |w.before| <= |image| && r.before == image[r.rva..r.rva + |w.before|]
    && (w.stock == 0 ==> r.stock == 0)
    && (w.stock != 0 ==> |r.before| >= 5 && r.stock < |image|
                         && r.rva + 5 + I32(image[r.rva + 1..r.rva + 5]) == r.stock)
    && r == w.(rva := r.rva, before := r.before, stock := r.stock, after := r.after)
  }

  /** The edit slot the fixup names leads to its target. */
  predicate SlotLeads(writes: seq<Write>, f: Fixup) {
    f.Retarget? ==>
      match FindEdit(writes, f.rva)
      case None => false
      case Some(i) => f.offset + 4 <= |writes[i].after|
                      && f.rva + f.offset + 4 + I32(writes[i].after[f.offset..f.offset + 4]) == f.target
  }

  predicate RetargetsApart(fixups: seq<Fixup>) {
    forall i, j :: 0 <= i < j < |fixups| && fixups[i].Retarget? && fixups[j].Retarget? && fixups[i].rva == fixups[j].rva
      ==> fixups[i].offset + 4 <= fixups[j].offset || fixups[j].offset + 4 <= fixups[i].offset
  }

  lemma {:induction false} AimedSlotLeads(writes: seq<Write>, fixups: seq<Fixup>)
    requires fixups != [] && AimAll(writes, fixups).Ok? && RetargetsApart(fixups)
    ensures SlotLeads(AimAll(writes, fixups).value, fixups[0])
  {
    var f := fixups[0];
    if f.Retarget? {
      var next := Aim(writes, f).value;
      var r := AimAll(writes, fixups).value;
      var i := FindEdit(writes, f.rva).value;
      AimShape(writes, f);
      AimAllOutside(next, fixups[1..]);
      FindEditSame(writes, next, f.rva);
      FindEditSame(next, r, f.rva);
      forall k | f.offset <= k < f.offset + 4
        ensures r[i].after[k] == next[i].after[k]
      {
        forall g | g in fixups[1..]
          ensures !AimsAt(next, g, i, k)
        {
          var j :| 0 <= j < |fixups[1..]| && fixups[1..][j] == g;
          assert fixups[j + 1] == g;
          if g.Retarget? && FindEdit(next, g.rva) == Some(i) {
            assert g.rva == next[i].rva == f.rva;
          }
        }
      }
      assert r[i].after[f.offset..f.offset + 4] == next[i].after[f.offset..f.offset + 4];
    }
  }

  lemma {:induction false} AllSlotsLead(writes: seq<Write>, fixups: seq<Fixup>, j: nat)
    requires j < |fixups| && AimAll(writes, fixups).Ok? && RetargetsApart(fixups)
    ensures SlotLeads(AimAll(writes, fixups).value, fixups[j])
    decreases fixups
  {
    hide SlotLeads, Aim;
    if j == 0 {
      AimedSlotLeads(writes, fixups);
    } else {
      forall a, b | 0 <= a < b < |fixups[1..]| && fixups[1..][a].Retarget? && fixups[1..][b].Retarget?
                    && fixups[1..][a].rva == fixups[1..][b].rva
        ensures fixups[1..][a].offset + 4 <= fixups[1..][b].offset || fixups[1..][b].offset + 4 <= fixups[1..][a].offset
      {
        assert fixups[1..][a] == fixups[a + 1] && fixups[1..][b] == fixups[b + 1];
      }
      AllSlotsLead(Aim(writes, fixups[0]).value, fixups[1..], j - 1);
    }
  }

  /** A relocated fixup: its addresses moved with their sites, and a delta aims at what a relocated call reaches. */
  predicate FixupTracks(f: Fixup, r: Fixup, m: Moves, writes: seq<Write>, ws: seq<Write>)
    requires |m.deltas| == |m.sites| && |ws| == |writes|
  {
    match f
    case Abs64(o, t) => r.Abs64? && r.offset == o && At(m, t) == Ok(r.target)
    case Branch(o, t) => r.Branch? && r.offset == o && At(m, t) == Ok(r.target)
    case Delta(o, from, to) =>
      && r.Delta? && r.offset == o && At(m, from) == Ok(r.from)
      && exists i :: 0 <= i < |writes| && writes[i].stock == to != 0 && ws[i].stock == r.to
    case Retarget(rva, o, t) =>
      && r.Retarget? && r.offset == o && At(m, t) == Ok(r.target)
      && exists i :: 0 <= i < |writes| && writes[i].rva == rva && ws[i].rva == r.rva
    case _ => r == f
  }

  lemma {:induction false} FixupTracked(u: Unit, image: seq<byte>, p: Parts, j: nat)
    requires |p.m.deltas| == |p.m.sites| && j < |u.fixups|
    requires EachMoved(u.writes, p.m, image, p.ws, p.moved) && StocksFrom(u.writes, p.ws, [], p.stocks)
    requires EachFixup(u.fixups, p.m, p.stocks, p.moved, p.fs)
    ensures FixupTracks(u.fixups[j], p.fs[j], p.m, u.writes, p.ws)
  {
    hide At, MoveWrite, Lookup;
    var f, r := u.fixups[j], p.fs[j];
    assert MoveFixup(f, p.m, p.stocks, p.moved) == Ok(r);
    if f.Delta? {
      assert (f.to, r.to) in p.stocks;
      var i :| 0 <= i < |u.writes| && u.writes[i].stock != 0 && (f.to, r.to) == (u.writes[i].stock, p.ws[i].stock);
    } else if f.Retarget? {
      assert (f.rva, r.rva) in p.moved;
      var i :| 0 <= i < |p.moved| && p.moved[i] == (f.rva, r.rva);
      assert u.writes[i].rva == f.rva && p.ws[i].rva == r.rva;
    }
  }

  ghost predicate TracksBuild(u: Unit, r: Unit, m: Moves, image: seq<byte>)
    requires |m.deltas| == |m.sites|
  {
    && |r.writes| == |u.writes| && |r.fixups| == |u.fixups|
    && (forall i :: 0 <= i < |u.writes| ==> Tracks(u.writes[i], r.writes[i], m, image))
    && (forall i, j :: 0 <= i < |u.writes| && 0 <= j < |u.writes| && u.writes[i].stock == u.writes[j].stock
          ==> r.writes[i].stock == r.writes[j].stock)
    && (forall j :: 0 <= j < |u.fixups| ==> FixupTracks(u.fixups[j], r.fixups[j], m, u.writes, r.writes))
    && (RetargetsApart(r.fixups) ==> forall j :: 0 <= j < |r.fixups| ==> SlotLeads(r.writes, r.fixups[j]))
    && NamesTrack(u, r, m, image)
  }

  /** The addresses a unit only names moved too, and its anchors hold what the image has there. */
  predicate NamesTrack(u: Unit, r: Unit, m: Moves, image: seq<byte>)
    requires |m.deltas| == |m.sites|
  {
    && |r.natives| == |u.natives| && |r.anchors| == |u.anchors| && |r.sites| == |u.sites|
    && (forall i :: 0 <= i < |u.natives| ==>
          At(m, u.natives[i].rva) == Ok(r.natives[i].rva) && r.natives[i].name == u.natives[i].name)
    && (forall i :: 0 <= i < |u.anchors| ==>
          && At(m, u.anchors[i].rva) == Ok(r.anchors[i].rva)
          && BytesAt(image, r.anchors[i].rva, |u.anchors[i].bytes|) == Ok(r.anchors[i].bytes))
    && (forall i :: 0 <= i < |u.sites| ==>
          At(m, u.sites[i].start) == Ok(r.sites[i].start) && r.sites[i] == u.sites[i].(start := r.sites[i].start))
  }

  lemma {:induction false} NativesMove(natives: seq<Native>, m: Moves, i: nat)
    requires |m.deltas| == |m.sites| && MoveNatives(natives, m).Ok? && i < |natives|
    ensures var r := MoveNatives(natives, m).value;
      At(m, natives[i].rva) == Ok(r[i].rva) && r[i].name == natives[i].name
  {
    hide At;
    if i > 0 {
      NativesMove(natives[1..], m, i - 1);
    }
  }

  lemma {:induction false} AnchorsMove(anchors: seq<Anchor>, m: Moves, image: seq<byte>, i: nat)
    requires |m.deltas| == |m.sites| && MoveAnchors(anchors, m, image).Ok? && i < |anchors|
    ensures var r := MoveAnchors(anchors, m, image).value;
      At(m, anchors[i].rva) == Ok(r[i].rva) && BytesAt(image, r[i].rva, |anchors[i].bytes|) == Ok(r[i].bytes)
  {
    hide At, BytesAt;
    if i > 0 {
      AnchorsMove(anchors[1..], m, image, i - 1);
    }
  }

  lemma {:induction false} NamesMove(u: Unit, image: seq<byte>, sha: string, r: Unit, p: Parts)
    requires IsRelocation(u, image, sha, r, p)
    ensures NamesTrack(u, r, p.m, image)
  {
    hide Locate, At, BytesAt, EachMoved, StocksTell, StocksFrom, EachFixup, AimAll;
    forall i | 0 <= i < |u.natives|
      ensures At(p.m, u.natives[i].rva) == Ok(r.natives[i].rva) && r.natives[i].name == u.natives[i].name
    {
      NativesMove(u.natives, p.m, i);
    }
    forall i | 0 <= i < |u.anchors|
      ensures At(p.m, u.anchors[i].rva) == Ok(r.anchors[i].rva)
      ensures BytesAt(image, r.anchors[i].rva, |u.anchors[i].bytes|) == Ok(r.anchors[i].bytes)
    {
      AnchorsMove(u.anchors, p.m, image, i);
    }
  }

  /** The branch a moved write stands on is read from the image as from the write's own bytes. */
  lemma {:induction false} MovedBranchReads(w: Write, m: Moves, image: seq<byte>)
    requires |m.deltas| == |m.sites| && MoveWrite(w, m, image).Ok? && w.stock != 0
    ensures var r := MoveWrite(w, m, image).value;
            && r.rva + |w.before| <= |image| && 5 <= |w.before|
            && image[r.rva..r.rva + |w.before|][1..5] == image[r.rva + 1..r.rva + 5]
  {
    hide At;
    InnerSlice(image, MoveWrite(w, m, image).value.rva, |w.before|);
  }

  lemma {:induction false} WritesTrack(u: Unit, image: seq<byte>, sha: string, r: Unit, p: Parts, i: nat)
    requires IsRelocation(u, image, sha, r, p) && i < |u.writes|
    ensures |r.writes| == |u.writes| && Tracks(u.writes[i], r.writes[i], p.m, image)
    ensures r.writes[i].stock == p.ws[i].stock && r.writes[i].rva == p.ws[i].rva
  {
    hide Locate, MoveNatives, MoveAnchors, MoveSites, AimAll, EachFixup, StocksTell, StocksFrom, At;
    AimAllOutside(p.ws, p.fs);
    assert p.ws[i].(after := r.writes[i].after) == r.writes[i];
    assert MoveWrite(u.writes[i], p.m, image) == Ok(p.ws[i]);
    if u.writes[i].stock != 0 {
      MovedBranchReads(u.writes[i], p.m, image);
    }
  }

  /** Relocation tracks the target build: every address, natives, anchors and sites included, moves with the
      sites that cover it, every stock is the function this build's branch reaches and one function stays one, every
      delta aims at such a function, and every edit's slot leads to its moved target. */
  lemma {:induction false} RelocationTracksBuild(u: Unit, image: seq<byte>, sha: string) returns (m: Moves)
    requires RelocateUnit(u, image, sha).Ok?
    ensures |m.deltas| == |m.sites| && Locate(u.sites, image) == Ok(m)
    ensures TracksBuild(u, RelocateUnit(u, image, sha).value, m, image)
  {
    hide RelocateUnit, Locate, MoveNatives, MoveAnchors, MoveSites, AimAll, Tracks, FixupTracks, SlotLeads, EachFixup,
         EachMoved, StocksFrom, Lookup, NamesTrack;
    var r := RelocateUnit(u, image, sha).value;
    var p := TakeApart(u, image, sha);
    m := p.m;
    PartLengths(u, image, sha, r, p);
    NamesMove(u, image, sha, r, p);
    forall i | 0 <= i < |u.writes|
      ensures Tracks(u.writes[i], r.writes[i], m, image)
      ensures r.writes[i].stock == p.ws[i].stock && r.writes[i].rva == p.ws[i].rva
      ensures u.writes[i].stock == 0 ==> r.writes[i].stock == 0
    {
      WritesTrack(u, image, sha, r, p, i);
      TracksZero(u.writes[i], r.writes[i], m, image);
    }
    forall j | 0 <= j < |u.fixups|
      ensures FixupTracks(u.fixups[j], r.fixups[j], m, u.writes, r.writes)
    {
      FixupTracked(u, image, p, j);
      FixupTracksSame(u.fixups[j], r.fixups[j], m, u.writes, p.ws, r.writes);
    }
    if RetargetsApart(r.fixups) {
      forall j | 0 <= j < |r.fixups|
        ensures SlotLeads(r.writes, r.fixups[j])
      {
        AllSlotsLead(p.ws, p.fs, j);
      }
    }
  }

  lemma {:induction false} PartLengths(u: Unit, image: seq<byte>, sha: string, r: Unit, p: Parts)
    requires IsRelocation(u, image, sha, r, p)
    ensures |r.writes| == |u.writes| == |p.ws| && |r.fixups| == |u.fixups| == |p.fs|
  {
  }

  lemma {:induction false} TracksZero(w: Write, r: Write, m: Moves, image: seq<byte>)
    requires |m.deltas| == |m.sites| && Tracks(w, r, m, image)
    ensures w.stock == 0 ==> r.stock == 0
  {
  }

  lemma {:induction false} FixupTracksSame(f: Fixup, r: Fixup, m: Moves, writes: seq<Write>, a: seq<Write>,
                                           b: seq<Write>)
    requires |m.deltas| == |m.sites| && |a| == |b| == |writes| && FixupTracks(f, r, m, writes, a)
    requires forall i :: 0 <= i < |a| ==> a[i].stock == b[i].stock && a[i].rva == b[i].rva
    ensures FixupTracks(f, r, m, writes, b)
  {
    hide At;
  }

  // ----- whether the relocated unit is well formed

  /** A retargeted call must stand on a rel32 branch in the new build, too. */
  predicate BranchKept(w: Write) {
    w.stock != 0 ==> w.before != [] && (w.before[0] == 0xe8 || w.before[0] == 0xe9)
  }

  /** Of the writes that came to lie at one address, the first is an edit. */
  predicate EditFirst(writes: seq<Write>, rva: nat) {
    exists i :: 0 <= i < |writes| && IsFirst(writes, rva, i) && writes[i].kind.Edit?
  }

  predicate IsFirst(writes: seq<Write>, rva: nat, i: nat)
    requires i < |writes|
  {
    writes[i].rva == rva && forall j :: 0 <= j < i ==> writes[j].rva != rva
  }

  predicate RvasDiffer(writes: seq<Write>) {
    forall i, j :: 0 <= i < j < |writes| ==> writes[i].rva != writes[j].rva
  }

  lemma {:induction false} FirstEdit(writes: seq<Write>, rva: nat)
    requires FindEdit(writes, rva).Some?
    ensures FindWrite(writes, rva).Some?
    ensures EditFirst(writes, rva) <==> writes[FindWrite(writes, rva).value].kind.Edit?
    ensures EditFirst(writes, rva) ==> FindEdit(writes, rva) == FindWrite(writes, rva)
    ensures RvasDiffer(writes) ==> EditFirst(writes, rva)
  {
    var e, i := FindEdit(writes, rva).value, FindWrite(writes, rva).value;
    assert IsFirst(writes, rva, i);
    if writes[i].kind.Edit? {
      FirstEditIs(writes, rva);
    }
  }

  lemma {:induction false} FirstEditIs(writes: seq<Write>, rva: nat)
    requires FindWrite(writes, rva).Some? && writes[FindWrite(writes, rva).value].kind.Edit?
    ensures FindEdit(writes, rva) == FindWrite(writes, rva)
  {
    if writes[0].rva != rva {
      FirstEditIs(writes[1..], rva);
    }
  }

  /** A slot that could be aimed fits its edit. */
  lemma {:induction false} AimedFits(writes: seq<Write>, fixups: seq<Fixup>, j: nat)
    requires j < |fixups| && AimAll(writes, fixups).Ok? && fixups[j].Retarget?
    ensures var r, f := AimAll(writes, fixups).value, fixups[j];
      FindEdit(r, f.rva).Some? && f.offset + 4 <= |r[FindEdit(r, f.rva).value].after|
    decreases fixups
  {
    hide FindEdit, SameShape, AgreeExcept;
    var next := Aim(writes, fixups[0]).value;
    if j > 0 {
      AimedFits(next, fixups[1..], j - 1);
    } else {
      AimAllOutside(writes, fixups);
      ShapeOf(writes, AimAll(writes, fixups).value, fixups);
      FindEditSame(writes, AimAll(writes, fixups).value, fixups[0].rva);
      AfterLengths(writes, AimAll(writes, fixups).value);
    }
  }

  lemma {:induction false} ShapeOf(a: seq<Write>, b: seq<Write>, fixups: seq<Fixup>)
    requires AgreeExcept(a, b, fixups)
    ensures SameShape(a, b)
  {
  }

  lemma {:induction false} AfterLengths(a: seq<Write>, b: seq<Write>)
    requires SameShape(a, b)
    ensures |a| == |b| && forall i :: 0 <= i < |a| ==> |a[i].after| == |b[i].after|
  {
  }

  lemma {:induction false} MovedWriteFits(u: Unit, image: seq<byte>, sha: string, r: Unit, p: Parts, i: nat)
    requires Check(u) && IsRelocation(u, image, sha, r, p) && i < |u.writes|
    ensures |r.writes| == |u.writes| && (WriteFits(r.writes[i], r.unitBytes) <==> BranchKept(r.writes[i]))
  {
    hide Locate, MoveNatives, MoveAnchors, MoveSites, AimAll, EachFixup, StocksTell, StocksFrom, At, FixupFits;
    AimAllOutside(p.ws, p.fs);
    assert p.ws[i].(after := r.writes[i].after) == r.writes[i];
    assert MoveWrite(u.writes[i], p.m, image) == Ok(p.ws[i]);
    assert WriteFits(u.writes[i], u.unitBytes);
  }

  lemma {:induction false} MovedFixupFits(u: Unit, image: seq<byte>, sha: string, r: Unit, p: Parts, j: nat)
    requires Check(u) && IsRelocation(u, image, sha, r, p) && j < |u.fixups|
    ensures |r.fixups| == |u.fixups|
    ensures FixupFits(r.fixups[j], r.writes, r.unitBytes)
       <==> (r.fixups[j].Retarget? ==> EditFirst(r.writes, r.fixups[j].rva))
    ensures r.fixups[j].Retarget? && RvasDiffer(r.writes) ==> EditFirst(r.writes, r.fixups[j].rva)
  {
    hide Locate, MoveNatives, MoveAnchors, MoveSites, AimAll, EachMoved, StocksTell, StocksFrom, At, WriteFits,
         EditFirst, FindWrite, FindEdit, Lookup;
    assert MoveFixup(u.fixups[j], p.m, p.stocks, p.moved) == Ok(p.fs[j]);
    assert FixupFits(u.fixups[j], u.writes, u.unitBytes);
    if r.fixups[j].Retarget? {
      AimedFits(p.ws, p.fs, j);
      FirstEdit(r.writes, r.fixups[j].rva);
    }
  }

  /** The shape rules of a relocated unit, over what came out. */
  lemma {:induction false} ResultChecks(u: Unit, image: seq<byte>, sha: string, p: Parts)
    requires Check(u) && RelocateUnit(u, image, sha).Ok?
    requires IsRelocation(u, image, sha, RelocateUnit(u, image, sha).value, p)
    ensures var r := RelocateUnit(u, image, sha).value;
      && (Check(r) <==> && (forall w :: w in r.writes ==> BranchKept(w))
                        && (forall f :: f in r.fixups && f.Retarget? ==> EditFirst(r.writes, f.rva)))
      && (RvasDiffer(r.writes) ==> (Check(r) <==> forall w :: w in r.writes ==> BranchKept(w)))
  {
    hide RelocateUnit, Locate, WriteFits, FixupFits, BranchKept, EditFirst, RvasDiffer, EachMoved, EachFixup, AimAll,
         StocksTell, StocksFrom, MoveNatives, MoveAnchors, MoveSites;
    var r := RelocateUnit(u, image, sha).value;
    PartLengths(u, image, sha, r, p);
    forall i | 0 <= i < |u.writes|
      ensures WriteFits(r.writes[i], r.unitBytes) <==> BranchKept(r.writes[i])
    {
      MovedWriteFits(u, image, sha, r, p, i);
    }
    forall j | 0 <= j < |u.fixups|
      ensures FixupFits(r.fixups[j], r.writes, r.unitBytes)
         <==> (r.fixups[j].Retarget? ==> EditFirst(r.writes, r.fixups[j].rva))
      ensures r.fixups[j].Retarget? && RvasDiffer(r.writes) ==> EditFirst(r.writes, r.fixups[j].rva)
    {
      MovedFixupFits(u, image, sha, r, p, j);
    }
    assert forall j :: 0 <= j < |r.fixups| ==> r.fixups[j] in r.fixups;
    assert forall i :: 0 <= i < |r.writes| ==> r.writes[i] in r.writes;
  }

  /** The write retargets no call, or its call reaches rva 0, or a rel32 branch stands where it was moved to. */
  predicate KeepsBranch(w: Write, m: Moves, image: seq<byte>)
    requires |m.deltas| == |m.sites|
  {
    w.stock != 0 && At(m, w.rva).Ok? && At(m, w.rva).value + 5 <= |image| ==>
      var at := At(m, w.rva).value;
      at + 5 + I32(image[at + 1..at + 5]) == 0 || image[at] == 0xe8 || image[at] == 0xe9
  }

  /** Of the writes that move to where `rva` moves, the first is an edit. */
  predicate EditMovesFirst(writes: seq<Write>, m: Moves, rva: nat)
    requires |m.deltas| == |m.sites|
  {
    exists i :: 0 <= i < |writes| && MovesFirst(writes, m, rva, i) && writes[i].kind.Edit?
  }

  predicate MovesFirst(writes: seq<Write>, m: Moves, rva: nat, i: nat)
    requires |m.deltas| == |m.sites| && i < |writes|
  {
    At(m, writes[i].rva) == At(m, rva) && forall j :: 0 <= j < i ==> At(m, writes[j].rva) != At(m, rva)
  }

  predicate MoveApart(writes: seq<Write>, m: Moves)
    requires |m.deltas| == |m.sites|
  {
    forall i, j :: 0 <= i < j < |writes| ==> At(m, writes[i].rva) != At(m, writes[j].rva)
  }

  lemma {:induction false} BranchIsKept(w: Write, r: Write, m: Moves, image: seq<byte>)
    requires |m.deltas| == |m.sites| && MoveWrite(w, m, image).Ok? && w.before != []
    requires r.stock == MoveWrite(w, m, image).value.stock && r.before == MoveWrite(w, m, image).value.before
    ensures BranchKept(r) <==> KeepsBranch(w, m, image)
  {
    hide At;
    if w.stock != 0 {
      MovedBranchReads(w, m, image);
    }
  }

  /** What the parts of a relocation say about one write. */
  lemma {:induction false} WriteMoved(u: Unit, image: seq<byte>, sha: string, r: Unit, p: Parts, i: nat)
    requires IsRelocation(u, image, sha, r, p) && i < |u.writes|
    ensures |r.writes| == |u.writes| && At(p.m, u.writes[i].rva) == Ok(r.writes[i].rva)
    ensures r.writes[i].kind == u.writes[i].kind
    ensures MoveWrite(u.writes[i], p.m, image).Ok?
    ensures r.writes[i].stock == MoveWrite(u.writes[i], p.m, image).value.stock
    ensures r.writes[i].before == MoveWrite(u.writes[i], p.m, image).value.before
  {
    hide Locate, MoveNatives, MoveAnchors, MoveSites, AimAll, EachFixup, StocksTell, StocksFrom, At;
    AimAllOutside(p.ws, p.fs);
    assert p.ws[i].(after := r.writes[i].after) == r.writes[i];
    assert MoveWrite(u.writes[i], p.m, image) == Ok(p.ws[i]);
  }

  lemma {:induction false} RetargetMoved(u: Unit, image: seq<byte>, sha: string, r: Unit, p: Parts, j: nat)
    requires IsRelocation(u, image, sha, r, p) && j < |u.fixups|
    ensures |r.fixups| == |u.fixups| && (r.fixups[j].Retarget? <==> u.fixups[j].Retarget?)
    ensures u.fixups[j].Retarget? ==> At(p.m, u.fixups[j].rva) == Ok(r.fixups[j].rva)
  {
    hide Locate, MoveNatives, MoveAnchors, MoveSites, AimAll, StocksTell, StocksFrom, At, Lookup, MoveWrite;
    assert MoveFixup(u.fixups[j], p.m, p.stocks, p.moved) == Ok(p.fs[j]);
    if u.fixups[j].Retarget? {
      assert (u.fixups[j].rva, r.fixups[j].rva) in p.moved;
      var i :| 0 <= i < |p.moved| && p.moved[i] == (u.fixups[j].rva, r.fixups[j].rva);
      assert MoveWrite(u.writes[i], p.m, image) == Ok(p.ws[i]);
      MovedTo(u.writes[i], p.m, image);
    }
  }

  lemma {:induction false} MovedTo(w: Write, m: Moves, image: seq<byte>)
    requires |m.deltas| == |m.sites| && MoveWrite(w, m, image).Ok?
    ensures At(m, w.rva) == Ok(MoveWrite(w, m, image).value.rva)
  {
    hide At;
  }

  lemma {:induction false} EditFirstMoved(writes: seq<Write>, ws: seq<Write>, m: Moves, rva: nat, to: nat)
    requires |m.deltas| == |m.sites| && |ws| == |writes| && At(m, rva) == Ok(to)
    requires forall i :: 0 <= i < |writes| ==> At(m, writes[i].rva) == Ok(ws[i].rva) && ws[i].kind == writes[i].kind
    ensures EditFirst(ws, to) <==> EditMovesFirst(writes, m, rva)
  {
    hide At;
    forall i | 0 <= i < |writes|
      ensures IsFirst(ws, to, i) <==> MovesFirst(writes, m, rva, i)
    {
    }
    if EditFirst(ws, to) {
      var i :| 0 <= i < |ws| && IsFirst(ws, to, i) && ws[i].kind.Edit?;
      assert MovesFirst(writes, m, rva, i);
    }
    if EditMovesFirst(writes, m, rva) {
      var i :| 0 <= i < |writes| && MovesFirst(writes, m, rva, i) && writes[i].kind.Edit?;
      assert IsFirst(ws, to, i);
    }
  }

  /** When a relocated unit may be installed, told from the unit, the image and its located sites: it keeps the shape
      rules exactly when a rel32 branch stands where every retargeted call was moved to, and no branch moves in front
      of a retargeted edit at its address; where no two writes move to one address, only the branches count. */
  lemma {:induction false} RelocatedChecks(u: Unit, image: seq<byte>, sha: string) returns (m: Moves)
    requires Check(u) && RelocateUnit(u, image, sha).Ok?
    ensures |m.deltas| == |m.sites| && Locate(u.sites, image) == Ok(m)
    ensures var r := RelocateUnit(u, image, sha).value;
      && (Check(r) <==> && (forall i :: 0 <= i < |u.writes| ==> KeepsBranch(u.writes[i], m, image))
                        && (forall j :: 0 <= j < |u.fixups| && u.fixups[j].Retarget?
                              ==> EditMovesFirst(u.writes, m, u.fixups[j].rva)))
      && (MoveApart(u.writes, m) ==>
            (Check(r) <==> forall i :: 0 <= i < |u.writes| ==> KeepsBranch(u.writes[i], m, image)))
  {
    hide RelocateUnit, Locate, Check, IsRelocation, At, MoveWrite, KeepsBranch, BranchKept, EditFirst, EditMovesFirst;
    var r := RelocateUnit(u, image, sha).value;
    var p := TakeApart(u, image, sha);
    m := p.m;
    PartLengths(u, image, sha, r, p);
    PartsLocate(u, image, sha, r, p);
    ResultChecks(u, image, sha, p);
    forall i | 0 <= i < |u.writes|
      ensures At(m, u.writes[i].rva) == Ok(r.writes[i].rva) && r.writes[i].kind == u.writes[i].kind
      ensures BranchKept(r.writes[i]) <==> KeepsBranch(u.writes[i], m, image)
    {
      WriteMoved(u, image, sha, r, p, i);
      CheckedNonempty(u, i);
      BranchIsKept(u.writes[i], r.writes[i], m, image);
    }
    forall j | 0 <= j < |u.fixups|
      ensures r.fixups[j].Retarget? <==> u.fixups[j].Retarget?
      ensures u.fixups[j].Retarget? ==>
        (EditFirst(r.writes, r.fixups[j].rva) <==> EditMovesFirst(u.writes, m, u.fixups[j].rva))
    {
      RetargetMoved(u, image, sha, r, p, j);
      if u.fixups[j].Retarget? {
        EditFirstMoved(u.writes, r.writes, m, u.fixups[j].rva, r.fixups[j].rva);
      }
    }
    assert forall w :: w in r.writes ==> exists i :: 0 <= i < |r.writes| && r.writes[i] == w;
    assert forall f :: f in r.fixups ==> exists j :: 0 <= j < |r.fixups| && r.fixups[j] == f;
  }

  lemma {:induction false} PartsLocate(u: Unit, image: seq<byte>, sha: string, r: Unit, p: Parts)
    requires IsRelocation(u, image, sha, r, p)
    ensures |p.m.deltas| == |p.m.sites| && Locate(u.sites, image) == Ok(p.m)
  {
  }

  lemma {:induction false} CheckedNonempty(u: Unit, i: nat)
    requires Check(u) && i < |u.writes|
    ensures u.writes[i].before != []
  {
    assert WriteFits(u.writes[i], u.unitBytes);
  }

  /** A build in which another instruction stands where the call was. */
  const CALL_GONE: seq<byte> := [0x90, 0x74, 0, 0, 0, 0, 0]

  const GONE_SITE := Site("call", 0, 1, [Some(0x90), None])

  const GONE_UNIT := Unit("gone", "", "", "", 4, [], [CALL_WRITE], [], [], [], [GONE_SITE], [])

  const GONE_MOVES := Moves([GONE_SITE], [0])

  lemma {:induction false} GoneStays(rva: nat)
    requires rva <= 2
    ensures At(GONE_MOVES, rva) == Ok(rva)
  {
    var m := GONE_MOVES;
    assert m.sites[1..] == [] && m.deltas[1..] == [];
    assert Covers(GONE_SITE, rva);
    assert DeltaFrom(m.sites, m.deltas, rva, None) == DeltaFrom([], [], rva, Some(0)) == Ok(Some(0));
  }

  lemma {:induction false} GoneWrite() returns (w: Write)
    ensures MoveWrite(CALL_WRITE, GONE_MOVES, CALL_GONE) == Ok(w) && w.rva == 1 && w.stock == 6 && |w.before| == 5
      && w.before[0] == 0x74
  {
    hide At;
    GoneStays(1);
    var before, rel: seq<byte> := [0x74, 0, 0, 0, 0], [0, 0, 0, 0];
    assert CALL_GONE[1] == 0x74 && CALL_GONE[2] == 0 && CALL_GONE[3] == 0 && CALL_GONE[4] == 0 && CALL_GONE[5] == 0;
    assert CALL_GONE[1..6] == before;
    assert BytesAt(CALL_GONE, 1, 5) == Ok(before);
    assert before[1..5] == rel;
    assert U32(rel) == 0 && I32(rel) == 0;
    assert Reached(CALL_GONE, 1, before) == Ok(6);
    w := CALL_WRITE.(before := before, stock := 6);
  }

  /** Relocation does not keep every unit well formed: this one keeps the rules, and its relocation does not. */
  lemma {:induction false} GoneUnitIsMalformed(sha: string)
    ensures Check(GONE_UNIT) && RelocateUnit(GONE_UNIT, CALL_GONE, sha).Ok?
    ensures !Check(RelocateUnit(GONE_UNIT, CALL_GONE, sha).value)
  {
    hide Locate, At, MoveWrite;
    GoneIsFound();
    GoneStays(0);
    var w := GoneWrite();
    var m := GONE_MOVES;
    assert [CALL_WRITE][1..] == [] && [] + [w] == [w];
    var none: Pairs := [];
    assert none + [(7, 6)] == [(7, 6)] && none + [(1, 1)] == [(1, 1)];
    assert Agree([], 7, 6) == Ok([(7, 6)]);
    assert MoveWritesFrom([], m, CALL_GONE, Moved([w], [(7, 6)], [(1, 1)])) == Ok(Moved([w], [(7, 6)], [(1, 1)]));
    assert MoveWritesFrom([CALL_WRITE], m, CALL_GONE, Moved([], [], [])) == Ok(Moved([w], [(7, 6)], [(1, 1)]));
    assert MoveSites([GONE_SITE], m).Ok?;
    var r := RelocateUnit(GONE_UNIT, CALL_GONE, sha).value;
    assert r.writes == [w];
    assert !WriteFits(r.writes[0], r.unitBytes);
  }

  lemma {:induction false} GoneIsFound()
    ensures Locate([GONE_SITE], CALL_GONE) == Ok(Moves([GONE_SITE], [0]))
  {
    hide Locate, Found;
    FoundMeaning(CALL_GONE, GONE_SITE.pattern);
    var found := Found(CALL_GONE, GONE_SITE.pattern);
    assert GONE_SITE.pattern[0].Some?;
    assert Matches(CALL_GONE, GONE_SITE.pattern, 0);
    assert forall s: nat :: s in found <==> s == 0;
    OnlyOne(found, 0);
    LocateMeaning([GONE_SITE], CALL_GONE);
    assert Located(Moves([GONE_SITE], [0]), CALL_GONE);
  }
}
