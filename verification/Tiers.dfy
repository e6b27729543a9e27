/** One side of the book as a list of price tiers, and how it flattens to the list of `PriceTime`. */
module Tiers {
  import opened PriceTime

  datatype Tier = Tier(price: int, queue: seq<Entry<nat>>)

  ghost function Flatten(tiers: seq<Tier>): seq<Entry<nat>> {
    if tiers == [] then [] else tiers[0].queue + Flatten(tiers[1..])
  }

  ghost function Prices(tiers: seq<Tier>): set<int> {
    set i | 0 <= i < |tiers| :: tiers[i].price
  }

  /** Prices strictly in priority order, every entry of a tier at the tier's price and still open. */
  ghost predicate TiersOk(tiers: seq<Tier>, side: Side) {
    && (forall i, j :: 0 <= i < j < |tiers| ==> Better(side, tiers[i].price, tiers[j].price))
    && (forall i :: 0 <= i < |tiers| ==> TierOk(tiers[i]))
  }

  ghost predicate TierOk(t: Tier) {
    && t.price > 0
    && forall i :: 0 <= i < |t.queue| ==> t.queue[i].price == t.price && t.queue[i].rem > 0
  }

  ghost predicate NoEmptyTier(tiers: seq<Tier>) {
    forall i :: 0 <= i < |tiers| ==> tiers[i].queue != []
  }

  ghost function BestPrice(tiers: seq<Tier>): int {
    if tiers == [] then 0 else tiers[0].price
  }

  ghost function Drop(tiers: seq<Tier>, i: nat): seq<Tier>
    requires i < |tiers|
  {
    tiers[..i] + tiers[i+1..]
  }

  lemma SomePrice(prices: set<int>)
    requires prices != {}
    ensures exists p :: p in prices
  {
    assert (forall p :: p !in prices) ==> prices == {};
  }

  // ----- matching

  /** Walking a whole queue at one tradable price either exhausts the queue or fills the taker. */
  lemma {:induction false} WalkQueue(t: Tier, taker: Order<nat>, rem: int)
    requires TierOk(t) && rem > 0 && Crosses(taker, t.price)
    ensures Walk(t.queue, taker, rem).makers == [] || Walk(t.queue, taker, rem).rem == 0
    ensures Walk(t.queue, taker, rem).rem >= 0
    decreases |t.queue|
  {
    if t.queue != [] {
      var q := Min(t.queue[0].rem, rem);
      assert t.queue[0].price == t.price;
      var rest := t.(queue := t.queue[1..]);
      assert TierOk(rest);
      if t.queue[0].rem == q && rem - q > 0 {
        WalkQueue(rest, taker, rem - q);
      }
    }
  }

  lemma ConcatHead(m: Entry<nat>, a: seq<Entry<nat>>, b: seq<Entry<nat>>)
    ensures ([m] + a) + b == [m] + (a + b) && ([m] + a)[1..] == a
  {
  }

  lemma FillsAssoc(f: Fill<nat>, s: seq<Fill<nat>>, r: seq<Fill<nat>>)
    ensures [f] + (s + r) == ([f] + s) + r && [] + r == r
  {
  }

  /** Walking `a + b` is walking `a` and then, if nothing of `a` is left, walking `b`. */
  lemma {:induction false} WalkConcat(a: seq<Entry<nat>>, b: seq<Entry<nat>>, taker: Order<nat>, rem: int)
    ensures var s := Walk(a, taker, rem);
      Walk(a + b, taker, rem) ==
      if s.makers == [] then
        var r := Walk(b, taker, s.rem);
        Walked(s.fills + r.fills, r.makers, r.rem)
      else Walked(s.fills, s.makers + b, s.rem)
  {
    hide Crosses;
    if a == [] {
      assert a + b == b;
      assert [] + Walk(b, taker, rem).fills == Walk(b, taker, rem).fills;
    } else {
      var m, rest := a[0], a[1..];
      assert a == [m] + rest;
      ConcatHead(m, rest, b);
      assert (a + b)[0] == m && (a + b)[1..] == rest + b;
      var q := Min(m.rem, rem);
      var f := Fill(m.id, taker.id, m.price, q);
      if rem <= 0 || !Crosses(taker, m.price) {
      } else if m.rem == q {
        WalkConcat(rest, b, taker, rem - q);
        var s := Walk(rest, taker, rem - q);
        FillsAssoc(f, s.fills, Walk(b, taker, s.rem).fills);
      } else {
        ConcatHead(m.(rem := m.rem - q), rest, b);
      }
    }
  }

  /** The tiers after the best level has been swept and, if empty, removed. */
  ghost function Swept(tiers: seq<Tier>, taker: Order<nat>, rem: int): seq<Tier>
    requires tiers != []
  {
    var left := Walk(tiers[0].queue, taker, rem).makers;
    if left == [] then tiers[1..] else tiers[0 := Tier(tiers[0].price, left)]
  }

  /** One turn of the matching loop is a prefix of the flat walk. */
  lemma SweepIsWalkPrefix(tiers: seq<Tier>, taker: Order<nat>, rem: int)
    requires tiers != [] && TierOk(tiers[0]) && rem > 0 && Crosses(taker, tiers[0].price)
    ensures var s := Walk(tiers[0].queue, taker, rem);
      var r := Walk(Flatten(Swept(tiers, taker, rem)), taker, s.rem);
      Walk(Flatten(tiers), taker, rem) == Walked(s.fills + r.fills, r.makers, r.rem)
  {
    var q, ts := tiers[0].queue, tiers[1..];
    var s := Walk(q, taker, rem);
    WalkConcat(q, Flatten(ts), taker, rem);
    WalkQueue(tiers[0], taker, rem);
    if s.makers != [] {
      var swept := Swept(tiers, taker, rem);
      assert swept[1..] == ts;
      assert s.fills + [] == s.fills;
    }
  }

  // ----- resting

  ghost function RestIn(tiers: seq<Tier>, e: Entry<nat>, side: Side): seq<Tier> {
    if tiers == [] || Better(side, e.price, tiers[0].price) then [Tier(e.price, [e])] + tiers
    else if tiers[0].price == e.price then tiers[0 := Tier(e.price, tiers[0].queue + [e])]
    else [tiers[0]] + RestIn(tiers[1..], e, side)
  }

  lemma {:induction false} InsertConcat(a: seq<Entry<nat>>, b: seq<Entry<nat>>, e: Entry<nat>, side: Side)
    requires forall i :: 0 <= i < |a| ==> !Better(side, e.price, a[i].price)
    ensures Insert(a + b, e, side) == a + Insert(b, e, side)
  {
    if a == [] {
      assert a + b == b;
    } else {
      assert (a + b)[0] == a[0] && (a + b)[1..] == a[1..] + b;
      InsertConcat(a[1..], b, e, side);
      assert [a[0]] + (a[1..] + Insert(b, e, side)) == a + Insert(b, e, side);
    }
  }

  lemma {:induction false} FlattenHead(tiers: seq<Tier>)
    requires tiers != [] && tiers[0].queue != []
    ensures Flatten(tiers) != [] && Flatten(tiers)[0] == tiers[0].queue[0]
  {
  }

  lemma {:induction false} RestIsInsert(tiers: seq<Tier>, e: Entry<nat>, side: Side)
    requires TiersOk(tiers, side) && NoEmptyTier(tiers)
    ensures Flatten(RestIn(tiers, e, side)) == Insert(Flatten(tiers), e, side)
  {
    if tiers == [] {
      assert RestIn(tiers, e, side)[1..] == [];
      assert Flatten([]) == [];
      assert [e] + [] == [e];
    } else {
      var t, ts := tiers[0], tiers[1..];
      if Better(side, e.price, t.price) {
        FlattenHead(tiers);
        assert RestIn(tiers, e, side)[1..] == tiers;
      } else {
        assert TierOk(t);
        InsertConcat(t.queue, Flatten(ts), e, side);
        if t.price == e.price {
          assert RestIn(tiers, e, side)[1..] == ts;
          if ts != [] {
            FlattenHead(ts);
            assert Better(side, t.price, ts[0].price);
            assert TierOk(ts[0]);
          }
          assert t.queue + ([e] + Flatten(ts)) == (t.queue + [e]) + Flatten(ts);
        } else {
          RestIsInsert(ts, e, side);
          assert RestIn(tiers, e, side)[1..] == RestIn(ts, e, side);
        }
      }
    }
  }

  ghost function QueueAt(tiers: seq<Tier>, price: int): seq<Entry<nat>> {
    if tiers == [] then [] else if tiers[0].price == price then tiers[0].queue else QueueAt(tiers[1..], price)
  }

  lemma {:induction false} QueueAtIs(tiers: seq<Tier>, side: Side, i: nat)
    requires TiersOk(tiers, side) && i < |tiers|
    ensures QueueAt(tiers, tiers[i].price) == tiers[i].queue
  {
    if i > 0 {
      assert Better(side, tiers[0].price, tiers[i].price);
      assert tiers[1..][i - 1] == tiers[i];
      QueueAtIs(tiers[1..], side, i - 1);
    }
  }

  lemma {:induction false} QueueAtNone(tiers: seq<Tier>, price: int)
    requires price !in Prices(tiers)
    ensures QueueAt(tiers, price) == []
  {
    if tiers != [] {
      PricesCons(tiers);
      QueueAtNone(tiers[1..], price);
    }
  }

  lemma PricesCons(tiers: seq<Tier>)
    requires tiers != []
    ensures Prices(tiers) == {tiers[0].price} + Prices(tiers[1..])
  {
    forall p
      ensures p in Prices(tiers) <==> p in {tiers[0].price} + Prices(tiers[1..])
    {
      assert tiers[0].price in Prices(tiers);
      assert forall i :: 1 <= i < |tiers| ==> tiers[i] == tiers[1..][i - 1];
    }
  }

  lemma TiersCons(t: Tier, ts: seq<Tier>, side: Side)
    requires TierOk(t) && TiersOk(ts, side) && (ts != [] ==> Better(side, t.price, ts[0].price))
    ensures TiersOk([t] + ts, side)
  {
    var r := [t] + ts;
    assert forall i :: 1 <= i < |r| ==> r[i] == ts[i - 1];
    assert forall i :: 1 <= i < |ts| ==> Better(side, ts[0].price, ts[i].price);
  }

  lemma TiersTail(tiers: seq<Tier>, side: Side)
    requires tiers != [] && TiersOk(tiers, side)
    ensures TierOk(tiers[0]) && TiersOk(tiers[1..], side)
    ensures tiers[1..] != [] ==> Better(side, tiers[0].price, tiers[1..][0].price)
    ensures tiers == [tiers[0]] + tiers[1..]
  {
  }

  lemma {:induction false} RestOk(tiers: seq<Tier>, e: Entry<nat>, side: Side)
    requires TiersOk(tiers, side) && e.price > 0 && e.rem > 0
    ensures TiersOk(RestIn(tiers, e, side), side)
    ensures RestIn(tiers, e, side)[0].price ==
      if tiers == [] || Better(side, e.price, tiers[0].price) then e.price else tiers[0].price
  {
    hide TiersOk;
    if tiers == [] || Better(side, e.price, tiers[0].price) {
      TiersCons(Tier(e.price, [e]), tiers, side);
    } else {
      TiersTail(tiers, side);
      if tiers[0].price == e.price {
        var t := Tier(e.price, tiers[0].queue + [e]);
        TiersCons(t, tiers[1..], side);
        assert [t] + tiers[1..] == tiers[0 := t];
      } else {
        RestOk(tiers[1..], e, side);
        TiersCons(tiers[0], RestIn(tiers[1..], e, side), side);
      }
    }
  }

  /** Resting touches the tier at the entry's price only, and makes it if need be. */
  lemma {:induction false} RestTouches(tiers: seq<Tier>, e: Entry<nat>, side: Side, t: Tier)
    requires TiersOk(tiers, side) && t in RestIn(tiers, e, side)
    ensures if t.price == e.price then t.queue == QueueAt(tiers, e.price) + [e] else t in tiers
  {
    if tiers == [] || Better(side, e.price, tiers[0].price) {
      assert forall i :: 0 <= i < |tiers| ==> tiers[i].price != e.price;
      QueueAtNone(tiers, e.price);
      assert [] + [e] == [e];
    } else {
      TiersTail(tiers, side);
      if tiers[0].price == e.price {
        assert forall i :: 0 < i < |tiers| ==> tiers[i].price != e.price;
      } else if t != tiers[0] {
        RestTouches(tiers[1..], e, side, t);
      }
    }
  }

  lemma {:induction false} RestPrices(tiers: seq<Tier>, e: Entry<nat>, side: Side)
    ensures Prices(RestIn(tiers, e, side)) == Prices(tiers) + {e.price}
  {
    var r := RestIn(tiers, e, side);
    PricesCons(r);
    if tiers == [] || Better(side, e.price, tiers[0].price) {
      assert r[1..] == tiers;
    } else {
      PricesCons(tiers);
      if tiers[0].price == e.price {
        assert r[1..] == tiers[1..];
      } else {
        RestPrices(tiers[1..], e, side);
        assert r[1..] == RestIn(tiers[1..], e, side);
      }
    }
  }

  lemma {:induction false} RestNoEmpty(tiers: seq<Tier>, e: Entry<nat>, side: Side)
    requires NoEmptyTier(tiers)
    ensures NoEmptyTier(RestIn(tiers, e, side))
  {
    if tiers != [] && !Better(side, e.price, tiers[0].price) && tiers[0].price != e.price {
      RestNoEmpty(tiers[1..], e, side);
    }
  }

  // ----- cancelling

  /** The tiers after entry `k` of tier `i` is gone, the tier with it if it was the last one. */
  ghost function Cut(tiers: seq<Tier>, i: nat, k: nat): seq<Tier>
    requires i < |tiers| && k < |tiers[i].queue|
  {
    var q := tiers[i].queue;
    var left := q[..k] + q[k+1..];
    if left == [] then Drop(tiers, i) else tiers[i := Tier(tiers[i].price, left)]
  }

  lemma {:induction false} RemoveConcat(a: seq<Entry<nat>>, b: seq<Entry<nat>>, id: nat)
    ensures RemoveId(a + b, id) == if HasId(a, id) then RemoveId(a, id) + b else a + RemoveId(b, id)
  {
    if a == [] {
      assert a + b == b;
    } else {
      assert (a + b)[0] == a[0] && (a + b)[1..] == a[1..] + b;
      assert a == [a[0]] + a[1..];
      ConsHasId(a[0], a[1..], id);
      if a[0].id != id {
        RemoveConcat(a[1..], b, id);
        if HasId(a, id) {
          assert [a[0]] + (RemoveId(a[1..], id) + b) == ([a[0]] + RemoveId(a[1..], id)) + b;
        } else {
          assert [a[0]] + (a[1..] + RemoveId(b, id)) == a + RemoveId(b, id);
        }
      }
    }
  }

  lemma {:induction false} RemoveAt(q: seq<Entry<nat>>, k: nat)
    requires DistinctIds(q) && k < |q|
    ensures RemoveId(q, q[k].id) == q[..k] + q[k+1..]
  {
    if k > 0 {
      RemoveAt(q[1..], k - 1);
      assert q[1..][k - 1] == q[k];
      assert q[..k] + q[k+1..] == [q[0]] + (q[1..][..k-1] + q[1..][k..]);
    } else {
      assert q[..0] + q[1..] == q[1..];
    }
  }

  lemma DistinctParts(a: seq<Entry<nat>>, b: seq<Entry<nat>>)
    requires DistinctIds(a + b)
    ensures DistinctIds(a) && DistinctIds(b) && Apart(a, b)
  {
    assert forall i :: 0 <= i < |a| ==> (a + b)[i] == a[i];
    assert forall j :: 0 <= j < |b| ==> (a + b)[|a| + j] == b[j];
  }

  lemma {:induction false} FlattenFind(tiers: seq<Tier>, id: nat) returns (i: nat, k: nat)
    requires HasId(Flatten(tiers), id)
    ensures i < |tiers| && k < |tiers[i].queue| && tiers[i].queue[k].id == id
  {
    var q, f := tiers[0].queue, Flatten(tiers);
    var j :| 0 <= j < |f| && f[j].id == id;
    if j < |q| {
      i, k := 0, j;
    } else {
      assert Flatten(tiers[1..])[j - |q|].id == id;
      i, k := FlattenFind(tiers[1..], id);
      i := i + 1;
    }
  }

  lemma {:induction false} FlattenHas(tiers: seq<Tier>, i: nat, k: nat)
    requires i < |tiers| && k < |tiers[i].queue|
    ensures HasId(Flatten(tiers), tiers[i].queue[k].id)
  {
    var f := Flatten(tiers);
    if i == 0 {
      assert f[k] == tiers[0].queue[k];
    } else {
      FlattenHas(tiers[1..], i - 1, k);
      var g := Flatten(tiers[1..]);
      var j :| 0 <= j < |g| && g[j].id == tiers[i].queue[k].id;
      assert f[|tiers[0].queue| + j] == g[j];
    }
  }

  lemma CutHead(tiers: seq<Tier>, k: nat)
    requires tiers != [] && k < |tiers[0].queue| && DistinctIds(tiers[0].queue)
    ensures Flatten(Cut(tiers, 0, k)) == RemoveId(tiers[0].queue, tiers[0].queue[k].id) + Flatten(tiers[1..])
  {
    var q, ts := tiers[0].queue, tiers[1..];
    RemoveAt(q, k);
    var left := q[..k] + q[k+1..];
    if left == [] {
      assert Drop(tiers, 0) == ts;
      assert [] + Flatten(ts) == Flatten(ts);
    } else {
      assert Cut(tiers, 0, k)[1..] == ts;
    }
  }

  lemma CutTail(tiers: seq<Tier>, i: nat, k: nat)
    requires 0 < i < |tiers| && k < |tiers[i].queue|
    ensures Flatten(Cut(tiers, i, k)) == tiers[0].queue + Flatten(Cut(tiers[1..], i - 1, k))
  {
    assert tiers[1..][i - 1] == tiers[i];
    var c := Cut(tiers, i, k);
    assert c[0] == tiers[0];
    assert c[1..] == Cut(tiers[1..], i - 1, k);
  }

  lemma {:induction false} CutIsRemove(tiers: seq<Tier>, i: nat, k: nat)
    requires i < |tiers| && k < |tiers[i].queue|
    requires DistinctIds(Flatten(tiers))
    ensures Flatten(Cut(tiers, i, k)) == RemoveId(Flatten(tiers), tiers[i].queue[k].id)
  {
    hide Cut, DistinctIds;
    var t, ts := tiers[0], tiers[1..];
    var id := tiers[i].queue[k].id;
    DistinctParts(t.queue, Flatten(ts));
    RemoveConcat(t.queue, Flatten(ts), id);
    if i == 0 {
      CutHead(tiers, k);
      assert HasId(t.queue, id);
    } else {
      assert ts[i - 1] == tiers[i];
      FlattenHas(ts, i - 1, k);
      assert !HasId(t.queue, id);
      CutTail(tiers, i, k);
      CutIsRemove(ts, i - 1, k);
    }
  }

  lemma PricesKept(tiers: seq<Tier>, i: nat, queue: seq<Entry<nat>>)
    requires i < |tiers|
    ensures Prices(tiers[i := Tier(tiers[i].price, queue)]) == Prices(tiers)
  {
    var r := tiers[i := Tier(tiers[i].price, queue)];
    forall p
      ensures p in Prices(r) <==> p in Prices(tiers)
    {
      assert forall j :: 0 <= j < |tiers| ==> r[j].price == tiers[j].price;
    }
  }

  lemma DropOk(tiers: seq<Tier>, i: nat, side: Side)
    requires i < |tiers| && TiersOk(tiers, side)
    ensures TiersOk(Drop(tiers, i), side)
    ensures Prices(Drop(tiers, i)) == Prices(tiers) - {tiers[i].price}
    ensures forall j :: 0 <= j < |tiers| - 1 ==> Drop(tiers, i)[j] == tiers[if j < i then j else j + 1]
  {
    var r := Drop(tiers, i);
    assert forall j :: 0 <= j < |r| ==> r[j] == tiers[if j < i then j else j + 1];
    forall p
      ensures p in Prices(r) <==> p in Prices(tiers) - {tiers[i].price}
    {
      if p in Prices(tiers) && p != tiers[i].price {
        var j :| 0 <= j < |tiers| && tiers[j].price == p;
        assert r[if j < i then j else j - 1].price == p;
      }
    }
  }

  /** The best of a set of prices is the price of the first tier. */
  lemma BestIsFirst(tiers: seq<Tier>, side: Side, best: int)
    requires TiersOk(tiers, side)
    requires tiers == [] ==> best == 0
    requires tiers != [] ==> best in Prices(tiers) && forall p :: p in Prices(tiers) ==> !Better(side, p, best)
    ensures best == BestPrice(tiers)
  {
    if tiers != [] {
      assert tiers[0].price in Prices(tiers);
    }
  }
}
