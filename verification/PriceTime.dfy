/** Price-time priority matching stated on flat lists: every command of the book as a
    function from one view of the book to the next. The pointer-based book and the
    two contestants are each proved against this module. */
module PriceTime {

  datatype Side = Buy | Sell {
    function Opposite(): Side {
      if this == Buy then Sell else Buy
    }
  }

  /** `Unknown` stands for every type code other than the two the exchange knows. */
  datatype OrderType = Limit | Market | Unknown

  datatype Order<Id> = Order(id: Id, side: Side, typ: OrderType, price: int, qty: int, filled: int) {
    function Remaining(): int {
      qty - filled
    }
  }

  datatype Fill<Id> = Fill(maker: Id, taker: Id, price: int, qty: int)

  /** A resting order as the outside sees it. */
  datatype Entry<Id> = Entry(id: Id, price: int, rem: int)

  /** Both sides of the book, best price first and oldest first within a price. */
  datatype View<Id> = View(bids: seq<Entry<Id>>, asks: seq<Entry<Id>>) {
    function On(side: Side): seq<Entry<Id>> {
      if side == Buy then bids else asks
    }

    function With(side: Side, entries: seq<Entry<Id>>): View<Id> {
      if side == Buy then View(entries, asks) else View(bids, entries)
    }

    ghost predicate Rests(id: Id) {
      HasId(bids, id) || HasId(asks, id)
    }
  }

  datatype Walked<Id> = Walked(fills: seq<Fill<Id>>, makers: seq<Entry<Id>>, rem: int)

  datatype Added<Id> = Added(view: View<Id>, fills: seq<Fill<Id>>, rests: bool)

  /** Price `a` is strictly ahead of price `b` on the given side of the book. */
  predicate Better(side: Side, a: int, b: int) {
    if side == Buy then a > b else a < b
  }

  /** May a taker trade with a maker resting at `makerPrice`? Market orders always may. */
  predicate Crosses<Id>(taker: Order<Id>, makerPrice: int) {
    || taker.typ == Market
    || (if taker.side == Buy then taker.price >= makerPrice else taker.price <= makerPrice)
  }

  function Min(a: int, b: int): int {
    if a < b then a else b
  }

  /** The greedy walk of a taker with `rem` left along the opposite side. */
  function Walk<Id>(makers: seq<Entry<Id>>, taker: Order<Id>, rem: int): Walked<Id> {
    if makers == [] || rem <= 0 || !Crosses(taker, makers[0].price) then
      Walked([], makers, rem)
    else
      var m := makers[0];
      var q := Min(m.rem, rem);
      var f := Fill(m.id, taker.id, m.price, q);
      if m.rem == q then
        var w := Walk(makers[1..], taker, rem - q);
        Walked([f] + w.fills, w.makers, w.rem)
      else
        Walked([f], [m.(rem := m.rem - q)] + makers[1..], rem - q)
  }

  /** A new entry goes behind everything at its price or better. */
  function Insert<Id>(s: seq<Entry<Id>>, e: Entry<Id>, side: Side): seq<Entry<Id>> {
    if s == [] || Better(side, e.price, s[0].price) then [e] + s
    else [s[0]] + Insert(s[1..], e, side)
  }

  function AddOrder<Id>(v: View<Id>, o: Order<Id>): Added<Id> {
    if o.typ == Unknown then Added(v, [], false)
    else
      var w := Walk(v.On(o.side.Opposite()), o, o.Remaining());
      var matched := v.With(o.side.Opposite(), w.makers);
      if o.typ == Limit && w.rem > 0 then
        Added(matched.With(o.side, Insert(matched.On(o.side), Entry(o.id, o.price, w.rem), o.side)), w.fills, true)
      else
        Added(matched, w.fills, false)
  }

  function RemoveId<Id(==)>(s: seq<Entry<Id>>, id: Id): seq<Entry<Id>> {
    if s == [] then [] else if s[0].id == id then s[1..] else [s[0]] + RemoveId(s[1..], id)
  }

  function CancelOrder<Id(==)>(v: View<Id>, id: Id): (View<Id>, bool) {
    if exists i :: 0 <= i < |v.bids| && v.bids[i].id == id then (v.(bids := RemoveId(v.bids, id)), true)
    else if exists i :: 0 <= i < |v.asks| && v.asks[i].id == id then (v.(asks := RemoveId(v.asks, id)), true)
    else (v, false)
  }

  // ----- what a well-formed book looks like

  ghost predicate HasId<Id>(s: seq<Entry<Id>>, id: Id) {
    exists i :: 0 <= i < |s| && s[i].id == id
  }

  ghost predicate Sorted<Id>(s: seq<Entry<Id>>, side: Side) {
    forall i, j :: 0 <= i < j < |s| ==> !Better(side, s[j].price, s[i].price)
  }

  ghost predicate AllPositive<Id>(s: seq<Entry<Id>>) {
    forall i :: 0 <= i < |s| ==> s[i].rem > 0
  }

  ghost predicate DistinctIds<Id>(s: seq<Entry<Id>>) {
    forall i, j :: 0 <= i < j < |s| ==> s[i].id != s[j].id
  }

  ghost predicate Apart<Id>(s: seq<Entry<Id>>, t: seq<Entry<Id>>) {
    forall i, j :: 0 <= i < |s| && 0 <= j < |t| ==> s[i].id != t[j].id
  }

  /** Neither locked nor crossed: the best bid is strictly below the best ask. */
  ghost predicate Uncrossed<Id>(v: View<Id>) {
    v.bids != [] && v.asks != [] ==> v.bids[0].price < v.asks[0].price
  }

  ghost predicate Ok<Id>(v: View<Id>) {
    && Sorted(v.bids, Buy) && Sorted(v.asks, Sell)
    && AllPositive(v.bids) && AllPositive(v.asks)
    && DistinctIds(v.bids) && DistinctIds(v.asks) && Apart(v.bids, v.asks)
    && Uncrossed(v)
  }

  // ----- the walk

  /** The walk stops only when the taker is full or nothing left crosses. */
  lemma {:induction false} WalkStops<Id>(makers: seq<Entry<Id>>, taker: Order<Id>, rem: int)
    requires AllPositive(makers)
    ensures var w := Walk(makers, taker, rem);
      && w.rem <= rem
      && (rem >= 0 ==> w.rem >= 0)
      && (w.rem > 0 && w.makers != [] ==> !Crosses(taker, w.makers[0].price))
  {
    if makers == [] || rem <= 0 || !Crosses(taker, makers[0].price) {
    } else {
      var q := Min(makers[0].rem, rem);
      if makers[0].rem == q {
        WalkStops(makers[1..], taker, rem - q);
      }
    }
  }

  /** Fills described without the walk: the i-th fill names the i-th maker at its own price,
      inside the taker's limit; every maker before the last is consumed whole; and nothing
      tradable is left untraded. */
  ghost predicate PriorityFills<Id>(makers: seq<Entry<Id>>, taker: Order<Id>, rem: int, fills: seq<Fill<Id>>) {
    && |fills| <= |makers|
    && (forall i :: 0 <= i < |fills| ==>
        && fills[i].maker == makers[i].id && fills[i].taker == taker.id
        && fills[i].price == makers[i].price && Crosses(taker, makers[i].price)
        && 0 < fills[i].qty <= makers[i].rem)
    && (forall i :: 0 <= i < |fills| - 1 ==> fills[i].qty == makers[i].rem)
    && (rem <= 0 ==> fills == [])
    && (rem > 0 ==> Volume(fills) <= rem)
    && (Volume(fills) < rem ==>
        && (fills != [] ==> fills[|fills| - 1].qty == makers[|fills| - 1].rem)
        && (|fills| < |makers| ==> !Crosses(taker, makers[|fills|].price)))
  }

  function Volume<Id>(fills: seq<Fill<Id>>): int {
    if fills == [] then 0 else fills[0].qty + Volume(fills[1..])
  }

  lemma {:induction false} VolumePositive<Id>(fills: seq<Fill<Id>>)
    requires forall i :: 0 <= i < |fills| ==> fills[i].qty > 0
    ensures Volume(fills) >= |fills|
  {
    if fills != [] {
      VolumePositive(fills[1..]);
    }
  }

  lemma PriorityCons<Id>(makers: seq<Entry<Id>>, taker: Order<Id>, rem: int, rest: seq<Fill<Id>>)
    requires makers != [] && AllPositive(makers)
    requires makers[0].rem <= rem && Crosses(taker, makers[0].price)
    requires PriorityFills(makers[1..], taker, rem - makers[0].rem, rest)
    ensures var m := makers[0];
      PriorityFills(makers, taker, rem, [Fill(m.id, taker.id, m.price, m.rem)] + rest)
  {
    var m, left := makers[0], makers[1..];
    var fills := [Fill(m.id, taker.id, m.price, m.rem)] + rest;
    assert fills[1..] == rest;
    assert forall i :: 1 <= i < |fills| ==> fills[i] == rest[i - 1] && makers[i] == left[i - 1];
    assert |fills| < |makers| ==> makers[|fills|] == left[|rest|];
    hide Crosses;
  }

  lemma {:induction false} WalkIsPriority<Id>(makers: seq<Entry<Id>>, taker: Order<Id>, rem: int)
    requires AllPositive(makers)
    ensures PriorityFills(makers, taker, rem, Walk(makers, taker, rem).fills)
    ensures Walk(makers, taker, rem).rem == rem - Volume(Walk(makers, taker, rem).fills)
  {
    if makers == [] || rem <= 0 || !Crosses(taker, makers[0].price) {
    } else {
      var m := makers[0];
      var q := Min(m.rem, rem);
      var f := Fill(m.id, taker.id, m.price, q);
      if m.rem == q {
        WalkIsPriority(makers[1..], taker, rem - q);
        var rest := Walk(makers[1..], taker, rem - q).fills;
        PriorityCons(makers, taker, rem, rest);
        assert ([f] + rest)[1..] == rest;
      } else {
        assert Volume([f]) == q;
      }
    }
  }

  lemma PriorityHead<Id>(makers: seq<Entry<Id>>, taker: Order<Id>, rem: int, fills: seq<Fill<Id>>)
    requires AllPositive(makers) && PriorityFills(makers, taker, rem, fills)
    requires makers != [] && rem > 0 && Crosses(taker, makers[0].price)
    ensures fills != []
    ensures var m := makers[0]; fills[0] == Fill(m.id, taker.id, m.price, Min(m.rem, rem))
    ensures makers[0].rem > rem ==> |fills| == 1
  {
    VolumePositive(fills);
    assert Volume<Id>([]) == 0;
    var rest := fills[1..];
    VolumePositive(rest);
    if rest == [] {
      assert Volume(fills) == fills[0].qty;
    }
  }

  lemma PriorityTail<Id>(makers: seq<Entry<Id>>, taker: Order<Id>, rem: int, fills: seq<Fill<Id>>)
    requires AllPositive(makers) && PriorityFills(makers, taker, rem, fills)
    requires fills != [] && rem > 0 && fills[0].qty == makers[0].rem
    ensures PriorityFills(makers[1..], taker, rem - fills[0].qty, fills[1..])
  {
    var rest, left := fills[1..], makers[1..];
    assert forall i :: 0 <= i < |rest| ==> rest[i] == fills[i + 1];
    assert forall i :: 0 <= i < |left| ==> left[i] == makers[i + 1];
    VolumePositive(rest);
  }

  lemma {:induction false} PriorityIsWalk<Id>(makers: seq<Entry<Id>>, taker: Order<Id>, rem: int, fills: seq<Fill<Id>>)
    requires AllPositive(makers)
    requires PriorityFills(makers, taker, rem, fills)
    ensures fills == Walk(makers, taker, rem).fills
  {
    if makers == [] || rem <= 0 || !Crosses(taker, makers[0].price) {
      assert |fills| == 0 by {
        assert rem <= 0 || makers == [] || !Crosses(taker, makers[0].price);
      }
    } else {
      PriorityHead(makers, taker, rem, fills);
      if makers[0].rem <= rem {
        PriorityTail(makers, taker, rem, fills);
        PriorityIsWalk(makers[1..], taker, rem - fills[0].qty, fills[1..]);
      }
      assert fills == [fills[0]] + fills[1..];
    }
  }

  /** The fills of one order are the greedy price-time walk, and nothing else is. */
  lemma FillsAreExactlyThePriorityFills<Id>(v: View<Id>, o: Order<Id>, fills: seq<Fill<Id>>)
    requires Ok(v) && o.typ != Unknown
    ensures fills == AddOrder(v, o).fills
       <==> PriorityFills(v.On(o.side.Opposite()), o, o.Remaining(), fills)
  {
    var makers := v.On(o.side.Opposite());
    WalkIsPriority(makers, o, o.Remaining());
    if PriorityFills(makers, o, o.Remaining(), fills) {
      PriorityIsWalk(makers, o, o.Remaining(), fills);
    }
  }

  /** What the fills leave of the makers: those filled whole are gone, the last one keeps what is left of it in
      its place, and all others are as they were. */
  lemma {:induction false} WalkLeaves<Id>(makers: seq<Entry<Id>>, taker: Order<Id>, rem: int)
    requires AllPositive(makers)
    ensures var w := Walk(makers, taker, rem);
      var n := |w.fills|;
      && n <= |makers|
      && (n == 0 ==> w.makers == makers)
      && (n > 0 ==>
            var last, left := makers[n - 1], makers[n - 1].rem - w.fills[n - 1].qty;
            w.makers == (if left > 0 then [last.(rem := left)] else []) + makers[n..])
  {
    if makers == [] || rem <= 0 || !Crosses(taker, makers[0].price) {
    } else {
      var m, t := makers[0], makers[1..];
      var q := Min(m.rem, rem);
      if m.rem == q {
        WalkLeaves(t, taker, rem - q);
        var w := Walk(t, taker, rem - q);
        assert Walk(makers, taker, rem).fills == [Fill(m.id, taker.id, m.price, q)] + w.fills;
        assert t[|w.fills|..] == makers[|w.fills| + 1..];
        assert [] + makers[1..] == t;
      }
    }
  }

  /** Everything before place `i` is at the price or better, and everything from there on is worse. */
  ghost predicate BelongsAt<Id>(s: seq<Entry<Id>>, side: Side, price: int, i: nat) {
    && i <= |s|
    && (forall j :: 0 <= j < i ==> if side == Buy then s[j].price >= price else s[j].price <= price)
    && (forall j :: i <= j < |s| ==> if side == Buy then s[j].price < price else s[j].price > price)
  }

  lemma {:induction false} SomePlace<Id>(s: seq<Entry<Id>>, side: Side, price: int)
    requires Sorted(s, side)
    ensures exists i: nat :: BelongsAt(s, side, price, i)
  {
    if s == [] || Better(side, price, s[|s| - 1].price) {
      if s == [] {
        assert BelongsAt(s, side, price, 0);
      } else {
        var past := s[..|s| - 1];
        SomePlace(past, side, price);
        var i: nat :| BelongsAt(past, side, price, i);
        assert BelongsAt(s, side, price, i);
      }
    } else {
      forall j | 0 <= j < |s|
        ensures !Better(side, price, s[j].price)
      {
        assert j < |s| - 1 ==> !Better(side, s[|s| - 1].price, s[j].price);
      }
      assert BelongsAt(s, side, price, |s|);
    }
  }

  /** A new entry joins at that place: behind everything at its price or better, ahead of everything worse. */
  lemma {:induction false} InsertAt<Id>(s: seq<Entry<Id>>, e: Entry<Id>, side: Side, i: nat)
    requires BelongsAt(s, side, e.price, i)
    ensures Insert(s, e, side) == s[..i] + [e] + s[i..]
  {
    if i == 0 {
      assert s[..0] + [e] + s[0..] == [e] + s;
    } else {
      var t := s[1..];
      assert forall j :: 0 <= j < |t| ==> t[j] == s[j + 1];
      InsertAt(t, e, side, i - 1);
      assert s[..i] == [s[0]] + t[..i-1] && s[i..] == t[i-1..];
      assert [s[0]] + (t[..i-1] + [e] + t[i-1..]) == s[..i] + [e] + s[i..];
    }
  }

  /** The first entry of the id goes and all others stay where they are. */
  lemma {:induction false} RemoveIdExact<Id>(s: seq<Entry<Id>>, id: Id, i: nat)
    requires i < |s| && s[i].id == id && forall j :: 0 <= j < i ==> s[j].id != id
    ensures RemoveId(s, id) == s[..i] + s[i+1..]
  {
    if i == 0 {
      assert s[..0] + s[1..] == s[1..];
    } else {
      RemoveIdExact(s[1..], id, i - 1);
      assert [s[0]] + (s[1..][..i-1] + s[1..][i..]) == s[..i] + s[i+1..];
    }
  }

  /** The fields of an add's outcome, of any order against any well-formed book. A resting order is a limit order
      with something left, entered with exactly what is left; the other side has lost what the fills took; and an
      order of unknown type does nothing. */
  lemma AddOutcome<Id>(v: View<Id>, o: Order<Id>)
    requires Ok(v)
    ensures var a := AddOrder(v, o);
      var left := o.qty - o.filled - Volume(a.fills);
      && (o.typ == Unknown ==> a == Added(v, [], false))
      && (o.typ != Unknown ==>
            && (a.rests <==> o.typ == Limit && left > 0)
            && a.view.On(o.side) ==
              (if a.rests then Insert(v.On(o.side), Entry(o.id, o.price, left), o.side) else v.On(o.side))
            && a.view.On(o.side.Opposite()) == Walk(v.On(o.side.Opposite()), o, o.qty - o.filled).makers)
  {
    if o.typ != Unknown {
      WalkIsPriority(v.On(o.side.Opposite()), o, o.Remaining());
    }
    hide Walk, Insert, Ok, PriorityFills;
  }

  /** A limit order trades inside its limit only, and stops only where the limit, the other side or its quantity
      ends. */
  lemma LimitRespected<Id>(v: View<Id>, o: Order<Id>)
    requires Ok(v) && o.typ == Limit
    ensures var a, opp := AddOrder(v, o), v.On(o.side.Opposite());
      && (forall i :: 0 <= i < |a.fills| ==>
            if o.side == Buy then a.fills[i].price <= o.price else a.fills[i].price >= o.price)
      && (Volume(a.fills) < o.qty - o.filled && |a.fills| < |opp| ==>
            if o.side == Buy then opp[|a.fills|].price > o.price else opp[|a.fills|].price < o.price)
  {
    WalkIsPriority(v.On(o.side.Opposite()), o, o.Remaining());
    hide Walk, Ok;
  }

  /** A market order takes all there is, or all it wants. */
  lemma MarketTakesAll<Id>(v: View<Id>, o: Order<Id>)
    requires Ok(v) && o.typ == Market
    ensures var a, opp := AddOrder(v, o), v.On(o.side.Opposite());
      |a.fills| == |opp| || Volume(a.fills) == (if o.qty - o.filled > 0 then o.qty - o.filled else 0)
  {
    WalkIsPriority(v.On(o.side.Opposite()), o, o.Remaining());
    hide Walk, Ok;
  }

  /** A cancel is accepted exactly if the order rests, and takes it alone off the side it rests on. */
  lemma CancelOutcome<Id>(v: View<Id>, id: Id)
    requires Ok(v)
    ensures var r := CancelOrder(v, id);
      && (r.1 <==> v.Rests(id)) && (!r.1 ==> r.0 == v)
      && (forall i :: 0 <= i < |v.bids| && v.bids[i].id == id ==> r.0 == View(v.bids[..i] + v.bids[i+1..], v.asks))
      && (forall i :: 0 <= i < |v.asks| && v.asks[i].id == id ==> r.0 == View(v.bids, v.asks[..i] + v.asks[i+1..]))
  {
    forall i | 0 <= i < |v.bids| && v.bids[i].id == id
      ensures RemoveId(v.bids, id) == v.bids[..i] + v.bids[i+1..]
    {
      RemoveIdExact(v.bids, id, i);
    }
    forall i | 0 <= i < |v.asks| && v.asks[i].id == id
      ensures RemoveId(v.asks, id) == v.asks[..i] + v.asks[i+1..]
    {
      RemoveIdExact(v.asks, id, i);
    }
    hide RemoveId, Sorted, AllPositive, Uncrossed;
  }

  // ----- every command keeps the book well formed

  lemma {:induction false} InsertKeepsOrder<Id>(s: seq<Entry<Id>>, e: Entry<Id>, side: Side)
    requires Sorted(s, side)
    ensures Sorted(Insert(s, e, side), side)
    ensures Insert(s, e, side)[0] == if s == [] || Better(side, e.price, s[0].price) then e else s[0]
  {
    if s == [] || Better(side, e.price, s[0].price) {
      ConsKeepsOrder(e, s, side);
    } else {
      InsertKeepsOrder(s[1..], e, side);
      ConsKeepsOrder(s[0], Insert(s[1..], e, side), side);
    }
  }

  lemma {:induction false} InsertHasIds<Id>(s: seq<Entry<Id>>, e: Entry<Id>, side: Side, id: Id)
    ensures HasId(Insert(s, e, side), id) <==> HasId(s, id) || e.id == id
  {
    if s == [] || Better(side, e.price, s[0].price) {
      ConsHasId(e, s, id);
    } else {
      InsertHasIds(s[1..], e, side, id);
      ConsHasId(s[0], Insert(s[1..], e, side), id);
      ConsHasId(s[0], s[1..], id);
      assert s == [s[0]] + s[1..];
    }
  }

  lemma {:induction false} InsertKeepsIds<Id>(s: seq<Entry<Id>>, e: Entry<Id>, side: Side)
    requires AllPositive(s) && DistinctIds(s)
    requires e.rem > 0 && !HasId(s, e.id)
    ensures AllPositive(Insert(s, e, side)) && DistinctIds(Insert(s, e, side))
  {
    if s == [] || Better(side, e.price, s[0].price) {
      ConsKeepsIds(e, s);
    } else {
      assert s == [s[0]] + s[1..];
      ConsHasId(s[0], s[1..], e.id);
      InsertKeepsIds(s[1..], e, side);
      InsertHasIds(s[1..], e, side, s[0].id);
      ConsKeepsIds(s[0], Insert(s[1..], e, side));
    }
  }

  /** One side of a book, and its head not ahead of `best`. */
  ghost predicate SideFrom<Id>(s: seq<Entry<Id>>, side: Side, best: int) {
    && Sorted(s, side) && AllPositive(s) && DistinctIds(s)
    && (s != [] ==> !Better(side, s[0].price, best))
  }

  lemma SideFromTail<Id>(s: seq<Entry<Id>>, side: Side, best: int)
    requires SideFrom(s, side, best) && s != []
    ensures SideFrom(s[1..], side, s[0].price) && SideFrom(s[1..], side, best)
  {
    var t := s[1..];
    assert forall i :: 0 <= i < |t| ==> t[i] == s[i + 1];
    assert t != [] ==> !Better(side, s[1].price, s[0].price);
  }

  lemma SideFromHead<Id>(s: seq<Entry<Id>>, side: Side, best: int, m: Entry<Id>)
    requires SideFrom(s, side, best) && s != []
    requires m.id == s[0].id && m.price == s[0].price && m.rem > 0
    ensures SideFrom([m] + s[1..], side, best)
  {
    var t := [m] + s[1..];
    assert forall i :: 1 <= i < |t| ==> t[i] == s[i];
  }

  lemma {:induction false} WalkKeeps<Id>(makers: seq<Entry<Id>>, taker: Order<Id>, rem: int, side: Side, best: int)
    requires SideFrom(makers, side, best)
    ensures SideFrom(Walk(makers, taker, rem).makers, side, best)
  {
    if makers == [] || rem <= 0 || !Crosses(taker, makers[0].price) {
    } else {
      var m := makers[0];
      var q := Min(m.rem, rem);
      assert m.rem > 0;
      hide SideFrom, Crosses;
      if m.rem == q {
        SideFromTail(makers, side, best);
        WalkKeeps(makers[1..], taker, rem - q, side, best);
      } else {
        SideFromHead(makers, side, best, m.(rem := m.rem - q));
      }
    }
  }

  lemma WalkKeepsSide<Id>(makers: seq<Entry<Id>>, taker: Order<Id>, rem: int, side: Side)
    requires Sorted(makers, side) && AllPositive(makers) && DistinctIds(makers)
    ensures var w := Walk(makers, taker, rem);
      && Sorted(w.makers, side) && AllPositive(w.makers) && DistinctIds(w.makers)
      && (w.makers != [] ==> makers != [] && !Better(side, w.makers[0].price, makers[0].price))
  {
    if makers != [] {
      hide Walk;
      WalkKeeps(makers, taker, rem, side, makers[0].price);
    }
  }

  lemma {:induction false} WalkHasIds<Id>(makers: seq<Entry<Id>>, taker: Order<Id>, rem: int, id: Id)
    requires HasId(Walk(makers, taker, rem).makers, id)
    ensures HasId(makers, id)
  {
    if makers == [] || rem <= 0 || !Crosses(taker, makers[0].price) {
    } else {
      var m := makers[0];
      var q := Min(m.rem, rem);
      assert makers == [m] + makers[1..];
      ConsHasId(m, makers[1..], id);
      if m.rem == q {
        WalkHasIds(makers[1..], taker, rem - q, id);
      } else {
        ConsHasId(m.(rem := m.rem - q), makers[1..], id);
      }
    }
  }

  lemma ConsHasId<Id>(e: Entry<Id>, s: seq<Entry<Id>>, id: Id)
    ensures HasId([e] + s, id) <==> e.id == id || HasId(s, id)
  {
    var r := [e] + s;
    assert r[0] == e && r[1..] == s;
    if HasId(s, id) {
      var i :| 0 <= i < |s| && s[i].id == id;
      assert r[i + 1].id == id;
    }
  }

  lemma ConsKeepsOrder<Id>(e: Entry<Id>, s: seq<Entry<Id>>, side: Side)
    requires Sorted(s, side) && (s != [] ==> !Better(side, s[0].price, e.price))
    ensures Sorted([e] + s, side)
  {
    var r := [e] + s;
    forall i, j | 0 <= i < j < |r|
      ensures !Better(side, r[j].price, r[i].price)
    {
      assert r[j] == s[j - 1];
      assert i > 0 ==> r[i] == s[i - 1];
      assert j > 1 ==> !Better(side, s[j - 1].price, s[0].price);
    }
  }

  lemma ConsKeepsIds<Id>(e: Entry<Id>, s: seq<Entry<Id>>)
    requires AllPositive(s) && DistinctIds(s) && e.rem > 0 && !HasId(s, e.id)
    ensures AllPositive([e] + s) && DistinctIds([e] + s)
  {
    assert forall i :: 0 < i < |[e] + s| ==> ([e] + s)[i] == s[i - 1];
  }

  /** Two sides share no id exactly when no id is found on both. */
  lemma ApartByIds<Id(!new)>(s: seq<Entry<Id>>, t: seq<Entry<Id>>)
    ensures Apart(s, t) <==> forall id :: !(HasId(s, id) && HasId(t, id))
    ensures Apart(s, t) <==> Apart(t, s)
  {
    if !Apart(s, t) {
      var i, j :| 0 <= i < |s| && 0 <= j < |t| && s[i].id == t[j].id;
      assert HasId(s, s[i].id) && HasId(t, s[i].id);
    }
  }

  lemma MatchKeepsOk<Id(!new)>(v: View<Id>, o: Order<Id>)
    requires Ok(v)
    ensures var w := Walk(v.On(o.side.Opposite()), o, o.Remaining());
      && Ok(v.With(o.side.Opposite(), w.makers))
      && (v.With(o.side.Opposite(), w.makers).Rests(o.id) ==> v.Rests(o.id))
  {
    var opp := o.side.Opposite();
    WalkKeepsSide(v.On(opp), o, o.Remaining(), opp);
    var w := Walk(v.On(opp), o, o.Remaining());
    forall id | HasId(w.makers, id)
      ensures HasId(v.On(opp), id)
    {
      WalkHasIds(v.On(opp), o, o.Remaining(), id);
    }
    ApartByIds(w.makers, v.On(o.side));
  }

  lemma RestKeepsOk<Id(!new)>(v: View<Id>, e: Entry<Id>, side: Side)
    requires Ok(v) && e.rem > 0 && !v.Rests(e.id)
    requires var opp := v.On(side.Opposite());
      opp != [] ==> if side == Buy then e.price < opp[0].price else opp[0].price < e.price
    ensures Ok(v.With(side, Insert(v.On(side), e, side)))
  {
    InsertKeepsOrder(v.On(side), e, side);
    InsertKeepsIds(v.On(side), e, side);
    forall id
      ensures HasId(Insert(v.On(side), e, side), id) <==> HasId(v.On(side), id) || e.id == id
    {
      InsertHasIds(v.On(side), e, side, id);
    }
    ApartByIds(Insert(v.On(side), e, side), v.On(side.Opposite()));
  }

  /** A taker is matched before it rests, so resting it can neither lock nor cross the book. */
  lemma AddKeepsOk<Id(!new)>(v: View<Id>, o: Order<Id>)
    requires Ok(v) && !v.Rests(o.id)
    ensures Ok(AddOrder(v, o).view)
  {
    if o.typ != Unknown {
      var opp := o.side.Opposite();
      var w := Walk(v.On(opp), o, o.Remaining());
      MatchKeepsOk(v, o);
      WalkStops(v.On(opp), o, o.Remaining());
      WalkKeepsSide(v.On(opp), o, o.Remaining(), opp);
      if o.typ == Limit && w.rem > 0 {
        RestKeepsOk(v.With(opp, w.makers), Entry(o.id, o.price, w.rem), o.side);
      }
    }
  }

  lemma {:induction false} RemoveIdHasIds<Id>(s: seq<Entry<Id>>, id: Id, other: Id)
    requires DistinctIds(s)
    ensures HasId(RemoveId(s, id), other) <==> HasId(s, other) && other != id
  {
    if s != [] {
      assert s == [s[0]] + s[1..];
      ConsHasId(s[0], s[1..], other);
      if s[0].id != id {
        RemoveIdHasIds(s[1..], id, other);
        ConsHasId(s[0], RemoveId(s[1..], id), other);
      }
    }
  }

  lemma {:induction false} RemoveIdKeepsSide<Id>(s: seq<Entry<Id>>, id: Id, side: Side)
    requires Sorted(s, side) && AllPositive(s) && DistinctIds(s)
    ensures var r := RemoveId(s, id);
      && Sorted(r, side) && AllPositive(r) && DistinctIds(r)
      && (r != [] ==> s != [] && !Better(side, r[0].price, s[0].price))
  {
    if s != [] && s[0].id != id {
      var t := RemoveId(s[1..], id);
      RemoveIdKeepsSide(s[1..], id, side);
      RemoveIdHasIds(s[1..], id, s[0].id);
      ConsKeepsIds(s[0], t);
      ConsKeepsOrder(s[0], t, side);
    }
  }

  lemma CancelKeepsOk<Id(!new)>(v: View<Id>, id: Id)
    requires Ok(v)
    ensures Ok(CancelOrder(v, id).0)
    ensures CancelOrder(v, id).1 <==> v.Rests(id)
    ensures !CancelOrder(v, id).0.Rests(id)
  {
    var side := if HasId(v.bids, id) then Buy else Sell;
    ApartByIds(v.bids, v.asks);
    RemoveIdKeepsSide(v.On(side), id, side);
    forall other
      ensures HasId(RemoveId(v.On(side), id), other) <==> HasId(v.On(side), other) && other != id
    {
      RemoveIdHasIds(v.On(side), id, other);
    }
    ApartByIds(RemoveId(v.On(side), id), v.On(side.Opposite()));
  }
}
