/** The reference book: two price-to-level maps, an id index for constant-time cancels, cached
    best prices with 0 for an empty side, and slabs from which orders and nodes are handed out. */
module LinkedBook {
  import opened PriceTime
  import opened PriceLevel
  import opened Tiers
  import opened Depth

  datatype NodeRef = NodeRef(n: Node, lvl: Level)

  datatype CancelResult = CancelOK | CancelNotFound

  class Arena {
    const slab: seq<OrderSlot>
    var cursor: nat
    ghost const Repr: set<object>

    ghost predicate Valid()
      reads this
    {
      && this in Repr && cursor <= |slab|
      && forall i :: 0 <= i < |slab| ==> slab[i].idx == i && slab[i] in Repr
    }

    constructor (capacity: nat)
      ensures Valid() && cursor == 0 && |slab| == capacity
      ensures fresh(Repr)
    {
      var s: seq<OrderSlot> := [];
      ghost var made: set<object> := {};
      while |s| < capacity
        invariant |s| <= capacity && fresh(made)
        invariant forall i :: 0 <= i < |s| ==> s[i].idx == i && s[i] in made
      {
        var slot := new OrderSlot(Order(0, Buy, Unknown, 0, 0, 0), |s|);
        s, made := s + [slot], made + {slot};
      }
      slab := s;
      cursor := 0;
      Repr := made + {this};
    }

    /** The next free place. Running past the end of the slab is the caller's fault. */
    method Alloc() returns (o: OrderSlot)
      requires Valid() && cursor < |slab|
      modifies this
      ensures Valid() && cursor == old(cursor) + 1 && o == slab[old(cursor)]
    {
      o := slab[cursor];
      cursor := cursor + 1;
    }

    method Reset()
      requires Valid()
      modifies this
      ensures Valid() && cursor == 0
    {
      cursor := 0;
    }
  }

  class NodePool {
    const slab: seq<Node>
    var cursor: nat
    ghost const Repr: set<object>

    ghost predicate Valid()
      reads this
    {
      && this in Repr && cursor <= |slab|
      && forall i :: 0 <= i < |slab| ==> slab[i].idx == i && slab[i] in Repr
    }

    constructor (capacity: nat)
      ensures Valid() && cursor == 0 && |slab| == capacity
      ensures fresh(Repr)
    {
      var s: seq<Node> := [];
      ghost var made: set<object> := {};
      while |s| < capacity
        invariant |s| <= capacity && fresh(made)
        invariant forall i :: 0 <= i < |s| ==> s[i].idx == i && s[i] in made
      {
        var node := new Node(|s|);
        s, made := s + [node], made + {node};
      }
      slab := s;
      cursor := 0;
      Repr := made + {this};
    }

    method Alloc() returns (n: Node)
      requires Valid() && cursor < |slab|
      modifies this
      ensures Valid() && cursor == old(cursor) + 1 && n == slab[old(cursor)]
    {
      n := slab[cursor];
      cursor := cursor + 1;
    }

    method Reset()
      requires Valid()
      modifies this
      ensures Valid() && cursor == 0
    {
      cursor := 0;
    }
  }

  ghost function Ids(queue: seq<Entry<nat>>): set<nat> {
    set i | 0 <= i < |queue| :: queue[i].id
  }

  /** Node `n` stands in level `l` for order `id`. */
  ghost predicate Lists(l: Level, n: Node, id: nat)
    reads l`nodes, l`queue
  {
    exists i :: 0 <= i < |l.nodes| && i < |l.queue| && l.nodes[i] == n && l.queue[i].id == id
  }

  /** Every entry of level `l` is indexed by `orders` with its node and this level. */
  ghost predicate Indexed(orders: map<nat, NodeRef>, l: Level)
    reads l`nodes, l`queue
  {
    && |l.nodes| == |l.queue|
    && forall i :: 0 <= i < |l.queue| ==>
        l.queue[i].id in orders && orders[l.queue[i].id] == NodeRef(l.nodes[i], l)
  }

  /** Two levels of different side or price share no node and no order slot. */
  lemma LevelsApart(a: Level, b: Level)
    requires a.Valid() && b.Valid() && (a.side != b.side || a.price != b.price)
    ensures forall i, j :: 0 <= i < |a.nodes| && 0 <= j < |b.nodes| ==> a.nodes[i] != b.nodes[j]
    ensures forall i, j :: 0 <= i < |a.slots| && 0 <= j < |b.slots| ==> a.slots[i] != b.slots[j]
  {
    assert forall i :: 0 <= i < |a.nodes| ==> a.Carries(a.nodes[i], a.slots[i], a.queue[i]);
    assert forall i :: 0 <= i < |b.nodes| ==> b.Carries(b.nodes[i], b.slots[i], b.queue[i]);
  }

  /** No key is ahead of `b`. */
  ghost predicate IsBest(keys: set<int>, side: Side, b: int) {
    b in keys && forall p :: p in keys ==> !Better(side, p, b)
  }

  /** A best price the cached field can hold: 0 means an empty side, and the search for bids starts at 0. */
  predicate Representable(side: Side, best: int) {
    if side == Buy then best > 0 else best != 0
  }

  /** What the search for the best price knows after visiting some of the keys. */
  ghost predicate Seen(keys: set<int>, visited: set<int>, side: Side, best: int) {
    && visited <= keys && (best == 0 || best in visited)
    && (side == Buy ==> best >= 0 && forall p :: p in visited ==> p <= best)
    && (side == Sell && 0 !in keys ==> (best == 0 <==> visited == {}) && forall p :: p in visited ==> best <= p)
    && (side == Sell ==> forall p :: p in visited && p < 0 ==> best <= p)
  }

  lemma SeeMore(keys: set<int>, visited: set<int>, side: Side, best: int, price: int)
    requires Seen(keys, visited, side, best) && price in keys
    ensures var better := if side == Buy then price > best else best == 0 || price < best;
      Seen(keys, visited + {price}, side, if better then price else best)
  {
  }

  lemma SeenAll(keys: set<int>, side: Side, best: int)
    requires Seen(keys, keys, side, best)
    ensures forall b :: IsBest(keys, side, b) ==> (best == b && best != 0 <==> Representable(side, b))
    ensures keys != {} && (forall p :: p in keys ==> p > 0) ==> IsBest(keys, side, best)
  {
    forall b | IsBest(keys, side, b)
      ensures best == b && best != 0 <==> Representable(side, b)
    {
      assert best in keys ==> !Better(side, best, b);
      assert 0 in keys ==> !Better(side, 0, b);
    }
    if keys != {} && forall p :: p in keys ==> p > 0 {
      SomePrice(keys);
    }
  }

  class Book {
    var bids: map<int, Level>
    var bestBid: int
    var asks: map<int, Level>
    var bestAsk: int
    var orders: map<nat, NodeRef>
    const arena: Arena
    const pool: NodePool

    ghost var bidTiers: seq<Tier>
    ghost var askTiers: seq<Tier>
    ghost var levels: set<Level>
    ghost var Repr: set<object>

    /** What the book contains, in priority order. */
    ghost function Contents(): View<nat>
      reads `bidTiers, `askTiers
    {
      View(Flatten(bidTiers), Flatten(askTiers))
    }

    ghost predicate Pools(bound: nat)
      reads `Repr, arena, pool
    {
      && arena.Valid() && pool.Valid() && |pool.slab| == |arena.slab|
      && pool.cursor <= bound <= arena.cursor
      && arena.Repr <= Repr && pool.Repr <= Repr
    }

    /** The level object and all it is made of belong to this book and come from its slabs. */
    ghost predicate Owns(l: Level, bound: nat)
      reads `Repr, l, pool
    {
      && l in Repr
      && (forall i :: 0 <= i < |l.nodes| ==> l.nodes[i] in Repr && l.nodes[i].idx < pool.cursor)
      && (forall i :: 0 <= i < |l.slots| ==> l.slots[i] in Repr && l.slots[i].idx < bound)
    }

    /** Level `l` is the one its side's map has at its price. */
    ghost predicate Live(l: Level)
      reads `bids, `asks
    {
      LiveIn(l, bids, asks)
    }

    ghost predicate LiveIn(l: Level, b: map<int, Level>, a: map<int, Level>) {
      if l.side == Buy then l.price in b && b[l.price] == l else l.price in a && a[l.price] == l
    }

    /** Map, cached best price and tiers of one side agree. */
    ghost predicate LadderOk(lv: set<Level>, m: map<int, Level>, tiers: seq<Tier>, side: Side, best: int)
      reads lv
    {
      && Priced(m, tiers, side, best)
      && forall i :: 0 <= i < |tiers| ==>
          tiers[i].price in m && m[tiers[i].price] in lv && Mirrors(m[tiers[i].price], tiers[i], side)
    }

    ghost predicate Priced(m: map<int, Level>, tiers: seq<Tier>, side: Side, best: int) {
      TiersOk(tiers, side) && m.Keys == Prices(tiers) && best == BestPrice(tiers)
    }

    ghost predicate Mirrors(l: Level, t: Tier, side: Side)
      reads l`queue
    {
      l.side == side && l.price == t.price && l.queue == t.queue
    }

    ghost predicate LevelsOk(bound: nat)
      reads `levels, `Repr, `bids, `asks, `orders, pool, Repr
    {
      LevelsIn(levels, bids, asks, bound)
    }

    ghost predicate LevelsIn(lv: set<Level>, b: map<int, Level>, a: map<int, Level>, bound: nat)
      reads `Repr, `orders, pool, Repr
    {
      forall l :: l in lv ==> l in Repr && Owns(l, bound) && l.Valid() && LiveIn(l, b, a) && Indexed(orders, l)
    }

    /** Nothing but listed orders is indexed. */
    ghost predicate IndexOk()
      reads `orders, `levels, levels
    {
      IndexIn(levels)
    }

    ghost predicate IndexIn(lv: set<Level>)
      reads `orders, lv
    {
      forall id :: id in orders ==> orders[id].lvl in lv && Lists(orders[id].lvl, orders[id].n, id)
    }

    ghost predicate LaddersOk()
      reads this, levels
    {
      LadderOk(levels, bids, bidTiers, Buy, bestBid) && LadderOk(levels, asks, askTiers, Sell, bestAsk)
    }

    /** The heap invariant, all but the absence of empty levels. Order slots from `bound` on are free. */
    ghost predicate Shape(bound: nat)
      reads this, Repr
    {
      && this !in Repr && arena in Repr && pool in Repr && Pools(bound)
      && LevelsOk(bound) && IndexOk() && LaddersOk()
    }

    ghost predicate Valid()
      reads this, Repr
    {
      && arena in Repr && Shape(arena.cursor)
      && NoEmptyTier(bidTiers) && NoEmptyTier(askTiers)
      && Ok(Contents())
    }

    ghost predicate IsEmpty()
      reads this
    {
      && bids == map[] && asks == map[] && orders == map[] && bestBid == 0 == bestAsk
      && bidTiers == [] && askTiers == [] && levels == {}
    }

    lemma EmptyIsValid()
      requires IsEmpty() && this !in Repr && {arena, pool} <= Repr && Pools(arena.cursor)
      ensures Valid() && Contents() == View([], [])
    {
      hide Pools;
      assert Prices([]) == {};
      assert LadderOk(levels, bids, bidTiers, Buy, bestBid);
      assert LadderOk(levels, asks, askTiers, Sell, bestAsk);
    }

    constructor (capacity: nat)
      ensures Valid() && fresh(Repr) && fresh(arena)
      ensures Contents() == View([], []) && IsEmpty() && arena.cursor == 0 && |arena.slab| == capacity
    {
      hide Valid, Shape, Contents, Arena.Valid, NodePool.Valid;
      arena := new Arena(capacity);
      pool := new NodePool(capacity);
      bids, asks, orders := map[], map[], map[];
      bestBid, bestAsk := 0, 0;
      bidTiers, askTiers, levels := [], [], {};
      new;
      Repr := arena.Repr + pool.Repr;
      EmptyIsValid();
    }

    lemma ValidHasPools()
      requires Valid()
      ensures Pools(arena.cursor) && this !in Repr && {arena, pool} <= Repr
    {
    }

    /** Used nodes never exceed used orders, so whenever an order slot is left a node is too. */
    lemma NodesBehindOrders()
      requires Valid()
      ensures pool.cursor <= arena.cursor <= |arena.slab| == |pool.slab|
    {
      hide LevelsOk, IndexOk, LaddersOk, Ok;
    }

    method Reset()
      requires Valid()
      modifies this, Repr
      ensures Valid() && Repr == old(Repr)
      ensures Contents() == View([], []) && arena.cursor == 0 && orders == map[]
    {
      hide Valid, Shape;
      ValidHasPools();
      bids := map[];
      asks := map[];
      orders := map[];
      bestBid := 0;
      bestAsk := 0;
      arena.Reset();
      pool.Reset();
      bidTiers, askTiers, levels := [], [], {};
      EmptyIsValid();
    }

    // ----- matching

    /** One fill against the oldest order of a level. */
    method FillHead(lvl: Level, execPrice: int, taker: OrderSlot) returns (f: Fill<nat>)
      requires lvl.Valid() && Indexed(orders, lvl) && lvl.nodes != []
      requires taker !in lvl.slots && taker.o.Remaining() > 0
      modifies `orders, lvl, lvl.nodes`prev, lvl.slots`o, taker`o
      ensures lvl.Valid() && Indexed(orders, lvl)
      ensures var m := old(lvl.queue[0]);
        var q := Min(m.rem, old(taker.o.Remaining()));
        && f == Fill(m.id, taker.o.id, execPrice, q)
        && taker.o == old(taker.o).(filled := old(taker.o.filled) + q)
        && (q == m.rem ==>
            && lvl.nodes == old(lvl.nodes)[1..] && lvl.slots == old(lvl.slots)[1..]
            && lvl.queue == old(lvl.queue)[1..] && orders == old(orders) - {m.id})
        && (q != m.rem ==>
            && lvl.nodes == old(lvl.nodes) && lvl.slots == old(lvl.slots)
            && lvl.queue == [m.(rem := m.rem - q)] + old(lvl.queue)[1..] && orders == old(orders))
    {
      hide Level.Valid, Indexed, DistinctIds;
      IndexedApart(lvl);
      IndexedOpen(lvl);
      lvl.HeadFacts();
      var maker := lvl.head.order;
      ghost var was, ns, qs := orders, lvl.nodes, lvl.queue;
      var makerID := maker.o.id;
      var qty := Min(maker.o.Remaining(), taker.o.Remaining());
      taker.o := taker.o.(filled := taker.o.filled + qty);
      f := Fill(makerID, taker.o.id, execPrice, qty);
      var done := lvl.TakeHead(qty);
      if done {
        orders := orders - {makerID};
        IndexedPopped(lvl, ns, qs, was);
      } else {
        IndexedLowered(lvl, ns, qs);
      }
    }

    lemma IndexedPopped(lvl: Level, ns: seq<Node>, qs: seq<Entry<nat>>, was: map<nat, NodeRef>)
      requires 0 < |ns| == |qs| && lvl.nodes == ns[1..] && lvl.queue == qs[1..] && DistinctIds(qs)
      requires forall i :: 0 <= i < |qs| ==> qs[i].id in was && was[qs[i].id] == NodeRef(ns[i], lvl)
      requires orders == was - {qs[0].id}
      ensures Indexed(orders, lvl)
    {
    }

    lemma IndexedLowered(lvl: Level, ns: seq<Node>, qs: seq<Entry<nat>>)
      requires 0 < |ns| == |qs| && lvl.nodes == ns
      requires lvl.queue != [] && lvl.queue == qs[0 := qs[0].(rem := lvl.queue[0].rem)]
      requires forall i :: 0 <= i < |qs| ==> qs[i].id in orders && orders[qs[i].id] == NodeRef(ns[i], lvl)
      ensures Indexed(orders, lvl)
    {
    }

    lemma IndexedApart(l: Level)
      requires l.Valid() && Indexed(orders, l)
      ensures DistinctIds(l.queue)
    {
      forall i, j | 0 <= i < j < |l.queue|
        ensures l.queue[i].id != l.queue[j].id
      {
        assert l.nodes[i] != l.nodes[j];
      }
    }

    /** Walks the FIFO of a level, filling until the taker is full or the level exhausted.
        `n` counts the makers consumed whole. */
    method Sweep(lvl: Level, execPrice: int, taker: OrderSlot) returns (fills: seq<Fill<nat>>, ghost n: nat)
      requires lvl.Valid() && Indexed(orders, lvl) && taker !in lvl.slots
      requires execPrice == lvl.price && Crosses(taker.o, lvl.price)
      modifies `orders, lvl, lvl.nodes`prev, lvl.slots`o, taker`o
      ensures lvl.Valid() && Indexed(orders, lvl)
      ensures Walk(old(lvl.queue), old(taker.o), old(taker.o).Remaining()) ==
          Walked(fills, lvl.queue, taker.o.Remaining())
      ensures taker.o == old(taker.o).(filled := taker.o.filled)
      ensures n <= |old(lvl.nodes)| == |old(lvl.slots)| == |old(lvl.queue)|
      ensures lvl.nodes == old(lvl.nodes)[n..] && lvl.slots == old(lvl.slots)[n..]
      ensures forall i :: 0 <= i < |lvl.queue| ==> lvl.queue[i].id == old(lvl.queue)[n..][i].id
      ensures orders == old(orders) - Ids(old(lvl.queue)[..n])
    {
      hide Level.Valid, Crosses, Walk, Indexed, Ids;
      lvl.Facts();
      ghost var o, rem, ns, ss, qs := taker.o, taker.o.Remaining(), lvl.nodes, lvl.slots, lvl.queue;
      fills, n := [], 0;
      NoIds(qs);
      assert [] + Walk(qs, o, rem).fills == Walk(qs, o, rem).fills;
      while lvl.head != null && taker.o.Remaining() > 0
        invariant lvl.Valid() && Indexed(orders, lvl)
        invariant taker.o == o.(filled := taker.o.filled)
        invariant n <= |ns| == |ss| == |qs| && lvl.nodes == ns[n..] && lvl.slots == ss[n..]
        invariant orders == old(orders) - Ids(qs[..n])
        invariant |lvl.queue| == |qs| - n
            && (lvl.queue != [] ==> lvl.queue[0].id == qs[n].id && lvl.queue[1..] == qs[n+1..])
        invariant var w := Walk(lvl.queue, o, taker.o.Remaining());
          Walk(qs, o, rem) == Walked(fills + w.fills, w.makers, w.rem)
        decreases |lvl.queue|, taker.o.Remaining()
      {
        lvl.Facts();
        ghost var q, r := lvl.queue, taker.o.Remaining();
        var f := FillHead(lvl, execPrice, taker);
        WalkStep(q, o, r, fills);
        fills := fills + [f];
        if |lvl.queue| < |q| {
          IdsNext(qs, n);
          n := n + 1;
        }
      }
      lvl.Facts();
      WalkDone(lvl.queue, o, taker.o.Remaining());
      assert fills + [] == fills;
    }

    lemma NoIds(q: seq<Entry<nat>>)
      ensures Ids(q[..0]) == {} && orders - Ids(q[..0]) == orders
    {
    }

    lemma WalkDone(q: seq<Entry<nat>>, o: Order<nat>, rem: int)
      requires q == [] || rem <= 0
      ensures Walk(q, o, rem) == Walked([], q, rem)
    {
    }

    lemma WalkStep(q: seq<Entry<nat>>, o: Order<nat>, rem: int, fills: seq<Fill<nat>>)
      requires q != [] && rem > 0 && q[0].rem > 0 && Crosses(o, q[0].price)
      ensures var m := q[0];
        var d := Min(m.rem, rem);
        var left := if d == m.rem then q[1..] else [m.(rem := m.rem - d)] + q[1..];
        var w, w' := Walk(q, o, rem), Walk(left, o, rem - d);
        Walked(fills + w.fills, w.makers, w.rem)
        == Walked(fills + [Fill(m.id, o.id, m.price, d)] + w'.fills, w'.makers, w'.rem)
    {
      var m := q[0];
      var d := Min(m.rem, rem);
      var f := Fill(m.id, o.id, m.price, d);
      if d == m.rem {
        var w' := Walk(q[1..], o, rem - d);
        assert fills + ([f] + w'.fills) == fills + [f] + w'.fills;
      } else {
        assert fills + [f] + [] == fills + [f];
      }
    }

    lemma IdsPrefix(q: seq<Entry<nat>>, n: nat)
      requires n <= |q|
      ensures forall i :: 0 <= i < n ==> q[i].id in Ids(q[..n])
    {
      assert forall i :: 0 <= i < n ==> q[..n][i] == q[i];
    }

    lemma IdsNext(q: seq<Entry<nat>>, n: nat)
      requires n < |q|
      ensures Ids(q[..n+1]) == Ids(q[..n]) + {q[n].id}
    {
      forall x
        ensures x in Ids(q[..n+1]) <==> x in Ids(q[..n]) || x == q[n].id
      {
        if x in Ids(q[..n]) {
          var i :| 0 <= i < n && q[..n][i].id == x;
          assert q[..n+1][i].id == x;
        }
        if x == q[n].id {
          assert q[..n+1][n].id == x;
        }
      }
    }

    function Side(side: Side): map<int, Level>
      reads this
    {
      if side == Buy then bids else asks
    }

    ghost function TiersOn(side: Side): seq<Tier>
      reads this
    {
      if side == Buy then bidTiers else askTiers
    }

    /** Level `l` has no node, slot or order id of level `swept`. */
    ghost predicate Untouched(l: Level, swept: Level)
      reads l, swept
    {
      && (forall i :: 0 <= i < |l.nodes| ==> l.nodes[i] !in swept.nodes)
      && (forall i :: 0 <= i < |l.slots| ==> l.slots[i] !in swept.slots)
      && (forall i, j :: 0 <= i < |l.queue| && 0 <= j < |swept.queue| ==> l.queue[i].id != swept.queue[j].id)
    }

    lemma LevelsUntouched(lvl: Level, bound: nat)
      requires LevelsOk(bound) && lvl in levels
      ensures forall l :: l in levels && l != lvl ==> Untouched(l, lvl)
    {
      hide Level.Valid, Owns;
      forall l | l in levels && l != lvl
        ensures Untouched(l, lvl)
      {
        LevelsApart(l, lvl);
      }
    }

    lemma TakerApart(taker: OrderSlot, bound: nat)
      requires LevelsOk(bound) && taker.idx == bound
      ensures forall l :: l in levels ==> taker !in l.slots
    {
      hide Level.Valid, Indexed, LiveIn;
      assert forall l :: l in levels ==> Owns(l, bound);
    }

    lemma IndexedAfterSweep(l: Level, swept: seq<Entry<nat>>, n: nat, was: map<nat, NodeRef>)
      requires n <= |swept| && orders == was - Ids(swept[..n]) && Indexed(was, l)
      requires forall i, j :: 0 <= i < |l.queue| && 0 <= j < |swept| ==> l.queue[i].id != swept[j].id
      ensures Indexed(orders, l)
    {
    }

    lemma ListsAfterSweep(lvl: Level, ns: seq<Node>, qs: seq<Entry<nat>>, n: nat, r: Node, id: nat)
      requires n <= |ns| == |qs| && lvl.nodes == ns[n..] && |lvl.queue| == |qs| - n
      requires forall i :: 0 <= i < |lvl.queue| ==> lvl.queue[i].id == qs[n..][i].id
      requires exists i :: 0 <= i < |ns| && ns[i] == r && qs[i].id == id
      requires id !in Ids(qs[..n])
      ensures Lists(lvl, r, id)
    {
      var i :| 0 <= i < |ns| && ns[i] == r && qs[i].id == id;
      IdsPrefix(qs, n);
      assert i >= n;
      assert lvl.nodes[i - n] == r && lvl.queue[i - n].id == id;
    }

    /** From tier `from` on, the side is mirrored by levels other than `lvl`. */
    ghost predicate Clear(lv: set<Level>, m: map<int, Level>, tiers: seq<Tier>, side: Side, from: nat, lvl: Level)
      reads lv - {lvl}
    {
      forall i :: from <= i < |tiers| ==>
        tiers[i].price in m && m[tiers[i].price] in lv - {lvl} && Mirrors(m[tiers[i].price], tiers[i], side)
    }

    lemma LadderClear(lv: set<Level>, m: map<int, Level>, tiers: seq<Tier>, side: Side, best: int, lvl: Level)
      requires LadderOk(lv, m, tiers, side, best)
      ensures Priced(m, tiers, side, best)
      ensures side != lvl.side ==> Clear(lv, m, tiers, side, 0, lvl)
      ensures tiers != [] && lvl.price == tiers[0].price ==>
        tiers[0].price in m && Clear(lv, m, tiers, side, 1, lvl)
    {
      assert tiers != [] ==> forall i :: 0 < i < |tiers| ==> tiers[i].price != tiers[0].price;
    }

    lemma LadderFromClear(lv: set<Level>, m: map<int, Level>, tiers: seq<Tier>, side: Side, best: int, lvl: Level)
      requires Priced(m, tiers, side, best) && Clear(lv, m, tiers, side, 0, lvl)
      ensures LadderOk(lv, m, tiers, side, best)
    {
    }

    lemma LadderSwept(lv: set<Level>, m: map<int, Level>, tiers: seq<Tier>, side: Side, best: int, lvl: Level)
      requires tiers != [] && Priced(m, tiers, side, best)
      requires lvl.Valid() && lvl in lv && lvl.side == side && lvl.price == tiers[0].price
      requires tiers[0].price in m && m[tiers[0].price] == lvl
      requires Clear(lv, m, tiers, side, 1, lvl)
      ensures LadderOk(lv, m, tiers[0 := Tier(lvl.price, lvl.queue)], side, best)
    {
      hide Level.Valid;
      lvl.Facts();
      PricesKept(tiers, 0, lvl.queue);
    }

    /** Sweep a level of this book: the other levels and the index stay in order. */
    method SweepIndexed(lvl: Level, taker: OrderSlot, ghost bound: nat) returns (fills: seq<Fill<nat>>)
      requires LevelsOk(bound) && IndexOk() && taker.idx == bound && lvl in levels
      requires Crosses(taker.o, lvl.price)
      modifies `orders, lvl, lvl.nodes`prev, lvl.slots`o, taker`o
      ensures LevelsOk(bound) && IndexOk()
      ensures Walk(old(lvl.queue), old(taker.o), old(taker.o).Remaining()) ==
          Walked(fills, lvl.queue, taker.o.Remaining())
      ensures orders.Keys <= old(orders.Keys)
      ensures taker.o == old(taker.o).(filled := taker.o.filled)
    {
      hide Level.Valid, Walk, Crosses, LiveIn, Indexed, Lists, Owns;
      LevelsUntouched(lvl, bound);
      TakerApart(taker, bound);
      IndexSplit(lvl);
      OwnsOpen(lvl, bound);
      lvl.Facts();
      ghost var was, ns, ss, qs := orders, lvl.nodes, lvl.slots, lvl.queue;
      ghost var n;
      fills, n := Sweep(lvl, lvl.price, taker);
      OwnsLess(lvl, ns, ss, n, bound);
      forall l | l in levels && l != lvl
        ensures l.Valid() && Owns(l, bound) && LiveIn(l, bids, asks) && Indexed(orders, l)
      {
        IndexedAfterSweep(l, qs, n, was);
      }
      lvl.Facts();
      forall id | id in orders && orders[id].lvl == lvl
        ensures Lists(lvl, orders[id].n, id)
      {
        ListsAfterSweep(lvl, ns, qs, n, orders[id].n, id);
      }
    }

    lemma OwnsLess(lvl: Level, ns: seq<Node>, ss: seq<OrderSlot>, n: nat, bound: nat)
      requires lvl in Repr && n <= |ns| == |ss| && lvl.nodes == ns[n..] && lvl.slots == ss[n..]
      requires forall i :: 0 <= i < |ns| ==> ns[i] in Repr && ns[i].idx < pool.cursor
      requires forall i :: 0 <= i < |ss| ==> ss[i] in Repr && ss[i].idx < bound
      ensures Owns(lvl, bound)
    {
    }

    lemma IndexSplit(lvl: Level)
      requires IndexOk()
      ensures forall id :: id in orders && orders[id].lvl == lvl ==>
        exists i :: 0 <= i < |lvl.nodes| && i < |lvl.queue| && lvl.nodes[i] == orders[id].n && lvl.queue[i].id == id
      ensures forall id :: id in orders ==> orders[id].lvl in levels
      ensures forall id :: id in orders && orders[id].lvl != lvl ==> Lists(orders[id].lvl, orders[id].n, id)
    {
      assert forall id :: id in orders && orders[id].lvl == lvl ==> Lists(lvl, orders[id].n, id);
    }

    /** Sweep the level at the head of its side, keeping the heap invariant; the level may end up empty. */
    method SweepLevel(lvl: Level, taker: OrderSlot, ghost bound: nat) returns (fills: seq<Fill<nat>>)
      requires Shape(bound) && taker.idx == bound && lvl in levels
      requires TiersOn(lvl.side) != [] && TiersOn(lvl.side)[0].price == lvl.price
      requires Crosses(taker.o, lvl.price)
      modifies `orders, `bidTiers, `askTiers, lvl, lvl.nodes`prev, lvl.slots`o, taker`o
      ensures Shape(bound)
      ensures Walk(old(lvl.queue), old(taker.o), old(taker.o).Remaining()) ==
          Walked(fills, lvl.queue, taker.o.Remaining())
      ensures orders.Keys <= old(orders.Keys)
      ensures taker.o == old(taker.o).(filled := taker.o.filled)
      ensures TiersOn(lvl.side) == old(TiersOn(lvl.side))[0 := Tier(lvl.price, lvl.queue)]
      ensures TiersOn(lvl.side.Opposite()) == old(TiersOn(lvl.side.Opposite()))
    {
      hide Walk, Crosses, Pools, LevelsOk, IndexOk, Level.Valid, LadderOk, Priced, Clear, Owns, Indexed;
      LevelFacts(lvl, bound);
      LadderClear(levels, bids, bidTiers, Buy, bestBid, lvl);
      LadderClear(levels, asks, askTiers, Sell, bestAsk, lvl);
      fills := SweepIndexed(lvl, taker, bound);
      LevelFacts(lvl, bound);
      if lvl.side == Buy {
        LadderSwept(levels, bids, bidTiers, Buy, bestBid, lvl);
        bidTiers := bidTiers[0 := Tier(lvl.price, lvl.queue)];
        LadderFromClear(levels, asks, askTiers, Sell, bestAsk, lvl);
      } else {
        LadderSwept(levels, asks, askTiers, Sell, bestAsk, lvl);
        askTiers := askTiers[0 := Tier(lvl.price, lvl.queue)];
        LadderFromClear(levels, bids, bidTiers, Buy, bestBid, lvl);
      }
    }

    lemma LevelFacts(lvl: Level, bound: nat)
      requires LevelsOk(bound) && lvl in levels
      ensures lvl in Repr && Owns(lvl, bound) && lvl.Valid() && Live(lvl) && Indexed(orders, lvl)
    {
    }

    /** The best price among the keys, which may come in any order; 0 when there is none. A nonempty side's
        best price is found, and told from 0, exactly when it is positive for bids and not 0 for asks. */
    static method FindBest(levels: map<int, Level>, side: Side) returns (best: int)
      ensures levels.Keys == {} ==> best == 0
      ensures forall b :: IsBest(levels.Keys, side, b) ==> (best == b && best != 0 <==> Representable(side, b))
      ensures levels.Keys != {} && (forall p :: p in levels.Keys ==> p > 0) ==> IsBest(levels.Keys, side, best)
    {
      best := 0;
      var todo := levels.Keys;
      while todo != {}
        invariant todo <= levels.Keys && Seen(levels.Keys, levels.Keys - todo, side, best)
        decreases todo
      {
        SomePrice(todo);
        var price: int :| price in todo;
        SeeMore(levels.Keys, levels.Keys - todo, side, best, price);
        assert levels.Keys - (todo - {price}) == levels.Keys - todo + {price};
        todo := todo - {price};
        if side == Buy {
          if price > best {
            best := price;
          }
        } else {
          if best == 0 || price < best {
            best := price;
          }
        }
      }
      assert levels.Keys - todo == levels.Keys;
      SeenAll(levels.Keys, side, best);
    }

    lemma LadderRemoved(lv: set<Level>, m: map<int, Level>, tiers: seq<Tier>, side: Side, best: int, i: nat,
        newBest: int)
      requires LadderOk(lv, m, tiers, side, best) && i < |tiers|
      requires newBest == BestPrice(Drop(tiers, i))
      ensures LadderOk(lv - {m[tiers[i].price]}, m - {tiers[i].price}, Drop(tiers, i), side, newBest)
    {
      DropOk(tiers, i, side);
    }

    lemma LevelsAfterRemove(lvl: Level, bound: nat, lv: set<Level>, b: map<int, Level>, a: map<int, Level>)
      requires LevelsIn(lv, b, a, bound) && lvl in lv && levels == lv - {lvl}
      requires bids == if lvl.side == Buy then b - {lvl.price} else b
      requires asks == if lvl.side == Sell then a - {lvl.price} else a
      ensures LevelsOk(bound)
    {
      hide Owns, Level.Valid, Indexed;
    }

    /** Drop an empty level and, if it was the best, look for the next best. */
    method RemoveLevel(side: Side, price: int, ghost i: nat, ghost bound: nat)
      requires Shape(bound) && i < |TiersOn(side)|
      requires TiersOn(side)[i].price == price && TiersOn(side)[i].queue == []
      modifies `bids, `asks, `bestBid, `bestAsk, `bidTiers, `askTiers, `levels
      ensures Shape(bound)
      ensures TiersOn(side) == Drop(old(TiersOn(side)), i)
      ensures TiersOn(side.Opposite()) == old(TiersOn(side.Opposite()))
    {
      hide LevelsIn, IndexIn, Priced, Drop, Pools, LadderOk;
      ghost var lvl := EmptyLevel(side, i, bound);
      ghost var wasBids, wasAsks := bids, asks;
      ghost var wasBidTiers, wasAskTiers, wasBestBid, wasBestAsk, wasLevels := bidTiers, askTiers, bestBid, bestAsk,
          levels;
      levels := levels - {lvl};
      if side == Buy {
        bids := bids - {price};
        if price == bestBid {
          bestBid := FindBest(bids, Buy);
        }
        bidTiers := Drop(bidTiers, i);
        NextBest(wasBids, wasBidTiers, Buy, i, bids.Keys, wasBestBid, bestBid);
        LadderRemoved(wasLevels, wasBids, wasBidTiers, Buy, wasBestBid, i, bestBid);
        LadderSpared(wasLevels, asks, askTiers, Sell, bestAsk, lvl);
      } else {
        asks := asks - {price};
        if price == bestAsk {
          bestAsk := FindBest(asks, Sell);
        }
        askTiers := Drop(askTiers, i);
        NextBest(wasAsks, wasAskTiers, Sell, i, asks.Keys, wasBestAsk, bestAsk);
        LadderRemoved(wasLevels, wasAsks, wasAskTiers, Sell, wasBestAsk, i, bestAsk);
        LadderSpared(wasLevels, bids, bidTiers, Buy, bestBid, lvl);
      }
      LevelsAfterRemove(lvl, bound, wasLevels, wasBids, wasAsks);
    }

    lemma EmptyLevel(side: Side, i: nat, bound: nat) returns (lvl: Level)
      requires Shape(bound) && i < |TiersOn(side)| && TiersOn(side)[i].queue == []
      ensures TiersOn(side)[i].price in Side(side) && lvl == Side(side)[TiersOn(side)[i].price]
      ensures lvl in levels && lvl.side == side && lvl.price == TiersOn(side)[i].price && lvl.nodes == []
      ensures forall p :: p in Side(side) ==> p > 0
      ensures Priced(bids, bidTiers, Buy, bestBid) && Priced(asks, askTiers, Sell, bestAsk)
      ensures IndexIn(levels - {lvl})
    {
      hide LevelsOk, Pools;
      lvl := Side(side)[TiersOn(side)[i].price];
      LevelFacts(lvl, bound);
      lvl.Facts();
    }

    lemma LadderSpared(lv: set<Level>, m: map<int, Level>, tiers: seq<Tier>, side: Side, best: int, lvl: Level)
      requires LadderOk(lv, m, tiers, side, best) && lvl.side != side
      ensures LadderOk(lv - {lvl}, m, tiers, side, best)
    {
    }

    lemma NextBest(m: map<int, Level>, tiers: seq<Tier>, side: Side, i: nat, left: set<int>, best: int, newBest: int)
      requires i < |tiers| && Priced(m, tiers, side, best)
      requires left == m.Keys - {tiers[i].price}
      requires tiers[i].price != best ==> newBest == best
      requires tiers[i].price == best && left == {} ==> newBest == 0
      requires tiers[i].price == best && left != {} ==> IsBest(left, side, newBest)
      ensures newBest == BestPrice(Drop(tiers, i))
    {
      DropOk(tiers, i, side);
      if i == 0 {
        assert Drop(tiers, 0) != [] ==> Drop(tiers, 0)[0].price in left;
        BestIsFirst(Drop(tiers, 0), side, newBest);
      }
    }

    /** The cached best price of a side, 0 if the book takes the side to be empty. */
    function Marked(side: Side): int
      reads `bestBid, `bestAsk
    {
      if side == Buy then bestBid else bestAsk
    }

    /** The best level to trade with, as far as the cached prices tell. */
    method BestOpposite(side: Side, ghost bound: nat) returns (best: int, lvl: Level?)
      requires Shape(bound) || Marked(side.Opposite()) == 0 || Marked(side.Opposite()) in Side(side.Opposite())
      ensures best == Marked(side.Opposite())
      ensures if best == 0 then lvl == null else best in Side(side.Opposite()) && lvl == Side(side.Opposite())[best]
      ensures var tiers := TiersOn(side.Opposite());
        Shape(bound) ==>
        && (tiers == [] ==> lvl == null)
        && (tiers != [] ==>
            && lvl != null && lvl in levels && best == lvl.price == tiers[0].price
            && lvl.side == side.Opposite() && lvl.queue == tiers[0].queue)
    {
      hide LevelsOk, IndexOk, Pools;
      assert Shape(bound) ==> LadderOk(levels, bids, bidTiers, Buy, bestBid);
      assert Shape(bound) ==> LadderOk(levels, asks, askTiers, Sell, bestAsk);
      if side == Buy {
        if bestAsk == 0 {
          return 0, null;
        }
        return bestAsk, asks[bestAsk];
      }
      if bestBid == 0 {
        return 0, null;
      }
      return bestBid, bids[bestBid];
    }

    /** One turn of either matching loop: sweep the best level and drop it if nothing is left in it. */
    method MatchBest(lvl: Level, best: int, o: OrderSlot, ghost bound: nat) returns (fills: seq<Fill<nat>>)
      requires Shape(bound) && NoEmptyTier(bidTiers) && NoEmptyTier(askTiers)
      requires o.idx == bound && lvl in levels && best == lvl.price && lvl.side == o.o.side.Opposite()
      requires TiersOn(lvl.side) != [] && TiersOn(lvl.side)[0].price == best
      requires o.o.Remaining() > 0 && Crosses(o.o, best)
      modifies this, Repr, o`o
      ensures Shape(bound) && NoEmptyTier(bidTiers) && NoEmptyTier(askTiers)
      ensures Repr == old(Repr) && arena.cursor == old(arena.cursor)
      ensures orders.Keys <= old(orders.Keys)
      ensures o.o == old(o.o).(filled := o.o.filled)
      ensures var makers := old(Flatten(TiersOn(lvl.side)));
        var w, w' := Walk(makers, old(o.o), old(o.o.Remaining())),
            Walk(Flatten(TiersOn(lvl.side)), old(o.o), o.o.Remaining());
        w == Walked(fills + w'.fills, w'.makers, w'.rem)
      ensures TiersOn(lvl.side.Opposite()) == old(TiersOn(lvl.side.Opposite()))
      ensures |TiersOn(lvl.side)| <= old(|TiersOn(lvl.side)|)
      ensures |TiersOn(lvl.side)| == old(|TiersOn(lvl.side)|) ==> o.o.Remaining() <= 0
    {
      hide Pools, LevelsOk, IndexOk, LaddersOk, Walk, Crosses, Level.Valid, TiersOk, TierOk, Flatten, Swept;
      ghost var o0, tiers := o.o, TiersOn(lvl.side);
      HeadTier(lvl.side, bound);
      SweepIsWalkPrefix(tiers, o0, o0.Remaining());
      WalkQueue(tiers[0], o0, o0.Remaining());
      LevelHolds(lvl, bound);
      fills := SweepLevel(lvl, o, bound);
      LevelHolds(lvl, bound);
      SweptIs(tiers, o0, o0.Remaining(), lvl.queue);
      if lvl.Empty() {
        RemoveLevel(o.o.side.Opposite(), best, 0, bound);
      }
    }

    lemma HeadTier(side: Side, bound: nat)
      requires Shape(bound) && TiersOn(side) != []
      ensures TierOk(TiersOn(side)[0])
    {
      hide LevelsOk, IndexOk, Pools;
    }

    lemma LevelHolds(lvl: Level, bound: nat)
      requires Shape(bound) && lvl in levels
      ensures Owns(lvl, bound) && (lvl.Empty() <==> lvl.queue == [])
      ensures TiersOn(lvl.side) != [] && lvl.price == TiersOn(lvl.side)[0].price ==>
          lvl.queue == TiersOn(lvl.side)[0].queue
    {
      hide IndexOk, Pools;
      LevelFacts(lvl, bound);
      lvl.Facts();
    }

    lemma SweptIs(tiers: seq<Tier>, o: Order<nat>, rem: int, left: seq<Entry<nat>>)
      requires tiers != [] && NoEmptyTier(tiers) && left == Walk(tiers[0].queue, o, rem).makers
      ensures Swept(tiers, o, rem) == if left == [] then Drop(tiers, 0) else tiers[0 := Tier(tiers[0].price, left)]
      ensures left == [] ==> Drop(tiers[0 := Tier(tiers[0].price, left)], 0) == Drop(tiers, 0)
      ensures NoEmptyTier(Swept(tiers, o, rem))
    {
      hide Walk;
      assert Drop(tiers, 0) == tiers[1..];
    }

    ghost predicate Matching(o: OrderSlot, bound: nat)
      reads this, Repr
    {
      Shape(bound) && NoEmptyTier(bidTiers) && NoEmptyTier(askTiers) && o.idx == bound
    }

    /** The walk looks at who the taker is and how much is left, not at what it filled before. */
    lemma {:induction false} WalkIgnoresFilled(makers: seq<Entry<nat>>, a: Order<nat>, b: Order<nat>, rem: int)
      requires a == b.(filled := a.filled)
      ensures Walk(makers, a, rem) == Walk(makers, b, rem)
      decreases |makers|
    {
      if makers != [] && rem > 0 && Crosses(a, makers[0].price) {
        WalkIgnoresFilled(makers[1..], a, b, rem - Min(makers[0].rem, rem));
      }
    }

    /** Nothing left to do: the taker is full, the side is empty, or its best price does not cross. */
    lemma WalkEnds(opp: Side, o: OrderSlot, o0: Order<nat>, bound: nat)
      requires Matching(o, bound)
      requires o.o.Remaining() <= 0 || TiersOn(opp) == [] || !Crosses(o0, TiersOn(opp)[0].price)
      ensures Walk(Flatten(TiersOn(opp)), o0, o.o.Remaining()) == Walked([], Flatten(TiersOn(opp)), o.o.Remaining())
    {
      hide Shape;
      var tiers := TiersOn(opp);
      if tiers != [] {
        FlattenHead(tiers);
        assert tiers[0].queue[0].price == tiers[0].price by {
          HeadTier(opp, bound);
        }
      }
    }

    /** A market order trades with whatever the other side has. */
    method MatchMarket(o: OrderSlot, ghost bound: nat) returns (fills: seq<Fill<nat>>)
      requires Matching(o, bound) && o.o.typ == Market
      modifies this, Repr, o`o
      ensures Matching(o, bound) && Repr == old(Repr) && arena.cursor == old(arena.cursor)
      ensures orders.Keys <= old(orders.Keys)
      ensures o.o == old(o.o).(filled := o.o.filled)
      ensures var opp := o.o.side.Opposite();
        && TiersOn(o.o.side) == old(TiersOn(o.o.side))
        && Walk(old(Flatten(TiersOn(opp))), old(o.o), old(o.o.Remaining())) ==
            Walked(fills, Flatten(TiersOn(opp)), o.o.Remaining())
    {
      hide Shape, NoEmptyTier, Walk, Flatten;
      ghost var opp, o0 := o.o.side.Opposite(), o.o;
      ghost var makers := Flatten(TiersOn(opp));
      fills := [];
      assert [] + Walk(makers, o0, o0.Remaining()).fills == Walk(makers, o0, o0.Remaining()).fills;
      while o.o.Remaining() > 0
        invariant Matching(o, bound) && Repr == old(Repr) && arena.cursor == old(arena.cursor)
        invariant orders.Keys <= old(orders.Keys)
        invariant o.o == o0.(filled := o.o.filled) && TiersOn(opp.Opposite()) == old(TiersOn(opp.Opposite()))
        invariant var w := Walk(Flatten(TiersOn(opp)), o0, o.o.Remaining());
          Walk(makers, o0, o0.Remaining()) == Walked(fills + w.fills, w.makers, w.rem)
        decreases |TiersOn(opp)|, o.o.Remaining()
      {
        var best, lvl := BestOpposite(o.o.side, bound);
        if lvl == null {
          break;
        }
        ghost var now := o.o;
        WalkIgnoresFilled(Flatten(TiersOn(opp)), now, o0, o.o.Remaining());
        var fs := MatchBest(lvl, best, o, bound);
        WalkIgnoresFilled(Flatten(TiersOn(opp)), now, o0, o.o.Remaining());
        ghost var w := Walk(Flatten(TiersOn(opp)), o0, o.o.Remaining());
        assert fills + (fs + w.fills) == fills + fs + w.fills;
        fills := fills + fs;
      }
      WalkEnds(opp, o, o0, bound);
      assert fills + [] == fills;
    }

    /** A limit order trades while the best price of the other side is within its limit. */
    method MatchLimit(o: OrderSlot, ghost bound: nat) returns (fills: seq<Fill<nat>>)
      requires Matching(o, bound) && o.o.typ == Limit
      modifies this, Repr, o`o
      ensures Matching(o, bound) && Repr == old(Repr) && arena.cursor == old(arena.cursor)
      ensures orders.Keys <= old(orders.Keys)
      ensures o.o == old(o.o).(filled := o.o.filled)
      ensures var opp := o.o.side.Opposite();
        && TiersOn(o.o.side) == old(TiersOn(o.o.side))
        && Walk(old(Flatten(TiersOn(opp))), old(o.o), old(o.o.Remaining())) ==
            Walked(fills, Flatten(TiersOn(opp)), o.o.Remaining())
    {
      hide Shape, NoEmptyTier, Walk, Flatten;
      ghost var opp, o0 := o.o.side.Opposite(), o.o;
      ghost var makers := Flatten(TiersOn(opp));
      fills := [];
      assert [] + Walk(makers, o0, o0.Remaining()).fills == Walk(makers, o0, o0.Remaining()).fills;
      while o.o.Remaining() > 0
        invariant Matching(o, bound) && Repr == old(Repr) && arena.cursor == old(arena.cursor)
        invariant orders.Keys <= old(orders.Keys)
        invariant o.o == o0.(filled := o.o.filled) && TiersOn(opp.Opposite()) == old(TiersOn(opp.Opposite()))
        invariant var w := Walk(Flatten(TiersOn(opp)), o0, o.o.Remaining());
          Walk(makers, o0, o0.Remaining()) == Walked(fills + w.fills, w.makers, w.rem)
        decreases |TiersOn(opp)|, o.o.Remaining()
      {
        var best, lvl := BestOpposite(o.o.side, bound);
        if lvl == null {
          break;
        }
        if !PricesCross(o.o.side, o.o.price, best) {
          break;
        }
        ghost var now := o.o;
        WalkIgnoresFilled(Flatten(TiersOn(opp)), now, o0, o.o.Remaining());
        var fs := MatchBest(lvl, best, o, bound);
        WalkIgnoresFilled(Flatten(TiersOn(opp)), now, o0, o.o.Remaining());
        ghost var w := Walk(Flatten(TiersOn(opp)), o0, o.o.Remaining());
        assert fills + (fs + w.fills) == fills + fs + w.fills;
        fills := fills + fs;
      }
      WalkEnds(opp, o, o0, bound);
      assert fills + [] == fills;
    }

    static predicate PricesCross(takerSide: Side, takerPrice: int, makerPrice: int) {
      if takerSide == Buy then takerPrice >= makerPrice else takerPrice <= makerPrice
    }

    // ----- resting

    /** Put the order in node `n`, append it to `lvl` and index it. */
    method Wire(lvl: Level, n: Node, o: OrderSlot)
      requires lvl.Valid() && Indexed(orders, lvl) && n !in lvl.nodes && o !in lvl.slots && o.o.id !in orders
      requires o.o.side == lvl.side && o.o.price == lvl.price && o.o.Remaining() > 0
      modifies `orders, n, lvl, lvl.nodes
      ensures lvl.Valid() && Indexed(orders, lvl)
      ensures orders == old(orders)[o.o.id := NodeRef(n, lvl)]
      ensures lvl.nodes == old(lvl.nodes) + [n] && lvl.slots == old(lvl.slots) + [o]
      ensures lvl.queue == old(lvl.queue) + [EntryOf(o.o)]
    {
      hide Level.Valid;
      ghost var was, ns, qs := orders, lvl.nodes, lvl.queue;
      n.order := o;
      n.prev := null;
      n.next := null;
      lvl.Push(n);
      orders := orders[o.o.id := NodeRef(n, lvl)];
      IndexedPushed(lvl, ns, qs, was, n, EntryOf(o.o));
    }

    /** Take a node for the order and list it in `lvl`. */
    method Enlist(lvl: Level, o: OrderSlot, ghost bound: nat)
      requires LevelsOk(bound) && IndexOk() && Pools(bound) && lvl in levels
      requires o in Repr && o.idx == bound < arena.cursor && o.o.id !in orders
      requires o.o.side == lvl.side && o.o.price == lvl.price && o.o.Remaining() > 0
      modifies `orders, pool, pool.slab, lvl, lvl.nodes
      ensures LevelsOk(bound + 1) && IndexOk() && Pools(bound + 1)
      ensures lvl.queue == old(lvl.queue) + [EntryOf(o.o)]
    {
      hide Level.Valid, LiveIn, Lists, Indexed, IndexIn;
      LevelsUntouched(lvl, bound);
      IndexSplit(lvl);
      lvl.Facts();
      ghost var was, ns, qs := orders, lvl.nodes, lvl.queue;
      var n := pool.Alloc();
      Wire(lvl, n, o);
      forall l | l in levels && l != lvl
        ensures l.Valid() && Owns(l, bound + 1) && LiveIn(l, bids, asks) && Indexed(orders, l)
      {
        IndexedMore(l, was, o.o.id, NodeRef(n, lvl));
      }
      IndexWired(lvl, ns, qs, was, n, EntryOf(o.o));
    }

    lemma IndexWired(lvl: Level, ns: seq<Node>, qs: seq<Entry<nat>>, was: map<nat, NodeRef>, n: Node, e: Entry<nat>)
      requires lvl in levels && |ns| == |qs| && lvl.nodes == ns + [n] && lvl.queue == qs + [e]
      requires orders == was[e.id := NodeRef(n, lvl)]
      requires forall id :: id in was ==> was[id].lvl in levels
      requires forall id :: id in was && was[id].lvl != lvl ==> Lists(was[id].lvl, was[id].n, id)
      requires forall id :: id in was && was[id].lvl == lvl ==>
        exists i :: 0 <= i < |ns| && i < |qs| && ns[i] == was[id].n && qs[i].id == id
      ensures IndexOk()
    {
      forall id | id in orders
        ensures orders[id].lvl in levels && Lists(orders[id].lvl, orders[id].n, id)
      {
        if id == e.id || was[id].lvl == lvl {
          ListsPushed(lvl, ns, qs, n, e, orders[id].n, id);
        }
      }
    }

    lemma IndexedOpen(l: Level)
      requires Indexed(orders, l)
      ensures |l.nodes| == |l.queue|
      ensures forall i :: 0 <= i < |l.queue| ==>
          l.queue[i].id in orders && orders[l.queue[i].id] == NodeRef(l.nodes[i], l)
    {
    }

    lemma IndexedMore(l: Level, was: map<nat, NodeRef>, id: nat, r: NodeRef)
      requires Indexed(was, l) && id !in was && orders == was[id := r]
      ensures Indexed(orders, l)
    {
    }

    lemma IndexedPushed(lvl: Level, ns: seq<Node>, qs: seq<Entry<nat>>, was: map<nat, NodeRef>, n: Node, e: Entry<nat>)
      requires |ns| == |qs| && lvl.nodes == ns + [n] && lvl.queue == qs + [e]
      requires forall i :: 0 <= i < |qs| ==> qs[i].id in was && was[qs[i].id] == NodeRef(ns[i], lvl)
      requires e.id !in was && orders == was[e.id := NodeRef(n, lvl)]
      ensures Indexed(orders, lvl)
    {
    }

    lemma ListsPushed(lvl: Level, ns: seq<Node>, qs: seq<Entry<nat>>, n: Node, e: Entry<nat>, r: Node, id: nat)
      requires |ns| == |qs| && lvl.nodes == ns + [n] && lvl.queue == qs + [e]
      requires (r == n && id == e.id) || exists i :: 0 <= i < |ns| && i < |qs| && ns[i] == r && qs[i].id == id
      ensures Lists(lvl, r, id)
    {
      if r == n && id == e.id {
        assert lvl.nodes[|ns|] == n && lvl.queue[|ns|].id == id;
      } else {
        var i :| 0 <= i < |ns| && ns[i] == r && qs[i].id == id;
        assert lvl.nodes[i] == r && lvl.queue[i].id == id;
      }
    }

    /** Every tier but the one at `price` is mirrored by a level other than `lvl`. */
    ghost predicate ClearBut(lv: set<Level>, m: map<int, Level>, tiers: seq<Tier>, side: Side, price: int, lvl: Level)
      reads lv - {lvl}
    {
      forall i :: 0 <= i < |tiers| && tiers[i].price != price ==>
        tiers[i].price in m && m[tiers[i].price] in lv - {lvl} && Mirrors(m[tiers[i].price], tiers[i], side)
    }

    lemma LadderKnown(lv: set<Level>, m: map<int, Level>, tiers: seq<Tier>, side: Side, best: int, price: int)
      requires LadderOk(lv, m, tiers, side, best) && price in m
      ensures m[price] in lv && m[price].side == side && m[price].price == price
      ensures m[price].queue == QueueAt(tiers, price)
      ensures ClearBut(lv, m, tiers, side, price, m[price])
    {
      var i :| 0 <= i < |tiers| && tiers[i].price == price;
      QueueAtIs(tiers, side, i);
    }

    lemma LadderNew(lv: set<Level>, m: map<int, Level>, tiers: seq<Tier>, side: Side, best: int, price: int, lvl: Level)
      requires LadderOk(lv, m, tiers, side, best) && price !in m && lvl !in lv
      ensures QueueAt(tiers, price) == []
      ensures ClearBut(lv + {lvl}, m[price := lvl], tiers, side, price, lvl)
    {
      QueueAtNone(tiers, price);
    }

    lemma LadderOther(lv: set<Level>, m: map<int, Level>, tiers: seq<Tier>, side: Side, best: int, lvl: Level)
      requires LadderOk(lv, m, tiers, side, best) && lvl.side != side
      ensures Clear(lv + {lvl}, m, tiers, side, 0, lvl) && Priced(m, tiers, side, best)
    {
    }

    lemma LevelsPlus(lv: set<Level>, b: map<int, Level>, a: map<int, Level>, lvl: Level, bound: nat)
      requires LevelsIn(lv, b, a, bound) && lvl in Repr && lvl.Valid() && lvl.nodes == [] && lvl.queue == []
          && lvl.slots == []
      requires if lvl.side == Buy then lvl.price !in b else lvl.price !in a
      ensures LevelsIn(lv + {lvl}, if lvl.side == Buy then b[lvl.price := lvl] else b,
                if lvl.side == Buy then a else a[lvl.price := lvl], bound)
    {
      hide Level.Valid;
    }

    ghost method GrowRepr(lvl: Level, bound: nat)
      requires LevelsOk(bound) && Pools(bound) && this !in Repr
      modifies `Repr
      ensures LevelsOk(bound) && Pools(bound) && Repr == old(Repr) + {lvl} && this !in Repr
    {
      Repr := Repr + {lvl};
    }

    method NewLevel(side: Side, price: int, ghost bound: nat) returns (lvl: Level)
      requires Shape(bound) && price !in Side(side)
      modifies `bids, `asks, `levels, `Repr
      ensures this !in Repr && arena in Repr && pool in Repr && Pools(bound) && LevelsOk(bound) && IndexOk()
      ensures old(Repr) <= Repr && fresh(Repr - old(Repr))
      ensures lvl in levels && lvl.side == side && lvl.price == price && lvl.queue == QueueAt(TiersOn(side), price)
      ensures bids == (if side == Buy then old(bids)[price := lvl] else old(bids))
      ensures asks == (if side == Sell then old(asks)[price := lvl] else old(asks))
      ensures Priced(old(bids), bidTiers, Buy, bestBid) && Priced(old(asks), askTiers, Sell, bestAsk)
      ensures ClearBut(levels, Side(side), TiersOn(side), side, price, lvl)
      ensures Clear(levels, Side(side.Opposite()), TiersOn(side.Opposite()), side.Opposite(), 0, lvl)
    {
      hide LevelsIn, IndexIn, LadderOk, Priced, Clear, ClearBut, Pools, Level.Valid;
      ghost var b, a, lv := bids, asks, levels;
      LadderPriced(lv, bids, bidTiers, Buy, bestBid);
      LadderPriced(lv, asks, askTiers, Sell, bestAsk);
      lvl := new Level(price, side);
      GrowRepr(lvl, bound);
      LevelsPlus(lv, b, a, lvl, bound);
      IndexPlus(lv, lvl);
      levels := lv + {lvl};
      if side == Buy {
        LadderNew(lv, b, bidTiers, Buy, bestBid, price, lvl);
        LadderOther(lv, a, askTiers, Sell, bestAsk, lvl);
        bids := bids[price := lvl];
      } else {
        LadderNew(lv, a, askTiers, Sell, bestAsk, price, lvl);
        LadderOther(lv, b, bidTiers, Buy, bestBid, lvl);
        asks := asks[price := lvl];
      }
    }

    lemma IndexPlus(lv: set<Level>, lvl: Level)
      requires IndexIn(lv)
      ensures IndexIn(lv + {lvl})
    {
    }

    lemma LadderPriced(lv: set<Level>, m: map<int, Level>, tiers: seq<Tier>, side: Side, best: int)
      requires LadderOk(lv, m, tiers, side, best)
      ensures Priced(m, tiers, side, best)
    {
    }

    /** The level an order at this price belongs to, made if there is none yet. */
    method LevelAt(side: Side, price: int, ghost bound: nat) returns (lvl: Level)
      requires Shape(bound)
      modifies `bids, `asks, `levels, `Repr
      ensures this !in Repr && arena in Repr && pool in Repr && Pools(bound) && LevelsOk(bound) && IndexOk()
      ensures old(Repr) <= Repr && fresh(Repr - old(Repr))
      ensures lvl in levels && lvl.side == side && lvl.price == price && lvl.queue == QueueAt(TiersOn(side), price)
      ensures bids == (if side == Buy then old(bids)[price := lvl] else old(bids))
      ensures asks == (if side == Sell then old(asks)[price := lvl] else old(asks))
      ensures Priced(old(bids), bidTiers, Buy, bestBid) && Priced(old(asks), askTiers, Sell, bestAsk)
      ensures ClearBut(levels, Side(side), TiersOn(side), side, price, lvl)
      ensures Clear(levels, Side(side.Opposite()), TiersOn(side.Opposite()), side.Opposite(), 0, lvl)
    {
      hide LevelsIn, IndexIn, LadderOk, Priced, Clear, ClearBut, Pools, Level.Valid;
      if price in Side(side) {
        lvl := Side(side)[price];
        LadderPriced(levels, bids, bidTiers, Buy, bestBid);
        LadderPriced(levels, asks, askTiers, Sell, bestAsk);
        if side == Buy {
          LadderKnown(levels, bids, bidTiers, Buy, bestBid, price);
          LadderClear(levels, asks, askTiers, Sell, bestAsk, lvl);
          assert bids == bids[price := lvl];
        } else {
          LadderKnown(levels, asks, askTiers, Sell, bestAsk, price);
          LadderClear(levels, bids, bidTiers, Buy, bestBid, lvl);
          assert asks == asks[price := lvl];
        }
      } else {
        lvl := NewLevel(side, price, bound);
      }
    }

    lemma LadderRested(lv: set<Level>, m: map<int, Level>, tiers: seq<Tier>, side: Side, best: int, lvl: Level,
        e: Entry<nat>, newBest: int)
      requires Priced(m, tiers, side, best) && lvl in lv && lvl.side == side
      requires e.price == lvl.price > 0 && e.rem > 0
      requires ClearBut(lv, m[e.price := lvl], tiers, side, e.price, lvl)
      requires lvl.queue == QueueAt(tiers, e.price) + [e]
      requires newBest == if side == Buy then (if e.price > best then e.price else best)
                          else (if best == 0 || e.price < best then e.price else best)
      ensures LadderOk(lv, m[e.price := lvl], RestIn(tiers, e, side), side, newBest)
    {
      hide TiersOk, RestIn;
      var m', r := m[e.price := lvl], RestIn(tiers, e, side);
      RestOk(tiers, e, side);
      RestPrices(tiers, e, side);
      BestPositive(tiers, side);
      forall i | 0 <= i < |r|
        ensures r[i].price in m' && m'[r[i].price] in lv && Mirrors(m'[r[i].price], r[i], side)
      {
        RestTouches(tiers, e, side, r[i]);
      }
    }

    lemma BestPositive(tiers: seq<Tier>, side: Side)
      requires TiersOk(tiers, side)
      ensures tiers != [] ==> tiers[0].price > 0
    {
      assert tiers != [] ==> TierOk(tiers[0]);
    }

    method UpdateBest(side: Side, price: int)
      modifies `bestBid, `bestAsk
      ensures bestBid == if side == Buy && price > old(bestBid) then price else old(bestBid)
      ensures bestAsk == if side == Sell && (old(bestAsk) == 0 || price < old(bestAsk)) then price else old(bestAsk)
    {
      if side == Buy {
        if price > bestBid {
          bestBid := price;
        }
      } else {
        if bestAsk == 0 || price < bestAsk {
          bestAsk := price;
        }
      }
    }

    lemma SlabOwned(bound: nat)
      requires Pools(bound)
      ensures forall n :: n in pool.slab ==> n in Repr
    {
    }

    /** The level has its new order: bring the cached best price up to date. */
    method UpdateLadder(lvl: Level, side: Side, price: int, ghost e: Entry<nat>, ghost b: map<int, Level>,
        ghost a: map<int, Level>, ghost bound: nat)
      requires this !in Repr && arena in Repr && pool in Repr && Pools(bound) && LevelsOk(bound) && IndexOk()
      requires lvl in levels && lvl.side == side && e.price == price == lvl.price > 0 && e.rem > 0
      requires bids == (if side == Buy then b[price := lvl] else b) && Priced(b, bidTiers, Buy, bestBid)
      requires asks == (if side == Sell then a[price := lvl] else a) && Priced(a, askTiers, Sell, bestAsk)
      requires lvl.queue == QueueAt(TiersOn(side), price) + [e]
      requires ClearBut(levels, Side(side), TiersOn(side), side, price, lvl)
      requires Clear(levels, Side(side.Opposite()), TiersOn(side.Opposite()), side.Opposite(), 0, lvl)
      modifies `bestBid, `bestAsk, `bidTiers, `askTiers
      ensures Shape(bound)
      ensures TiersOn(side) == RestIn(old(TiersOn(side)), e, side)
      ensures TiersOn(side.Opposite()) == old(TiersOn(side.Opposite()))
    {
      hide LevelsOk, IndexOk, LadderOk, Priced, Clear, ClearBut, RestIn, QueueAt, Pools;
      ghost var wasBid, wasAsk := bestBid, bestAsk;
      UpdateBest(side, price);
      if side == Buy {
        LadderRested(levels, b, bidTiers, Buy, wasBid, lvl, e, bestBid);
        LadderFromClear(levels, asks, askTiers, Sell, bestAsk, lvl);
        bidTiers := RestIn(bidTiers, e, Buy);
      } else {
        LadderRested(levels, a, askTiers, Sell, wasAsk, lvl, e, bestAsk);
        LadderFromClear(levels, bids, bidTiers, Buy, bestBid, lvl);
        askTiers := RestIn(askTiers, e, Sell);
      }
    }

    /** The unfilled remainder joins the back of the queue at its price. */
    method Rest(o: OrderSlot, ghost bound: nat)
      requires Matching(o, bound) && o in Repr && bound < arena.cursor
      requires o.o.id !in orders && o.o.price > 0 && o.o.Remaining() > 0
      modifies this, Repr
      ensures Shape(bound + 1) && old(Repr) <= Repr && fresh(Repr - old(Repr))
      ensures o.o == old(o.o) && arena.cursor == old(arena.cursor)
      ensures TiersOn(o.o.side) == RestIn(old(TiersOn(o.o.side)), EntryOf(o.o), o.o.side)
      ensures TiersOn(o.o.side.Opposite()) == old(TiersOn(o.o.side.Opposite()))
    {
      hide Shape, LevelsOk, IndexOk, LadderOk, Priced, Clear, ClearBut, RestIn, QueueAt, Pools, Level.Valid, Indexed,
          Live, NoEmptyTier;
      ghost var b, a, e := bids, asks, EntryOf(o.o);
      var lvl := LevelAt(o.o.side, o.o.price, bound);
      LevelFacts(lvl, bound);
      SlabOwned(bound);
      Enlist(lvl, o, bound);
      UpdateLadder(lvl, o.o.side, o.o.price, e, b, a, bound + 1);
    }

    /** An order of any price joins the level of its price in an empty book. */
    method FirstEntry(o: Order<nat>)
      requires Valid() && IsEmpty() && arena.cursor < |arena.slab| && o.Remaining() > 0
      modifies this, Repr
      ensures Side(o.side).Keys == {o.price} && Side(o.side)[o.price].queue == [EntryOf(o)]
      ensures bestBid == 0 == bestAsk
    {
      hide Shape, Pools, LevelsOk, IndexOk, ClearBut, Clear, Priced, Level.Valid, Indexed, Live;
      ghost var bound := arena.cursor;
      ValidParts();
      var stored := Store(o, bound);
      var lvl := LevelAt(o.side, o.price, bound);
      LevelFacts(lvl, bound);
      SlabOwned(bound);
      Enlist(lvl, stored, bound);
    }

    /** The first order of a book has nothing to match and rests, whatever its price. Whoever comes from the
        other side then finds its level exactly if the price is one the cached field can hold. */
    method FirstOrder(o: Order<nat>) returns (lvl: Level?)
      requires Valid() && IsEmpty() && arena.cursor < |arena.slab| && o.Remaining() > 0
      modifies this, Repr
      ensures Side(o.side).Keys == {o.price} && Side(o.side)[o.price].queue == [EntryOf(o)]
      ensures lvl != null <==> Representable(o.side, o.price)
      ensures lvl != null ==> lvl == Side(o.side)[o.price]
    {
      hide Shape, Valid, IsEmpty;
      FirstEntry(o);
      UpdateBest(o.side, o.price);
      var best;
      best, lvl := BestOpposite(o.side.Opposite(), arena.cursor);
    }

    // ----- the commands

    lemma ListedTier(lvl: Level, bound: nat) returns (i: nat)
      requires Shape(bound) && lvl in levels
      ensures i < |TiersOn(lvl.side)| && TiersOn(lvl.side)[i].price == lvl.price
          && TiersOn(lvl.side)[i].queue == lvl.queue
    {
      hide IndexOk, Pools, TiersOk;
      LevelFacts(lvl, bound);
      hide LevelsOk, Level.Valid, Owns, Indexed;
      assert lvl.price in Prices(TiersOn(lvl.side));
      i :| 0 <= i < |TiersOn(lvl.side)| && TiersOn(lvl.side)[i].price == lvl.price;
    }

    /** The index holds exactly the resting orders. */
    lemma IndexExact(id: nat)
      requires Valid()
      ensures id in orders <==> Contents().Rests(id)
    {
      hide Pools, TiersOk, Ok, Flatten, Level.Valid, Owns, Live;
      if id in orders {
        var lvl := orders[id].lvl;
        var i := ListedTier(lvl, arena.cursor);
        var k :| 0 <= k < |lvl.nodes| && k < |lvl.queue| && lvl.queue[k].id == id;
        FlattenHas(TiersOn(lvl.side), i, k);
      }
      if HasId(Flatten(bidTiers), id) {
        var i, k := FlattenFind(bidTiers, id);
        assert Indexed(orders, bids[bidTiers[i].price]);
      }
      if HasId(Flatten(askTiers), id) {
        var i, k := FlattenFind(askTiers, id);
        assert Indexed(orders, asks[askTiers[i].price]);
      }
    }

    lemma ShapeGrows(bound: nat)
      requires Shape(bound) && bound < arena.cursor
      ensures Shape(bound + 1)
    {
      hide Level.Valid, Indexed, IndexOk, LaddersOk;
    }

    /** Claim an arena slot and copy the order in. */
    method Store(o: Order<nat>, ghost bound: nat) returns (stored: OrderSlot)
      requires Shape(bound) && bound == arena.cursor < |arena.slab|
      modifies arena, arena.slab
      ensures Shape(bound) && arena.cursor == bound + 1
      ensures stored in Repr && stored.idx == bound && stored.o == o
    {
      hide Level.Valid, Indexed, LiveIn, LaddersOk, IndexOk;
      stored := arena.Alloc();
      stored.o := o;
    }

    lemma ValidParts()
      requires Valid()
      ensures ReadyToTake() && Ok(Contents()) && arena in Repr && pool in Repr && this !in Repr
      ensures forall s :: s in arena.slab ==> s in Repr
    {
      hide LevelsOk, IndexOk, LaddersOk, Ok;
    }

    ghost predicate ReadyToTake()
      reads this, Repr, arena
    {
      Shape(arena.cursor) && NoEmptyTier(bidTiers) && NoEmptyTier(askTiers)
    }

    /** What the matched taker leaves behind, as the view `AddOrder` computes. */
    lemma MatchedView(v: View<nat>, o: Order<nat>, fills: seq<Fill<nat>>, rem: int)
      requires o.typ != Unknown
      requires var opp := o.side.Opposite();
        && Flatten(TiersOn(o.side)) == v.On(o.side)
        && Walk(v.On(opp), o, o.Remaining()) == Walked(fills, Flatten(TiersOn(opp)), rem)
      ensures o.typ == Market || rem <= 0 ==> AddOrder(v, o) == Added(Contents(), fills, false)
      ensures o.typ == Limit && rem > 0 ==>
        AddOrder(v, o) == Added(Contents().With(o.side,
            Insert(Flatten(TiersOn(o.side)), Entry(o.id, o.price, rem), o.side)), fills, true)
    {
      hide Walk, Insert, Flatten;
    }

    lemma RestedView(o: OrderSlot, bound: nat)
      requires Matching(o, bound)
      ensures var r := RestIn(TiersOn(o.o.side), EntryOf(o.o), o.o.side);
        Flatten(r) == Insert(Flatten(TiersOn(o.o.side)), EntryOf(o.o), o.o.side) && NoEmptyTier(r)
    {
      hide LevelsOk, IndexOk, Pools, TiersOk, NoEmptyTier, RestIn, Insert;
      RestIsInsert(TiersOn(o.o.side), EntryOf(o.o), o.o.side);
      RestNoEmpty(TiersOn(o.o.side), EntryOf(o.o), o.o.side);
    }

    lemma UnknownView(v: View<nat>, o: Order<nat>)
      requires o.typ == Unknown
      ensures AddOrder(v, o) == Added(v, [], false)
    {
    }

    method Add(o: Order<nat>) returns (fills: seq<Fill<nat>>, rests: bool)
      requires Valid() && arena.cursor < |arena.slab|
      requires o.id !in orders && (o.typ == Limit ==> o.price > 0)
      modifies this, Repr
      ensures Valid() && old(Repr) <= Repr && fresh(Repr - old(Repr))
      ensures arena.cursor == old(arena.cursor) + 1
      ensures Added(Contents(), fills, rests) == AddOrder(old(Contents()), o)
    {
      hide Shape, Ok, NoEmptyTier, AddOrder, Walk, Insert, Flatten, RestIn;
      ghost var bound, v := arena.cursor, Contents();
      ValidParts();
      IndexExact(o.id);
      AddKeepsOk(v, o);
      var stored := Store(o, bound);
      match o.typ {
        case Market =>
          fills := MatchMarket(stored, bound);
          MatchedView(v, o, fills, stored.o.Remaining());
          ShapeGrows(bound);
          return fills, false;
        case Limit =>
          fills := MatchLimit(stored, bound);
          MatchedView(v, o, fills, stored.o.Remaining());
          if stored.o.Remaining() > 0 {
            RestedView(stored, bound);
            Rest(stored, bound);
            return fills, true;
          }
          ShapeGrows(bound);
          return fills, false;
        case Unknown =>
          UnknownView(v, o);
          ShapeGrows(bound);
          return [], false;
      }
    }

    lemma IndexedCut(lvl: Level, ns: seq<Node>, qs: seq<Entry<nat>>, k: nat, was: map<nat, NodeRef>)
      requires k < |ns| == |qs| && lvl.nodes == Without(ns, k) && lvl.queue == Without(qs, k) && DistinctIds(qs)
      requires forall i :: 0 <= i < |qs| ==> qs[i].id in was && was[qs[i].id] == NodeRef(ns[i], lvl)
      requires orders == was - {qs[k].id}
      ensures Indexed(orders, lvl)
    {
      WithoutAt(ns, k);
      WithoutAt(qs, k);
      hide Without;
    }

    lemma IndexCut(lvl: Level, ns: seq<Node>, qs: seq<Entry<nat>>, k: nat, was: map<nat, NodeRef>)
      requires lvl in levels && k < |ns| == |qs| && lvl.nodes == Without(ns, k) && lvl.queue == Without(qs, k)
      requires orders == was - {qs[k].id}
      requires forall id :: id in was ==> was[id].lvl in levels
      requires forall id :: id in was && was[id].lvl != lvl ==> Lists(was[id].lvl, was[id].n, id)
      requires forall id :: id in was && was[id].lvl == lvl ==>
        exists i :: 0 <= i < |ns| && i < |qs| && ns[i] == was[id].n && qs[i].id == id
      ensures IndexOk()
    {
      WithoutAt(ns, k);
      WithoutAt(qs, k);
      hide Without;
      forall id | id in orders && was[id].lvl == lvl
        ensures Lists(lvl, orders[id].n, id)
      {
        var i :| 0 <= i < |ns| && i < |qs| && ns[i] == was[id].n && qs[i].id == id;
        var j := if i < k then i else i - 1;
        assert i != k && lvl.nodes[j] == ns[i] && lvl.queue[j] == qs[i];
      }
    }

    /** Unlink a node and forget its id. */
    method Delist(lvl: Level, n: Node, id: nat, ghost k: nat, ghost bound: nat)
      requires LevelsOk(bound) && IndexOk() && lvl in levels
      requires k < |lvl.nodes| && lvl.nodes[k] == n && k < |lvl.queue| && lvl.queue[k].id == id
      modifies `orders, lvl, lvl.nodes`prev, lvl.nodes`next
      ensures LevelsOk(bound) && IndexOk()
      ensures lvl.queue == Without(old(lvl.queue), k) && orders.Keys <= old(orders.Keys)
    {
      hide Level.Valid, LiveIn, Lists, Indexed, IndexIn, Without, Owns, DistinctIds;
      LevelsUntouched(lvl, bound);
      IndexSplit(lvl);
      IndexedOpen(lvl);
      IndexedApart(lvl);
      OwnsOpen(lvl, bound);
      lvl.Facts();
      ghost var was, ns, ss, qs := orders, lvl.nodes, lvl.slots, lvl.queue;
      lvl.Remove(n, k);
      orders := orders - {id};
      IndexedCut(lvl, ns, qs, k, was);
      OwnsCut(lvl, ns, ss, k, bound);
      forall l | l in levels && l != lvl
        ensures l.Valid() && Owns(l, bound) && LiveIn(l, bids, asks) && Indexed(orders, l)
      {
        IndexedLess(l, was, id);
      }
      IndexCut(lvl, ns, qs, k, was);
    }

    lemma OwnsOpen(l: Level, bound: nat)
      requires Owns(l, bound)
      ensures l in Repr
      ensures forall i :: 0 <= i < |l.nodes| ==> l.nodes[i] in Repr && l.nodes[i].idx < pool.cursor
      ensures forall i :: 0 <= i < |l.slots| ==> l.slots[i] in Repr && l.slots[i].idx < bound
    {
    }

    lemma OwnsCut(lvl: Level, ns: seq<Node>, ss: seq<OrderSlot>, k: nat, bound: nat)
      requires lvl in Repr && k < |ns| == |ss| && lvl.nodes == Without(ns, k) && lvl.slots == Without(ss, k)
      requires forall i :: 0 <= i < |ns| ==> ns[i] in Repr && ns[i].idx < pool.cursor
      requires forall i :: 0 <= i < |ss| ==> ss[i] in Repr && ss[i].idx < bound
      ensures Owns(lvl, bound)
    {
      WithoutAt(ns, k);
      WithoutAt(ss, k);
      hide Without;
    }

    lemma IndexedLess(l: Level, was: map<nat, NodeRef>, id: nat)
      requires Indexed(was, l) && orders == was - {id}
      requires forall i :: 0 <= i < |l.queue| ==> l.queue[i].id != id
      ensures Indexed(orders, l)
    {
    }

    lemma LadderCut(lv: set<Level>, m: map<int, Level>, tiers: seq<Tier>, side: Side, best: int, lvl: Level, i: nat)
      requires i < |tiers| && Priced(m, tiers, side, best)
      requires lvl.Valid() && lvl in lv && lvl.side == side && lvl.price == tiers[i].price
      requires tiers[i].price in m && m[tiers[i].price] == lvl
      requires ClearBut(lv, m, tiers, side, lvl.price, lvl)
      ensures LadderOk(lv, m, tiers[i := Tier(lvl.price, lvl.queue)], side, best)
    {
      hide Level.Valid;
      lvl.Facts();
      PricesKept(tiers, i, lvl.queue);
    }

    /** What a change inside level `lvl` leaves of the ladders. */
    ghost predicate Parted(lvl: Level)
      reads this, levels - {lvl}
    {
      var opp := lvl.side.Opposite();
      && Priced(bids, bidTiers, Buy, bestBid) && Priced(asks, askTiers, Sell, bestAsk)
      && ClearBut(levels, Side(lvl.side), TiersOn(lvl.side), lvl.side, lvl.price, lvl)
      && Clear(levels, Side(opp), TiersOn(opp), opp, 0, lvl)
    }

    lemma LaddersParted(lvl: Level, bound: nat)
      requires Shape(bound) && lvl in levels
      ensures Parted(lvl)
    {
      hide Pools, LevelsOk, IndexOk, Level.Valid, LadderOk, Priced, Clear, ClearBut, Owns, Indexed;
      LevelFacts(lvl, bound);
      LadderClear(levels, bids, bidTiers, Buy, bestBid, lvl);
      LadderClear(levels, asks, askTiers, Sell, bestAsk, lvl);
      if lvl.side == Buy {
        LadderKnown(levels, bids, bidTiers, Buy, bestBid, lvl.price);
      } else {
        LadderKnown(levels, asks, askTiers, Sell, bestAsk, lvl.price);
      }
    }

    /** The level has lost an order: bring its tier up to date. */
    ghost method CutLadder(lvl: Level, i: nat, bound: nat)
      requires this !in Repr && arena in Repr && pool in Repr && Pools(bound) && LevelsOk(bound) && IndexOk()
      requires lvl in levels && Parted(lvl)
      requires i < |TiersOn(lvl.side)| && TiersOn(lvl.side)[i].price == lvl.price
      modifies `bidTiers, `askTiers
      ensures Shape(bound)
      ensures TiersOn(lvl.side) == old(TiersOn(lvl.side))[i := Tier(lvl.price, lvl.queue)]
      ensures TiersOn(lvl.side.Opposite()) == old(TiersOn(lvl.side.Opposite()))
    {
      hide Pools, LevelsOk, IndexOk, Level.Valid, LadderOk, Priced, Clear, ClearBut, Owns, Indexed;
      LevelFacts(lvl, bound);
      if lvl.side == Buy {
        LadderCut(levels, bids, bidTiers, Buy, bestBid, lvl, i);
        LadderFromClear(levels, asks, askTiers, Sell, bestAsk, lvl);
        bidTiers := bidTiers[i := Tier(lvl.price, lvl.queue)];
      } else {
        LadderCut(levels, asks, askTiers, Sell, bestAsk, lvl, i);
        LadderFromClear(levels, bids, bidTiers, Buy, bestBid, lvl);
        askTiers := askTiers[i := Tier(lvl.price, lvl.queue)];
      }
    }

    /** Delist an order, keeping the heap invariant; its level may end up empty. */
    method Unrest(lvl: Level, n: Node, id: nat, ghost i: nat, ghost k: nat, ghost bound: nat)
      requires Shape(bound) && lvl in levels && i < |TiersOn(lvl.side)| && TiersOn(lvl.side)[i].price == lvl.price
      requires k < |lvl.nodes| && lvl.nodes[k] == n && k < |lvl.queue| && lvl.queue[k].id == id
      modifies `orders, `bidTiers, `askTiers, lvl, lvl.nodes`prev, lvl.nodes`next
      ensures Shape(bound)
      ensures TiersOn(lvl.side) == old(TiersOn(lvl.side))[i := Tier(lvl.price, Without(old(lvl.queue), k))]
      ensures TiersOn(lvl.side.Opposite()) == old(TiersOn(lvl.side.Opposite()))
      ensures lvl in levels && lvl.queue == Without(old(lvl.queue), k)
    {
      hide Pools, LevelsOk, IndexOk, LaddersOk, Level.Valid, Owns, Indexed, Without, Priced, Clear, ClearBut;
      LevelFacts(lvl, bound);
      LaddersParted(lvl, bound);
      Delist(lvl, n, id, k, bound);
      CutLadder(lvl, i, bound);
    }

    /** Which side the order rests on decides which list of the view loses it. */
    lemma CancelView(v: View<nat>, side: Side, id: nat)
      requires Ok(v) && HasId(v.On(side), id)
      ensures CancelOrder(v, id) == (v.With(side, RemoveId(v.On(side), id)), true)
    {
      ApartByIds(v.bids, v.asks);
      assert HasId(v.bids, id) <==> side == Buy;
    }

    lemma OkDistinct(v: View<nat>)
      requires Ok(v)
      ensures DistinctIds(v.bids) && DistinctIds(v.asks)
    {
    }

    lemma CancelMissing(v: View<nat>, id: nat)
      requires !v.Rests(id)
      ensures CancelOrder(v, id) == (v, false)
    {
      assert !HasId(v.bids, id) && !HasId(v.asks, id);
    }

    /** Where the index says an order stands: tier `i` of its side, place `k` of its level. */
    lemma Find(id: nat, bound: nat) returns (i: nat, k: nat)
      requires Shape(bound) && id in orders
      ensures var r := orders[id];
        && r.lvl in levels && Owns(r.lvl, bound)
        && i < |TiersOn(r.lvl.side)| && TiersOn(r.lvl.side)[i] == Tier(r.lvl.price, r.lvl.queue)
        && k < |r.lvl.nodes| && r.lvl.nodes[k] == r.n && k < |r.lvl.queue| && r.lvl.queue[k].id == id
        && r.n.order != null && r.n.order.o.side == r.lvl.side
        && HasId(Flatten(TiersOn(r.lvl.side)), id)
    {
      var r := orders[id];
      i := ListedTier(r.lvl, bound);
      k :| 0 <= k < |r.lvl.nodes| && k < |r.lvl.queue| && r.lvl.nodes[k] == r.n && r.lvl.queue[k].id == id;
      hide IndexOk, LaddersOk, Pools, Flatten;
      LevelFacts(r.lvl, bound);
      hide LevelsOk;
      assert r.lvl.Carries(r.lvl.nodes[k], r.lvl.slots[k], r.lvl.queue[k]);
      FlattenHas(TiersOn(r.lvl.side), i, k);
    }

    lemma CutCases(tiers: seq<Tier>, i: nat, k: nat)
      requires i < |tiers| && k < |tiers[i].queue| && NoEmptyTier(tiers)
      ensures NoEmptyTier(Cut(tiers, i, k))
      ensures var left := Without(tiers[i].queue, k);
        var kept := tiers[i := Tier(tiers[i].price, left)];
        Cut(tiers, i, k) == if left == [] then Drop(kept, i) else kept
    {
      var left := Without(tiers[i].queue, k);
      assert Drop(tiers[i := Tier(tiers[i].price, left)], i) == Drop(tiers, i);
    }

    method Cancel(orderID: nat) returns (r: CancelResult)
      requires Valid()
      modifies this, Repr
      ensures Valid() && Repr == old(Repr) && arena.cursor == old(arena.cursor)
      ensures (Contents(), r == CancelOK) == CancelOrder(old(Contents()), orderID)
    {
      hide Shape, Ok, NoEmptyTier, CancelOrder, Flatten, Cut, Drop, Without, Owns, Level.Valid;
      ghost var bound, v := arena.cursor, Contents();
      ValidParts();
      IndexExact(orderID);
      CancelKeepsOk(v, orderID);
      OkDistinct(v);
      if orderID !in orders {
        CancelMissing(v, orderID);
        return CancelNotFound;
      }
      var ref := orders[orderID];
      ghost var i, k := Find(orderID, bound);
      ghost var side, tiers := ref.lvl.side, TiersOn(ref.lvl.side);
      CutIsRemove(tiers, i, k);
      CutCases(tiers, i, k);
      CancelView(v, side, orderID);
      OwnsOpen(ref.lvl, bound);
      Unrest(ref.lvl, ref.n, orderID, i, k, bound);
      LevelHolds(ref.lvl, bound);
      if ref.lvl.Empty() {
        RemoveLevel(ref.n.order.o.side, ref.lvl.price, i, bound);
      }
      return CancelOK;
    }

    // ----- what the book shows

    /** The cached best prices are the true ones, 0 standing for an empty side, and the book is
        neither locked nor crossed. */
    lemma BestPricesTrue()
      requires Valid()
      ensures var v := Contents();
        && bestBid == (if v.bids == [] then 0 else v.bids[0].price) && (v.bids != [] ==> bestBid > 0)
        && bestAsk == (if v.asks == [] then 0 else v.asks[0].price) && (v.asks != [] ==> bestAsk > 0)
      ensures bestBid != 0 && bestAsk != 0 ==> bestBid < bestAsk
    {
      hide LevelsOk, IndexOk, Pools;
      HeadPrice(bidTiers, Buy);
      HeadPrice(askTiers, Sell);
    }

    lemma HeadPrice(tiers: seq<Tier>, side: Side)
      requires TiersOk(tiers, side) && NoEmptyTier(tiers)
      ensures Flatten(tiers) == [] <==> tiers == []
      ensures tiers != [] ==> Flatten(tiers)[0].price == tiers[0].price > 0
    {
      if tiers != [] {
        FlattenHead(tiers);
        assert TierOk(tiers[0]);
        assert tiers[0].queue[0].price == tiers[0].price;
      }
    }

    /** The keys of the map, in whatever order they come. */
    static method PriceList(levels: map<int, Level>) returns (prices: array<int>)
      ensures fresh(prices) && multiset(prices[..]) == multiset(levels.Keys)
    {
      hide Listed;
      prices := new int[|levels|];
      var todo, filled := levels.Keys, 0;
      NoneListed(levels.Keys);
      assert prices[..0] == [];
      while todo != {}
        invariant 0 <= filled <= prices.Length == |levels.Keys| && Listed(prices[..filled], levels.Keys, todo)
        decreases todo
      {
        SomePrice(todo);
        var p: int :| p in todo;
        ListMore(prices[..filled], levels.Keys, todo, p);
        ghost var so := prices[..filled];
        prices[filled] := p;
        assert prices[..filled + 1] == so + [p];
        todo, filled := todo - {p}, filled + 1;
      }
      AllListed(prices[..filled], levels.Keys);
      assert prices[..filled] == prices[..];
    }

    static method CollectDepth(levels: map<int, Level>, n: nat, side: Side, ghost tiers: seq<Tier>)
      returns (result: seq<(int, int)>)
      requires TiersOk(tiers, side) && NoEmptyTier(tiers) && levels.Keys == Prices(tiers)
      requires forall i :: 0 <= i < |tiers| ==>
          tiers[i].price in levels && levels[tiers[i].price].total == Total(tiers[i].queue)
      ensures result == Take(LevelsOf(Flatten(tiers)), n)
    {
      hide TiersOk, Prices, Flatten, NoEmptyTier, LevelsOf, Ordered, Total;
      var prices := PriceList(levels);
      SortPrices(prices, side);
      SortedPricesAreTiers(prices[..], tiers, side);
      LevelsAreTiers(tiers, side);
      result := [];
      var i := 0;
      while i < prices.Length && i < n
        invariant 0 <= i <= prices.Length == |tiers| && i <= n
        invariant forall k :: 0 <= k < |tiers| ==> prices[..][k] == tiers[k].price
        invariant result == Totals(tiers)[..i]
      {
        var p := prices[..][i];
        result := result + [(p, levels[p].total)];
        i := i + 1;
      }
      assert Totals(tiers)[..|tiers|] == Totals(tiers);
    }

    method Depth(n: nat) returns (b: seq<(int, int)>, a: seq<(int, int)>)
      requires Valid()
      ensures b == Take(LevelsOf(Contents().bids), n) && a == Take(LevelsOf(Contents().asks), n)
      ensures BestLevels(Contents().bids, Buy, n, b) && BestLevels(Contents().asks, Sell, n, a)
      ensures forall i, j :: 0 <= i < j < |b| ==> b[i].0 > b[j].0
      ensures forall i, j :: 0 <= i < j < |a| ==> a[i].0 < a[j].0
    {
      TierTotals();
      SidesSorted();
      hide Shape, Valid, BestLevels, LevelsOf, Take;
      b := CollectDepth(bids, n, Buy, bidTiers);
      a := CollectDepth(asks, n, Sell, askTiers);
      TakeIsBest(Contents().bids, Buy, n);
      TakeIsBest(Contents().asks, Sell, n);
      InOrder(Contents().bids, Buy, n, b);
      InOrder(Contents().asks, Sell, n, a);
    }

    lemma SidesSorted()
      requires Valid()
      ensures Sorted(Contents().bids, Buy) && Sorted(Contents().asks, Sell)
    {
      hide Shape;
    }

    static lemma InOrder(s: seq<Entry<nat>>, side: Side, n: nat, shown: seq<(int, int)>)
      requires BestLevels(s, side, n, shown)
      ensures forall i, j :: 0 <= i < j < |shown| ==>
        if side == Buy then shown[i].0 > shown[j].0 else shown[i].0 < shown[j].0
    {
    }

    lemma TierTotals()
      requires Valid()
      ensures TiersOk(bidTiers, Buy) && bids.Keys == Prices(bidTiers)
      ensures TiersOk(askTiers, Sell) && asks.Keys == Prices(askTiers)
      ensures forall i :: 0 <= i < |bidTiers| ==>
          bidTiers[i].price in bids && bids[bidTiers[i].price].total == Total(bidTiers[i].queue)
      ensures forall i :: 0 <= i < |askTiers| ==>
          askTiers[i].price in asks && asks[askTiers[i].price].total == Total(askTiers[i].queue)
    {
      hide IndexOk, Pools, Owns, TiersOk;
      assert forall l :: l in levels ==> l.total == Total(l.queue);
    }
  }
}
