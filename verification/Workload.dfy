/** The tick generator with its random draws as an oracle. */
module Workload {
  import opened Sequences
  import opened Wire
  import opened Price
  import opened Protocol
  import opened Validation
  import opened EndToEnd

  const TICK_SIZE := 100
  const MID_FLOOR := 1_000_000
  const SPREAD_TICKS := 10
  const QTY_MIN := 1
  const QTY_MAX := 100

  type Int64Value = x: int | MIN_INT64 <= x <= MAX_INT64 witness 0

  /** One iteration's random draws: the price walk's next value, whether the cancel draw falls under the
      blended fraction, and the draws for a cancel or a new order. */
  datatype Draw = Draw(walk: Int64Value, cancel: bool, pick: nat, buy: bool, limit: bool, offset: nat, qty: nat)

  function Quantize(price: int): (q: int)
    ensures q >= TICK_SIZE && q % TICK_SIZE == 0
    ensures price >= TICK_SIZE ==> q <= price < q + TICK_SIZE
    ensures price < TICK_SIZE ==> q == TICK_SIZE
  {
    var q := TruncDiv(price, TICK_SIZE) * TICK_SIZE;
    if q < TICK_SIZE then TICK_SIZE else q
  }

  function Floored(walk: int): int {
    if walk < MID_FLOOR then MID_FLOOR else walk
  }

  function OrderName(counter: nat): string {
    "o" + FormatInt(counter)
  }

  /** The new order a draw makes; int64 arithmetic on the price may wrap. */
  function NewOrder(d: Draw, counter: nat): Tick {
    var offset := d.offset % (SPREAD_TICKS * 2 + 1) - SPREAD_TICKS;
    var price := if d.limit then Quantize(Wrap64(Floored(d.walk) + offset * TICK_SIZE)) else 0;
    Tick(TickAdd, OrderName(counter), if d.buy then 'B' else 'S', if d.limit then 'L' else 'M', price,
         QTY_MIN + d.qty % (QTY_MAX - QTY_MIN + 1))
  }

  function CancelTick(id: string): Tick {
    Tick(TickCancel, id, '\0', '\0', 0, 0)
  }

  /** The last element takes the removed one's place. */
  function SwapRemove(pool: seq<string>, idx: nat): seq<string>
    requires idx < |pool|
  {
    pool[idx := pool[|pool| - 1]][..|pool| - 1]
  }

  datatype Generated = Generated(ticks: seq<Tick>, pool: seq<string>, counter: nat)

  function Produce(g: Generated, d: Draw): Generated {
    if d.cancel && g.pool != [] then
      var idx := d.pick % |g.pool|;
      Generated(g.ticks + [CancelTick(g.pool[idx])], SwapRemove(g.pool, idx), g.counter)
    else
      var t := NewOrder(d, g.counter + 1);
      Generated(g.ticks + [t], g.pool + [t.orderID], g.counter + 1)
  }

  function Draws(draws: seq<Draw>): Generated {
    if draws == [] then Generated([], [], 0)
    else Produce(Draws(draws[..|draws| - 1]), draws[|draws| - 1])
  }

  lemma DrawsNext(draws: seq<Draw>, i: nat)
    requires i < |draws|
    ensures Draws(draws[..i + 1]) == Produce(Draws(draws[..i]), draws[i])
  {
    assert draws[..i + 1][..i] == draws[..i];
  }

  /** The new order, field by field as the loop computes it. */
  lemma NewOrderIs(d: Draw, counter: nat, price: int)
    requires price ==
      if d.limit then
        Quantize(Wrap64(Floored(d.walk) + (d.offset % (SPREAD_TICKS * 2 + 1) - SPREAD_TICKS) * TICK_SIZE))
      else 0
    ensures NewOrder(d, counter) ==
      Tick(TickAdd, OrderName(counter), if d.buy then 'B' else 'S', if d.limit then 'L' else 'M', price,
           QTY_MIN + d.qty % (QTY_MAX - QTY_MIN + 1))
  {
  }

  method Generate(draws: seq<Draw>) returns (ticks: seq<Tick>)
    ensures ticks == Draws(draws).ticks && AllDrawn(draws, ticks)
  {
    hide Quantize, FormatInt, OrderName, Wrap64, Floored, Draws, NewOrder, AllDrawn;
    ticks := [];
    var resting: seq<string> := [];
    var counter := 0;
    assert Draws(draws[..0]) == Generated([], [], 0) by { NothingDrawn(draws[..0]); }
    for i := 0 to |draws|
      invariant Draws(draws[..i]) == Generated(ticks, resting, counter)
    {
      DrawsNext(draws, i);
      var d := draws[i];
      var midPrice: int := d.walk;
      if midPrice < MID_FLOOR {
        midPrice := MID_FLOOR;
      }
      FlooredIs(d.walk);
      if d.cancel && |resting| > 0 {
        var idx := d.pick % |resting|;
        var id := resting[idx];
        resting := resting[idx := resting[|resting| - 1]];
        resting := resting[..|resting| - 1];
        ticks := ticks + [CancelTick(id)];
      } else {
        var side := if d.buy then 'B' else 'S';
        var ordType, price := 'M', 0;
        if d.limit {
          ordType := 'L';
          var offset := d.offset % (SPREAD_TICKS * 2 + 1) - SPREAD_TICKS;
          price := Quantize(Wrap64(midPrice + offset * TICK_SIZE));
        }
        counter := counter + 1;
        NewOrderIs(d, counter, price);
        var id := OrderName(counter);
        resting := resting + [id];
        ticks := ticks + [Tick(TickAdd, id, side, ordType, price, QTY_MIN + d.qty % (QTY_MAX - QTY_MIN + 1))];
      }
    }
    assert draws[..|draws|] == draws;
    EveryTickDrawn(draws);
  }

  lemma NothingDrawn(draws: seq<Draw>)
    requires draws == []
    ensures Draws(draws) == Generated([], [], 0)
  {
  }

  lemma FlooredIs(walk: int)
    ensures Floored(walk) == if walk < MID_FLOOR then MID_FLOOR else walk
  {
  }

  // ----- names

  lemma NamesDiffer(a: nat, b: nat)
    ensures OrderName(a) == OrderName(b) ==> a == b
    ensures Word(OrderName(a))
  {
    FormatNatIs(a);
    FormatNatIs(b);
    IntIsWord(a);
    assert OrderName(a)[1..] == FormatInt(a) && OrderName(b)[1..] == FormatInt(b);
    hide FormatNat, Value;
    var w := FormatInt(a);
    assert forall i :: 1 <= i < |OrderName(a)| ==> OrderName(a)[i] == w[i - 1];
  }

  // ----- the pool

  /** Ids added and not cancelled since. */
  function Live(ticks: seq<Tick>): set<string> {
    if ticks == [] then {}
    else
      var past, t := Live(ticks[..|ticks| - 1]), ticks[|ticks| - 1];
      if t.typ == TickAdd then past + {t.orderID} else past - {t.orderID}
  }

  function Ids(pool: seq<string>): set<string> {
    set i | 0 <= i < |pool| :: pool[i]
  }

  lemma SwapRemoves(pool: seq<string>, idx: nat)
    requires Distinct(pool) && idx < |pool|
    ensures Distinct(SwapRemove(pool, idx)) && Ids(SwapRemove(pool, idx)) == Ids(pool) - {pool[idx]}
  {
    var p := SwapRemove(pool, idx);
    forall id | id in Ids(pool) && id != pool[idx]
      ensures id in Ids(p)
    {
      var i :| 0 <= i < |pool| && pool[i] == id;
      assert p[if i == |pool| - 1 then idx else i] == id;
    }
  }

  /** What the generator has produced so far. */
  ghost predicate Tidy(g: Generated) {
    && Distinct(g.pool) && Ids(g.pool) == Live(g.ticks)
    && (forall i :: 0 <= i < |g.ticks| && g.ticks[i].typ == TickAdd ==>
          exists c: nat :: 0 < c <= g.counter && g.ticks[i].orderID == OrderName(c))
    && (forall id :: id in Live(g.ticks) ==> Added(g.ticks, id))
  }

  ghost predicate Added(ticks: seq<Tick>, id: string) {
    exists i :: 0 <= i < |ticks| && ticks[i].typ == TickAdd && ticks[i].orderID == id
  }

  /** A tick as the platform's users may rely on: a new order with a new id, a price on the grid and a
      quantity in range, or the cancel of an order added before and not cancelled since. */
  ghost predicate FairTick(past: seq<Tick>, t: Tick) {
    || (&& t.typ == TickAdd && !Added(past, t.orderID) && Word(t.orderID)
        && QTY_MIN <= t.qty <= QTY_MAX && (t.side == 'B' || t.side == 'S')
        && (|| (t.ordType == 'L' && TICK_SIZE <= t.price <= MAX_INT64 && t.price % TICK_SIZE == 0)
            || (t.ordType == 'M' && t.price == 0)))
    || (t.typ == TickCancel && t.orderID in Live(past) && Word(t.orderID))
  }

  ghost predicate Fair(ticks: seq<Tick>) {
    forall i :: 0 <= i < |ticks| ==> FairTick(ticks[..i], ticks[i])
  }

  lemma NewOrderFair(g: Generated, d: Draw)
    requires Tidy(g)
    ensures FairTick(g.ticks, NewOrder(d, g.counter + 1))
  {
    var t := NewOrder(d, g.counter + 1);
    NamesDiffer(g.counter + 1, g.counter + 1);
    hide FormatInt, OrderName, Word, Quantize, Distinct, Live;
    forall i | 0 <= i < |g.ticks| && g.ticks[i].typ == TickAdd
      ensures g.ticks[i].orderID != t.orderID
    {
      var c: nat :| 0 < c <= g.counter && g.ticks[i].orderID == OrderName(c);
      NamesDiffer(c, g.counter + 1);
    }
  }

  lemma CancelFair(g: Generated, idx: nat)
    requires Tidy(g) && idx < |g.pool|
    ensures FairTick(g.ticks, CancelTick(g.pool[idx]))
  {
    hide FormatInt, OrderName, Word, Distinct, Live;
    var id := g.pool[idx];
    assert id in Ids(g.pool);
    var i :| 0 <= i < |g.ticks| && g.ticks[i].typ == TickAdd && g.ticks[i].orderID == id;
    var c: nat :| 0 < c <= g.counter && g.ticks[i].orderID == OrderName(c);
    NamesDiffer(c, c);
  }

  lemma LiveSnoc(ticks: seq<Tick>, t: Tick)
    ensures Live(ticks + [t]) == if t.typ == TickAdd then Live(ticks) + {t.orderID} else Live(ticks) - {t.orderID}
  {
    assert (ticks + [t])[..|ticks|] == ticks;
  }

  lemma AddedSnoc(ticks: seq<Tick>, t: Tick, id: string)
    ensures Added(ticks + [t], id) <==> Added(ticks, id) || (t.typ == TickAdd && t.orderID == id)
  {
    var more := ticks + [t];
    assert more[|ticks|] == t;
    if Added(ticks, id) {
      var i :| 0 <= i < |ticks| && ticks[i].typ == TickAdd && ticks[i].orderID == id;
      assert more[i].orderID == id;
    }
  }

  lemma NewOrderTidy(g: Generated, t: Tick)
    requires Tidy(g) && t.typ == TickAdd && t.orderID == OrderName(g.counter + 1) && !Added(g.ticks, t.orderID)
    ensures Tidy(Generated(g.ticks + [t], g.pool + [t.orderID], g.counter + 1))
  {
    hide FormatInt, OrderName, Live;
    var h := Generated(g.ticks + [t], g.pool + [t.orderID], g.counter + 1);
    LiveSnoc(g.ticks, t);
    assert t.orderID !in Ids(g.pool);
    assert forall i :: 0 <= i < |g.pool| ==> h.pool[i] == g.pool[i] && g.pool[i] in Ids(g.pool);
    assert h.pool[|g.pool|] == t.orderID;
    assert Ids(h.pool) == Ids(g.pool) + {t.orderID};
    assert forall i :: 0 <= i < |g.ticks| ==> h.ticks[i] == g.ticks[i];
    forall id | id in Live(h.ticks)
      ensures Added(h.ticks, id)
    {
      AddedSnoc(g.ticks, t, id);
    }
  }

  lemma CancelTidy(g: Generated, idx: nat)
    requires Tidy(g) && idx < |g.pool|
    ensures Tidy(Generated(g.ticks + [CancelTick(g.pool[idx])], SwapRemove(g.pool, idx), g.counter))
  {
    hide FormatInt, OrderName, Live;
    var t := CancelTick(g.pool[idx]);
    SwapRemoves(g.pool, idx);
    LiveSnoc(g.ticks, t);
    forall id | id in Live(g.ticks + [t])
      ensures Added(g.ticks + [t], id)
    {
      AddedSnoc(g.ticks, t, id);
    }
    assert forall i :: 0 <= i < |g.ticks| ==> (g.ticks + [t])[i] == g.ticks[i];
  }

  lemma FairSnoc(ticks: seq<Tick>, t: Tick)
    requires Fair(ticks) && FairTick(ticks, t)
    ensures Fair(ticks + [t])
  {
    hide FairTick;
    var more := ticks + [t];
    assert more[..|ticks|] == ticks;
    assert forall i :: 0 <= i < |ticks| ==> more[..i] == ticks[..i] && more[i] == ticks[i];
  }

  /** For every sequence of draws: the pool has no duplicates and holds exactly the ids added and not
      cancelled, and every tick is fair. */
  lemma {:induction false} GeneratorIsFair(draws: seq<Draw>)
    ensures Tidy(Draws(draws)) && Fair(Draws(draws).ticks) && |Draws(draws).ticks| == |draws|
  {
    if draws != [] {
      var g, d := Draws(draws[..|draws| - 1]), draws[|draws| - 1];
      GeneratorIsFair(draws[..|draws| - 1]);
      hide Tidy, Fair, FairTick, NewOrder, SwapRemove;
      if d.cancel && g.pool != [] {
        var idx := d.pick % |g.pool|;
        CancelFair(g, idx);
        CancelTidy(g, idx);
        FairSnoc(g.ticks, CancelTick(g.pool[idx]));
      } else {
        var t := NewOrder(d, g.counter + 1);
        NewOrderFair(g, d);
        NewOrderNamed(g, d);
        NewOrderTidy(g, t);
        FairSnoc(g.ticks, t);
      }
    }
  }

  lemma NewOrderNamed(g: Generated, d: Draw)
    requires FairTick(g.ticks, NewOrder(d, g.counter + 1))
    ensures var t := NewOrder(d, g.counter + 1);
      t.typ == TickAdd && t.orderID == OrderName(g.counter + 1) && !Added(g.ticks, t.orderID)
  {
  }

  // ----- which tick each draw makes, without the functions that make it

  lemma {:induction false} CounterIsAdds(draws: seq<Draw>)
    ensures Draws(draws).counter == Adds(Draws(draws).ticks)
  {
    hide Quantize, OrderName, Wrap64, Floored, SwapRemove, Adds;
    if draws == [] {
      NothingDrawn(draws);
      NothingAdded();
    } else {
      var g, d := Draws(draws[..|draws| - 1]), draws[|draws| - 1];
      CounterIsAdds(draws[..|draws| - 1]);
      var t := Draws(draws).ticks[|g.ticks|];
      AddsConcat(g.ticks, [t]);
      AddsOne(t);
    }
  }

  lemma NothingAdded()
    ensures Adds([]) == 0
  {
  }

  lemma AddsOne(t: Tick)
    ensures Adds([t]) == if t.typ == TickAdd then 1 else 0
  {
    assert [t][1..] == [];
  }

  lemma {:induction false} TicksGrow(draws: seq<Draw>, i: nat)
    requires i <= |draws|
    ensures |Draws(draws).ticks| == |draws| && Draws(draws[..i]).ticks == Draws(draws).ticks[..i]
    decreases |draws| - i
  {
    GeneratorIsFair(draws);
    hide Draws, Produce, Tidy, Fair;
    if i == |draws| {
      assert draws[..i] == draws;
    } else {
      TicksGrow(draws, i + 1);
      GeneratorIsFair(draws[..i]);
      GeneratorIsFair(draws[..i + 1]);
      DrawsNext(draws, i);
      ProduceGrows(Draws(draws[..i]), draws[i]);
    }
  }

  lemma ProduceGrows(g: Generated, d: Draw)
    ensures |Produce(g, d).ticks| == |g.ticks| + 1 && Produce(g, d).ticks[..|g.ticks|] == g.ticks
  {
    hide NewOrder, SwapRemove;
  }

  /** The price of a new limit order: the walk, not below 1_000_000, down to a multiple of 100 and moved by up to
      ten times 100 either way; 100 if that leaves 64 bits. */
  lemma LimitPrice(d: Draw)
    ensures var base, e := if d.walk < 1_000_000 then 1_000_000 else d.walk, (d.offset % 21 - 10) * 100;
      && -1_000 <= e <= 1_000
      && Quantize(Wrap64(Floored(d.walk) + (d.offset % (SPREAD_TICKS * 2 + 1) - SPREAD_TICKS) * TICK_SIZE)) ==
          if base + e <= MAX_INT64 then base - base % 100 + e else 100
  {
    var base, e := Floored(d.walk), (d.offset % 21 - 10) * 100;
    var price := Wrap64(base + e);
    if base + e <= MAX_INT64 {
      assert price == base + e;
      GridMoves(base, d.offset % 21 - 10);
    } else {
      assert price < 0;
    }
  }

  lemma GridMoves(base: int, k: int)
    requires base >= 1_000_000 && -10 <= k <= 10
    ensures Quantize(base + k * 100) == base - base % 100 + k * 100
  {
    var q := Quantize(base + k * 100);
    assert (base - base % 100) % 100 == 0;
    assert (base - base % 100 + k * 100) % 100 == 0;
    assert q % 100 == 0 && q <= base + k * 100 < q + 100;
    SameMultiple(q, base - base % 100 + k * 100, base + k * 100);
  }

  lemma SameMultiple(a: int, b: int, n: int)
    requires a % 100 == 0 && b % 100 == 0 && a <= n < a + 100 && b <= n < b + 100
    ensures a == b
  {
  }

  /** The tick a draw makes after `past`. It cancels a live order if the cancel draw says so and there is one;
      otherwise it is the next new order, with the drawn side, kind, price and quantity. */
  ghost predicate Drawn(past: seq<Tick>, d: Draw, t: Tick) {
    && (t.typ == TickCancel <==> d.cancel && Live(past) != {})
    && (t.typ == TickCancel ==> t.orderID in Live(past) && t == Tick(TickCancel, t.orderID, '\0', '\0', 0, 0))
    && (t.typ != TickCancel ==>
          var base, e := if d.walk < 1_000_000 then 1_000_000 else d.walk, (d.offset % 21 - 10) * 100;
          t == Tick(TickAdd, "o" + FormatInt(Adds(past) + 1), if d.buy then 'B' else 'S', if d.limit then 'L' else 'M',
                    if !d.limit then 0 else if base + e <= MAX_INT64 then base - base % 100 + e else 100,
                    1 + d.qty % 100))
  }

  lemma NewOrderDrawn(d: Draw, counter: nat)
    ensures var base, e := if d.walk < 1_000_000 then 1_000_000 else d.walk, (d.offset % 21 - 10) * 100;
      NewOrder(d, counter) ==
        Tick(TickAdd, "o" + FormatInt(counter), if d.buy then 'B' else 'S', if d.limit then 'L' else 'M',
             if !d.limit then 0 else if base + e <= MAX_INT64 then base - base % 100 + e else 100, 1 + d.qty % 100)
  {
    LimitPrice(d);
    hide Quantize, FormatInt, Floored, Wrap64;
  }

  lemma CancelDrawn(past: seq<Tick>, d: Draw, id: string)
    requires d.cancel && id in Live(past)
    ensures Drawn(past, d, CancelTick(id))
  {
    hide Live, Adds, FormatInt;
  }

  lemma OrderDrawn(past: seq<Tick>, d: Draw)
    requires !d.cancel || Live(past) == {}
    ensures Drawn(past, d, NewOrder(d, Adds(past) + 1))
  {
    NewOrderDrawn(d, Adds(past) + 1);
    hide Live, Adds, FormatInt, NewOrder;
  }

  lemma ProduceDrawn(g: Generated, d: Draw)
    requires Tidy(g) && g.counter == Adds(g.ticks)
    ensures |Produce(g, d).ticks| == |g.ticks| + 1 && Drawn(g.ticks, d, Produce(g, d).ticks[|g.ticks|])
  {
    PoolIsLive(g);
    hide Tidy, SwapRemove, Live, Adds, NewOrder, Drawn, CancelTick;
    if d.cancel && g.pool != [] {
      CancelDrawn(g.ticks, d, g.pool[d.pick % |g.pool|]);
    } else {
      OrderDrawn(g.ticks, d);
    }
  }

  /** So tick `i` of the generator is the one draw `i` makes after the ticks before it, whatever the draws. */
  lemma GeneratedTick(draws: seq<Draw>, i: nat)
    requires i < |draws|
    ensures |Draws(draws).ticks| == |draws| && Drawn(Draws(draws).ticks[..i], draws[i], Draws(draws).ticks[i])
  {
    hide Draws, Tidy, Fair, Produce, Drawn, Adds;
    TicksGrow(draws, i);
    TicksGrow(draws, i + 1);
    DrawsNext(draws, i);
    GeneratorIsFair(draws[..i]);
    CounterIsAdds(draws[..i]);
    ProduceDrawn(Draws(draws[..i]), draws[i]);
    assert Draws(draws).ticks[..i + 1][i] == Draws(draws).ticks[i];
  }

  /** Every tick is the one its draw makes after the ticks before it. */
  ghost predicate AllDrawn(draws: seq<Draw>, ticks: seq<Tick>) {
    |ticks| == |draws| && forall i :: 0 <= i < |ticks| ==> Drawn(ticks[..i], draws[i], ticks[i])
  }

  lemma EveryTickDrawn(draws: seq<Draw>)
    ensures AllDrawn(draws, Draws(draws).ticks)
  {
    GeneratorIsFair(draws);
    hide Draws, Drawn, Tidy, Fair;
    forall i | 0 <= i < |draws|
      ensures Drawn(Draws(draws).ticks[..i], draws[i], Draws(draws).ticks[i])
    {
      GeneratedTick(draws, i);
    }
  }

  lemma PoolIsLive(g: Generated)
    requires Tidy(g)
    ensures |g.pool| == |Live(g.ticks)| && (g.pool == [] <==> Live(g.ticks) == {})
    ensures forall k :: 0 <= k < |g.pool| ==> g.pool[k] in Live(g.ticks)
    ensures forall id :: id in Live(g.ticks) ==> exists k :: 0 <= k < |g.pool| && g.pool[k] == id
  {
    hide Live;
    DistinctSize(g.pool);
    assert forall k :: 0 <= k < |g.pool| ==> g.pool[k] in Ids(g.pool);
  }

  lemma {:induction false} DistinctSize(pool: seq<string>)
    requires Distinct(pool)
    ensures |Ids(pool)| == |pool|
  {
    if pool != [] {
      var past, last := pool[..|pool| - 1], pool[|pool| - 1];
      DistinctSize(past);
      assert Ids(pool) == Ids(past) + {last} by {
        assert forall k :: 0 <= k < |past| ==> pool[k] == past[k];
        assert forall id :: id in Ids(past) ==> exists k :: 0 <= k < |past| && past[k] == id;
      }
      assert last !in Ids(past);
    }
  }

  /** The cancel of a draw that picks `pick` of the live orders. */
  function Cancelled(draws: seq<Draw>, d: Draw, pick: nat): string
    requires d.cancel && Live(Draws(draws).ticks) != {}
  {
    var more := draws + [d.(pick := pick)];
    TicksGrow(more, |more|);
    Draws(more).ticks[|draws|].orderID
  }

  lemma ProduceCancels(g: Generated, d: Draw)
    requires d.cancel && g.pool != []
    ensures |Produce(g, d).ticks| == |g.ticks| + 1
    ensures Produce(g, d).ticks[|g.ticks|].orderID == g.pool[d.pick % |g.pool|]
  {
    hide SwapRemove;
  }

  lemma CancelledIs(draws: seq<Draw>, d: Draw, pick: nat)
    requires d.cancel && Live(Draws(draws).ticks) != {}
    ensures Draws(draws).pool != []
    ensures Cancelled(draws, d, pick) == Draws(draws).pool[pick % |Draws(draws).pool|]
  {
    var more, g := draws + [d.(pick := pick)], Draws(draws);
    hide Draws, Tidy, Fair, Live, Produce;
    GeneratorIsFair(draws);
    PoolIsLive(g);
    DrawsNext(more, |draws|);
    assert more[..|draws|] == draws && more[..|draws| + 1] == more;
    ProduceCancels(g, d.(pick := pick));
  }

  lemma SmallMod(p: nat, n: nat)
    requires n > 0
    ensures p % n < n && (p % n) % n == p % n && (p < n ==> p % n == p)
  {
  }

  /** Of `k` live orders the picks 0 to k - 1 cancel each one once, and only the remainder of a pick by `k`
      matters. */
  lemma PicksCoverLive(draws: seq<Draw>, d: Draw, p: nat, q: nat, id: string)
    requires d.cancel && Live(Draws(draws).ticks) != {}
    ensures var live := Live(Draws(draws).ticks);
      && Cancelled(draws, d, p) in live && Cancelled(draws, d, p) == Cancelled(draws, d, p % |live|)
      && (p < q < |live| ==> Cancelled(draws, d, p) != Cancelled(draws, d, q))
      && (id in live ==> exists k: nat :: k < |live| && Cancelled(draws, d, k) == id)
  {
    var pool, live := Draws(draws).pool, Live(Draws(draws).ticks);
    GeneratorIsFair(draws);
    PoolIsLive(Draws(draws));
    assert Distinct(pool);
    hide Draws, Tidy, Fair, Live, Cancelled;
    SmallMod(p, |pool|);
    SmallMod(q, |pool|);
    CancelledIs(draws, d, p);
    CancelledIs(draws, d, q);
    CancelledIs(draws, d, p % |live|);
    if id in live {
      var k: nat :| k < |pool| && pool[k] == id;
      SmallMod(k, |pool|);
      CancelledIs(draws, d, k);
    }
  }

  /** The order the pool is in, on which later picks depend: new ids go to the end, and the last id takes the
      place of the one cancelled. */
  lemma PoolOrder(draws: seq<Draw>, i: nat)
    requires i < |draws|
    ensures var p, q, d := Draws(draws[..i]).pool, Draws(draws[..i + 1]).pool, draws[i];
      && |Draws(draws[..i + 1]).ticks| == i + 1
      && (!d.cancel || p == [] ==> |q| == |p| + 1 && q[..|p|] == p && q[|p|] == Draws(draws[..i + 1]).ticks[i].orderID)
      && (d.cancel && p != [] ==>
            var k, last := d.pick % |p|, |p| - 1;
            && |q| == last && Draws(draws[..i + 1]).ticks[i].orderID == p[k]
            && forall j :: 0 <= j < last ==> q[j] == if j == k then p[last] else p[j])
  {
    DrawsNext(draws, i);
    TicksGrow(draws[..i], i);
    TicksGrow(draws[..i + 1], i + 1);
    hide Draws, NewOrder;
  }

  // ----- what fairness means over the whole list

  lemma {:induction false} LiveWasAdded(ticks: seq<Tick>, id: string)
    requires id in Live(ticks) && Fair(ticks)
    ensures Added(ticks, id)
  {
    hide FairTick;
    var past, t := ticks[..|ticks| - 1], ticks[|ticks| - 1];
    assert ticks == past + [t];
    FairPrefix(ticks, |ticks| - 1);
    AddedSnoc(past, t, id);
    if t.typ != TickAdd || t.orderID != id {
      LiveWasAdded(past, id);
    }
  }

  lemma FairPrefix(ticks: seq<Tick>, k: nat)
    requires Fair(ticks) && k <= |ticks|
    ensures Fair(ticks[..k])
  {
    hide FairTick;
    assert forall i :: 0 <= i < k ==> ticks[..k][..i] == ticks[..i];
  }

  lemma AddedGrows(ticks: seq<Tick>, j: nat, i: nat, id: string)
    requires j <= i <= |ticks| && Added(ticks[..j], id)
    ensures Added(ticks[..i], id)
  {
    var k :| 0 <= k < j && ticks[..j][k].typ == TickAdd && ticks[..j][k].orderID == id;
    assert ticks[..i][k] == ticks[..j][k];
  }

  /** A fair list never adds again what it has cancelled. */
  lemma NotAddedAgain(ticks: seq<Tick>, j: nat, i: nat)
    requires Fair(ticks) && j < i < |ticks| && ticks[j].typ == TickCancel
    ensures !(ticks[i].typ == TickAdd && ticks[i].orderID == ticks[j].orderID)
  {
    assert FairTick(ticks[..j], ticks[j]) && FairTick(ticks[..i], ticks[i]);
    FairPrefix(ticks, j);
    hide Live, Added;
    LiveWasAdded(ticks[..j], ticks[j].orderID);
    AddedGrows(ticks, j, i, ticks[j].orderID);
  }

  lemma {:induction false} DeadStaysDead(ticks: seq<Tick>, j: nat, i: nat)
    requires Fair(ticks) && j < i <= |ticks| && ticks[j].typ == TickCancel
    ensures ticks[j].orderID !in Live(ticks[..i])
  {
    assert ticks[..i] == ticks[..i - 1] + [ticks[i - 1]];
    LiveSnoc(ticks[..i - 1], ticks[i - 1]);
    hide Live, Fair;
    if j < i - 1 {
      DeadStaysDead(ticks, j, i - 1);
      NotAddedAgain(ticks, j, i - 1);
    }
  }

  /** An order is cancelled at most once, and only after it was added. */
  lemma CancelsFollowAdds(ticks: seq<Tick>, i: nat)
    requires Fair(ticks) && i < |ticks| && ticks[i].typ == TickCancel
    ensures Added(ticks[..i], ticks[i].orderID)
    ensures forall j :: 0 <= j < i && ticks[j].typ == TickCancel ==> ticks[j].orderID != ticks[i].orderID
  {
    assert FairTick(ticks[..i], ticks[i]);
    FairPrefix(ticks, i);
    LiveWasAdded(ticks[..i], ticks[i].orderID);
    forall j | 0 <= j < i && ticks[j].typ == TickCancel
      ensures ticks[j].orderID != ticks[i].orderID
    {
      DeadStaysDead(ticks, j, i);
    }
  }

  /** Fair ticks meet every demand the exchange makes of its feed. */
  lemma FairIsGood(ticks: seq<Tick>)
    requires Fair(ticks)
    ensures GoodTicks(ticks) && AllSendable(ticks)
  {
    hide Live, Word;
    assert forall i :: 0 <= i < |ticks| ==> FairTick(ticks[..i], ticks[i]);
    forall i, j | 0 <= i < j < |ticks| && ticks[i].typ == TickAdd && ticks[j].typ == TickAdd
      ensures ticks[i].orderID != ticks[j].orderID
    {
      assert ticks[..j][i] == ticks[i];
    }
  }

  /** Generated ticks through the smoke test: every one is judged correct. */
  method GenerateAndSmokeTest(draws: seq<Draw>) returns (sent: nat, acked: nat, correct: nat)
    ensures sent == (if |draws| > 10_000 then 10_000 else |draws|) && correct == sent
  {
    var ticks := Generate(draws);
    GeneratorIsFair(draws);
    hide Fair, GoodTicks, AllSendable, AcceptedCount, Tidy;
    FairIsGood(ticks);
    sent, acked, correct := SmokeTest(ticks);
  }
}
