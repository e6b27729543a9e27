/** Team alpha's book: slices of order pointers, compacted in place while they are read, beside an
    id map that also keeps what it should forget. */
module TeamAlpha {
  import opened PriceTime
  import opened Sequences
  import opened VectorMatch
  import opened History

  class OrderRec {
    const id: string
    const side: char
    const otype: char
    const price: int
    const qty: int
    const seq_: int
    var filled: int

    constructor (id: string, side: char, otype: char, price: int, qty: int, seq_: int)
      ensures this.id == id && this.side == side && this.otype == otype && this.price == price
      ensures this.qty == qty && this.seq_ == seq_ && filled == 0
    {
      this.id, this.side, this.otype, this.price, this.qty, this.seq_ := id, side, otype, price, qty, seq_;
      filled := 0;
    }

    function Remaining(): int
      reads `filled
    {
      qty - filled
    }

    ghost function AsEntry(): Entry<string>
      reads `filled
    {
      Entry(id, price, Remaining())
    }
  }

  /** A slice header: places from `len` on belong to the array but not to the list. */
  datatype Slice = Slice(arr: array<OrderRec?>, len: nat)

  ghost predicate Holds(s: Slice, rs: seq<OrderRec>)
    reads s.arr
  {
    s.len == |rs| <= s.arr.Length && forall i :: 0 <= i < |rs| ==> s.arr[i] == rs[i]
  }

  ghost function Read(rs: seq<OrderRec>): seq<Entry<string>>
    reads rs
  {
    if rs == [] then [] else [rs[0].AsEntry()] + Read(rs[1..])
  }

  lemma ReadCons(rs: seq<OrderRec>)
    requires rs != []
    ensures Read(rs) == [rs[0].AsEntry()] + Read(rs[1..])
  {
  }

  ghost predicate ArrivedBy(rs: seq<OrderRec>, bound: int) {
    forall i :: 0 <= i < |rs| ==> rs[i].seq_ <= bound
  }

  // ----- the slice operations

  /** Room for one more place: in the array if it has any, else in a larger copy. */
  method Grow(s: Slice, ghost rs: seq<OrderRec>) returns (r: Slice)
    requires Holds(s, rs)
    ensures r.len == s.len && Holds(r, rs) && r.len < r.arr.Length
    ensures r.arr == s.arr || fresh(r.arr)
  {
    if s.len < s.arr.Length {
      return s;
    }
    var b := new OrderRec?[2 * s.len + 1];
    for k := 0 to s.len
      invariant forall i :: 0 <= i < k ==> b[i] == rs[i]
    {
      b[k] := s.arr[k];
    }
    r := Slice(b, s.len);
  }

  /** Open a gap at `i` by moving everything from there one place up. */
  method ShiftUp(a: array<OrderRec?>, i: nat, n: nat)
    requires i <= n < a.Length
    modifies a
    ensures forall k :: 0 <= k < i ==> a[k] == old(a[k])
    ensures forall k :: i <= k < n ==> a[k + 1] == old(a[k])
  {
    var j := n;
    while i < j
      invariant i <= j <= n
      invariant forall k :: 0 <= k < j ==> a[k] == old(a[k])
      invariant forall k :: j <= k < n ==> a[k + 1] == old(a[k])
    {
      a[j] := a[j - 1];
      j := j - 1;
    }
  }

  /** The first place whose order is worse, or arrived later at the same price. */
  method PlaceFor(s: Slice, o: OrderRec, descPrice: bool, ghost rs: seq<OrderRec>) returns (i: nat)
    requires Holds(s, rs) && ArrivedBy(rs, o.seq_)
    ensures i <= |rs|
    ensures forall k :: 0 <= k < i ==> !Better(if descPrice then Buy else Sell, o.price, rs[k].price)
    ensures i < |rs| ==> Better(if descPrice then Buy else Sell, o.price, rs[i].price)
  {
    for j := 0 to s.len
      invariant forall k :: 0 <= k < j ==> !Better(if descPrice then Buy else Sell, o.price, rs[k].price)
    {
      var x := s.arr[j];
      if (descPrice && o.price > x.price) || (!descPrice && o.price < x.price)
         || (o.price == x.price && o.seq_ < x.seq_) {
        return j;
      }
    }
    return s.len;
  }

  method InsertSorted(s: Slice, o: OrderRec, descPrice: bool, ghost rs: seq<OrderRec>)
    returns (r: Slice, ghost at: nat)
    requires Holds(s, rs) && ArrivedBy(rs, o.seq_)
    modifies s.arr
    ensures at <= |rs| && Holds(r, rs[..at] + [o] + rs[at..]) && (r.arr == s.arr || fresh(r.arr))
    ensures Read(rs[..at] + [o] + rs[at..]) == Insert(Read(rs), o.AsEntry(), if descPrice then Buy else Sell)
  {
    hide Read, Insert, ArrivedBy;
    var i := PlaceFor(s, o, descPrice, rs);
    r := Grow(s, rs);
    ShiftUp(r.arr, i, r.len);
    r.arr[i] := o;
    r := Slice(r.arr, r.len + 1);
    at := i;
    HoldsInserted(r, rs, o, i);
    InsertReads(rs, o, if descPrice then Buy else Sell, i);
  }

  lemma HoldsInserted(r: Slice, rs: seq<OrderRec>, o: OrderRec, i: nat)
    requires r.len == |rs| + 1 <= r.arr.Length && i <= |rs| && r.arr[i] == o
    requires forall k :: 0 <= k < i ==> r.arr[k] == rs[k]
    requires forall k :: i <= k < |rs| ==> r.arr[k + 1] == rs[k]
    ensures Holds(r, rs[..i] + [o] + rs[i..])
  {
  }

  lemma {:induction false} InsertReads(rs: seq<OrderRec>, o: OrderRec, side: Side, i: nat)
    requires i <= |rs| && forall k :: 0 <= k < i ==> !Better(side, o.price, rs[k].price)
    requires i < |rs| ==> Better(side, o.price, rs[i].price)
    ensures Read(rs[..i] + [o] + rs[i..]) == Insert(Read(rs), o.AsEntry(), side)
  {
    var r := rs[..i] + [o] + rs[i..];
    ReadCons(r);
    if rs == [] {
      assert r[1..] == rs;
    } else {
      ReadCons(rs);
      var t := rs[1..];
      hide Read;
      if i == 0 {
        assert r[1..] == rs;
      } else {
        assert forall k :: 0 <= k < |t| ==> t[k] == rs[k + 1];
        InsertReads(t, o, side, i - 1);
        assert r[1..] == t[..i-1] + [o] + t[i-1..];
      }
    }
  }

  /** Drop the given pointer, closing the gap in place. */
  method RemoveOrder(s: Slice, o: OrderRec, ghost rs: seq<OrderRec>) returns (r: Slice, ghost at: nat)
    requires Holds(s, rs)
    modifies s.arr
    ensures r.arr == s.arr && at <= |rs| && forall k :: 0 <= k < at ==> rs[k] != o
    ensures (at < |rs| ==> rs[at] == o) && Holds(r, Cut(rs, at))
  {
    var i := 0;
    while i < s.len
      invariant 0 <= i <= s.len && forall k :: 0 <= k < i ==> rs[k] != o
      invariant Holds(s, rs)
    {
      if s.arr[i] == o {
        var j := i;
        while j + 1 < s.len
          invariant i <= j < s.len
          invariant forall k :: 0 <= k < i ==> s.arr[k] == rs[k]
          invariant forall k :: i <= k < j ==> s.arr[k] == rs[k + 1]
          invariant forall k :: j < k < s.len ==> s.arr[k] == rs[k]
        {
          s.arr[j] := s.arr[j + 1];
          j := j + 1;
        }
        return Slice(s.arr, s.len - 1), i;
      }
      i := i + 1;
    }
    return s, s.len;
  }

  // ----- matching

  /** With `fills` and `kept` collected and `left` to come, the pass ends as `all`. */
  ghost predicate Passing(all: Walked<string>, t: Order<string>, fills: seq<Fill<string>>, kept: seq<Entry<string>>,
      left: seq<Entry<string>>, rem: int)
  {
    var w := Pass(left, t, rem);
    all == Walked(fills + w.fills, kept + w.makers, w.rem)
  }

  /** One maker of the pass. */
  lemma PassOne(all: Walked<string>, es: seq<Entry<string>>, t: Order<string>, rem: int, fills: seq<Fill<string>>,
      kept: seq<Entry<string>>)
    requires es != [] && Passing(all, t, fills, kept, es, rem)
    ensures var m := es[0];
      var skip := rem == 0 || !Crosses(t, m.price);
      var q := Min(m.rem, rem);
      Passing(all, t, if skip then fills else fills + [Fill(m.id, t.id, m.price, q)],
        if skip then kept + [m] else if m.rem - q > 0 then kept + [m.(rem := m.rem - q)] else kept,
        es[1..], if skip then rem else rem - q)
  {
    var m := es[0];
    var skip := rem == 0 || !Crosses(t, m.price);
    var q := Min(m.rem, rem);
    assert Min(m.rem, rem) == Min(rem, m.rem);
    var w' := Pass(es[1..], t, if skip then rem else rem - q);
    var m' := if skip then m else m.(rem := m.rem - q);
    assert kept + ([m'] + w'.makers) == kept + [m'] + w'.makers;
    assert kept + ([] + w'.makers) == kept + w'.makers;
    assert fills + ([Fill(m.id, t.id, m.price, q)] + w'.fills) == fills + [Fill(m.id, t.id, m.price, q)] + w'.fills;
  }

  lemma {:induction false} ReadSnoc(rs: seq<OrderRec>, x: OrderRec)
    ensures Read(rs + [x]) == Read(rs) + [x.AsEntry()]
  {
    ReadCons(rs + [x]);
    if rs == [] {
      assert (rs + [x])[1..] == [];
    } else {
      ReadCons(rs);
      hide Read;
      assert (rs + [x])[1..] == rs[1..] + [x];
      ReadSnoc(rs[1..], x);
    }
  }

  ghost function TakerOf(o: OrderRec): Order<string> {
    Order(o.id, SideOf(o.side), KindOf(o.otype), o.price, o.qty, 0)
  }

  class Book {
    var bids: Slice
    var asks: Slice
    var orders: map<string, OrderRec>
    var seq_: int

    ghost var bidRecs: seq<OrderRec>
    ghost var askRecs: seq<OrderRec>
    /** Ids the map still knows although nothing of theirs rests. */
    ghost var lingering: set<string>

    ghost function Contents(): View<string>
      reads this, bidRecs, askRecs
    {
      View(Read(bidRecs), Read(askRecs))
    }

    ghost predicate SideOk(s: Slice, rs: seq<OrderRec>)
      reads this, s.arr
    {
      Holds(s, rs) && Distinct(rs) && ArrivedBy(rs, seq_)
    }

    ghost predicate Valid()
      reads this, bids.arr, asks.arr
    {
      bids.arr != asks.arr && SideOk(bids, bidRecs) && SideOk(asks, askRecs)
          && IndexOk(orders, bidRecs, askRecs, lingering)
    }

    constructor ()
      ensures Valid() && Contents() == View([], []) && lingering == {} && orders == map[]
      ensures fresh(bids.arr) && fresh(asks.arr) && bidRecs == [] && askRecs == []
    {
      var b := new OrderRec?[0];
      var a := new OrderRec?[0];
      bids, asks := Slice(b, 0), Slice(a, 0);
      orders, seq_ := map[], 0;
      bidRecs, askRecs, lingering := [], [], {};
    }

    /** One maker of the loop: skipped, or traded with and forgotten when that fills it. */
    method Visit(m: OrderRec, taker: OrderRec, fills: seq<Fill<string>>)
      returns (fills': seq<Fill<string>>, alive: bool)
      requires m != taker
      modifies `orders, m`filled, taker`filled
      ensures var rem := old(taker.Remaining());
        var skip := rem == 0 || !Crosses(TakerOf(taker), m.price);
        var q := Min(old(m.Remaining()), rem);
        && m.Remaining() == old(m.Remaining()) - (if skip then 0 else q)
        && taker.Remaining() == rem - (if skip then 0 else q)
        && fills' == (if skip then fills else fills + [Fill(m.id, taker.id, m.price, q)])
        && (alive <==> skip || m.Remaining() > 0)
      ensures orders == if alive then old(orders) else old(orders) - {m.id}
    {
      if taker.Remaining() == 0 || !MayTrade(SideOf(taker.side), m.price, taker.price, taker.otype) {
        return fills, true;
      }
      var qty := Min(m.Remaining(), taker.Remaining());
      m.filled := m.filled + qty;
      taker.filled := taker.filled + qty;
      fills' := fills + [Fill(m.id, taker.id, m.price, qty)];
      alive := m.Remaining() > 0;
      if !alive {
        orders := orders - {m.id};
      }
    }

    /** Survivors are written to the front of the very array the loop is reading. */
    method Match(taker: OrderRec, makers: Slice, ghost rs: seq<OrderRec>)
      returns (fills: seq<Fill<string>>, r: Slice, ghost kept: seq<OrderRec>)
      requires Holds(makers, rs) && Distinct(rs) && taker !in rs
      modifies `orders, makers.arr, rs`filled, taker`filled
      ensures r.arr == makers.arr && Holds(r, kept)
      ensures Pass(old(Read(rs)), TakerOf(taker), old(taker.Remaining())) ==
          Walked(fills, Read(kept), taker.Remaining())
      ensures Distinct(kept) && forall x :: x in kept ==> x in rs
      ensures orders == old(orders) - GoneIds(rs, kept)
    {
      hide Pass, Passing, Read, GoneIds, Distinct, Crosses, Within;
      ghost var t, all := TakerOf(taker), Pass(Read(rs), TakerOf(taker), taker.Remaining());
      fills, kept := [], [];
      var surviving := 0;
      assert rs[0..] == rs;
      StartPass(rs, t, taker.Remaining());
      for k := 0 to makers.len
        invariant surviving == |kept| <= k
        invariant forall i :: 0 <= i < surviving ==> makers.arr[i] == kept[i]
        invariant forall i :: k <= i < |rs| ==> makers.arr[i] == rs[i]
        invariant Distinct(kept) && Within(kept, rs[..k])
        invariant orders == old(orders) - GoneIds(rs[..k], kept)
        invariant Passing(all, t, fills, Read(kept), Read(rs[k..]), taker.Remaining())
      {
        var m := makers.arr[k];
        ghost var left, rem := rs[k+1..], taker.Remaining();
        ghost var keptWas, leftWas := Read(kept), Read(left);
        ReadCons(rs[k..]);
        assert rs[k..][1..] == left;
        PassOne(all, Read(rs[k..]), t, rem, fills, Read(kept));
        DistinctAround(rs, k);
        WithinNext(rs, k, kept, taker);
        GoneNext(rs, k, kept);
        DistinctSnoc(kept, m);
        var alive;
        fills, alive := Visit(m, taker, fills);
        assert Read(kept) == keptWas && Read(left) == leftWas;
        if alive {
          makers.arr[surviving] := m;
          surviving := surviving + 1;
          ReadSnoc(kept, m);
          kept := kept + [m];
        }
      }
      r := Slice(makers.arr, surviving);
      assert rs[|rs|..] == [] && rs[..|rs|] == rs;
      EndPass(all, t, taker.Remaining(), fills, kept);
      WithinAll(kept, rs);
    }

    method Cancel(id: string) returns (found: bool)
      requires Valid()
      modifies this, bids.arr, asks.arr
      ensures Valid() && bids.arr == old(bids.arr) && asks.arr == old(asks.arr)
      ensures forall x :: x in bidRecs || x in askRecs ==> x in old(bidRecs) || x in old(askRecs)
      ensures (Contents(), lingering, found) == AlphaCancel(old(Contents()), old(lingering), id)
    {
      hide IndexOk, Read, Distinct, ArrivedBy, Cut, AlphaCancel, Holds;
      Lookup(orders, bidRecs, askRecs, lingering, id);
      if id !in orders {
        return false;
      }
      var o := orders[id];
      orders := orders - {id};
      ghost var was, i, j;
      was := old(orders);
      ghost var view := Contents();
      bids, i := RemoveOrder(bids, o, bidRecs);
      asks, j := RemoveOrder(asks, o, askRecs);
      assert View(Read(bidRecs), Read(askRecs)) == view;
      Forget(was, bidRecs, askRecs, lingering, id, i, j);
      SideCut(bidRecs, i, seq_);
      SideCut(askRecs, j, seq_);
      CutReads(was, bidRecs, askRecs, lingering, id, i, j);
      bidRecs, askRecs, lingering := Cut(bidRecs, i), Cut(askRecs, j), lingering - {id};
      return true;
    }

    /** The new order is known but rests nowhere yet: a buy is matched against the asks. */
    method MatchAsks(o: OrderRec) returns (fills: seq<Fill<string>>)
      requires Valid() && o.id in lingering && orders[o.id] == o && o.side == 'B'
      modifies this, bids.arr, asks.arr, bidRecs, askRecs, o`filled
      ensures Valid() && bids.arr == old(bids.arr) && asks.arr == old(asks.arr) && seq_ == old(seq_)
      ensures lingering == old(lingering) && o.id in orders && orders[o.id] == o
      ensures forall x :: x in bidRecs || x in askRecs ==> x in old(bidRecs) || x in old(askRecs)
      ensures var w := Pass(old(Contents()).asks, TakerOf(o), old(o.Remaining()));
        fills == w.fills && o.Remaining() == w.rem && Contents() == View(old(Contents()).bids, w.makers)
    {
      hide IndexOk, Read, Distinct, ArrivedBy, Holds, Pass;
      NewApart(orders, bidRecs, askRecs, lingering, o);
      ghost var was, kept, bidsWas := orders, [], Read(bidRecs);
      fills, asks, kept := Match(o, asks, askRecs);
      assert forall x :: x in bidRecs ==> x.filled == old(x.filled);
      assert Read(bidRecs) == bidsWas;
      KeptArrived(askRecs, kept, seq_);
      IndexMatched(was, askRecs, kept, bidRecs, lingering);
      askRecs := kept;
    }

    /** A sell is matched against the bids. */
    method MatchBids(o: OrderRec) returns (fills: seq<Fill<string>>)
      requires Valid() && o.id in lingering && orders[o.id] == o && o.side != 'B'
      modifies this, bids.arr, asks.arr, bidRecs, askRecs, o`filled
      ensures Valid() && bids.arr == old(bids.arr) && asks.arr == old(asks.arr) && seq_ == old(seq_)
      ensures lingering == old(lingering) && o.id in orders && orders[o.id] == o
      ensures forall x :: x in bidRecs || x in askRecs ==> x in old(bidRecs) || x in old(askRecs)
      ensures var w := Pass(old(Contents()).bids, TakerOf(o), old(o.Remaining()));
        fills == w.fills && o.Remaining() == w.rem && Contents() == View(w.makers, old(Contents()).asks)
    {
      hide IndexOk, Read, Distinct, ArrivedBy, Holds, Pass;
      NewApart(orders, bidRecs, askRecs, lingering, o);
      ghost var was, kept, asksWas := orders, [], Read(askRecs);
      IndexSwap(was, bidRecs, askRecs, lingering);
      fills, bids, kept := Match(o, bids, bidRecs);
      assert forall x :: x in askRecs ==> x.filled == old(x.filled);
      assert Read(askRecs) == asksWas;
      KeptArrived(bidRecs, kept, seq_);
      IndexMatched(was, bidRecs, kept, askRecs, lingering);
      IndexSwap(orders, askRecs, kept, lingering);
      bidRecs := kept;
    }

    method MatchNew(o: OrderRec) returns (fills: seq<Fill<string>>)
      requires Valid() && o.id in lingering && orders[o.id] == o
      modifies this, bids.arr, asks.arr, bidRecs, askRecs, o`filled
      ensures Valid() && bids.arr == old(bids.arr) && asks.arr == old(asks.arr) && seq_ == old(seq_)
      ensures lingering == old(lingering) && o.id in orders && orders[o.id] == o
      ensures forall x :: x in bidRecs || x in askRecs ==> x in old(bidRecs) || x in old(askRecs)
      ensures var side := SideOf(o.side);
        var w := Pass(old(Contents()).On(side.Opposite()), TakerOf(o), old(o.Remaining()));
        fills == w.fills && o.Remaining() == w.rem && Contents() == old(Contents()).With(side.Opposite(), w.makers)
    {
      hide Valid, Contents, TakerOf, Pass;
      if o.side == 'B' {
        fills := MatchAsks(o);
      } else {
        fills := MatchBids(o);
      }
    }

    /** The order joins its side, behind everything of its price or better. */
    method RestNew(o: OrderRec)
      requires Valid() && o.id in lingering && orders[o.id] == o && o.seq_ == seq_
      modifies this, bids.arr, asks.arr
      ensures Valid() && seq_ == old(seq_) && lingering == old(lingering) - {o.id}
      ensures (bids.arr == old(bids.arr) || fresh(bids.arr)) && (asks.arr == old(asks.arr) || fresh(asks.arr))
      ensures forall x :: x in bidRecs || x in askRecs ==> x in old(bidRecs) || x in old(askRecs) || x == o
      ensures var side := SideOf(o.side);
        Contents() == old(Contents()).With(side, Insert(old(Contents()).On(side), o.AsEntry(), side))
    {
      hide IndexOk, Read, Distinct, ArrivedBy, Holds, Insert;
      NewApart(orders, bidRecs, askRecs, lingering, o);
      ghost var at;
      ghost var bidsWas, asksWas := Read(bidRecs), Read(askRecs);
      if o.side == 'B' {
        bids, at := InsertSorted(bids, o, true, bidRecs);
        assert Read(askRecs) == asksWas;
        SideInsert(bidRecs, o, at, seq_);
        IndexRested(orders, bidRecs, askRecs, lingering, o, at);
        bidRecs := bidRecs[..at] + [o] + bidRecs[at..];
      } else {
        asks, at := InsertSorted(asks, o, false, askRecs);
        assert Read(bidRecs) == bidsWas;
        SideInsert(askRecs, o, at, seq_);
        IndexSwap(orders, bidRecs, askRecs, lingering);
        IndexRested(orders, askRecs, bidRecs, lingering, o, at);
        askRecs := askRecs[..at] + [o] + askRecs[at..];
        IndexSwap(orders, askRecs, bidRecs, lingering - {o.id});
      }
      lingering := lingering - {o.id};
    }

    method Forgo(o: OrderRec)
      requires Valid() && o.id in lingering && orders[o.id] == o
      modifies `orders, `lingering
      ensures Valid() && Contents() == old(Contents()) && lingering == old(lingering) - {o.id}
    {
      hide IndexOk, Read, Distinct, ArrivedBy, Holds;
      IndexForgot(orders, bidRecs, askRecs, lingering, o);
      orders := orders - {o.id};
      lingering := lingering - {o.id};
    }

    /** What is left of the new order rests if it may; a filled order is forgotten; anything else lingers. */
    method Settle(o: OrderRec)
      requires Valid() && o.id in lingering && orders[o.id] == o && o.seq_ == seq_
      modifies this, bids.arr, asks.arr
      ensures Valid() && seq_ == old(seq_)
      ensures (bids.arr == old(bids.arr) || fresh(bids.arr)) && (asks.arr == old(asks.arr) || fresh(asks.arr))
      ensures forall x :: x in bidRecs || x in askRecs ==> x in old(bidRecs) || x in old(askRecs) || x == o
      ensures var rem, side := o.Remaining(), SideOf(o.side);
        && Contents() == (if rem > 0 && o.otype == 'L'
          then old(Contents()).With(side, Insert(old(Contents()).On(side), o.AsEntry(), side)) else old(Contents()))
        && lingering == (if rem == 0 || (rem > 0 && o.otype == 'L') then old(lingering) - {o.id} else old(lingering))
    {
      hide Valid, Contents, Insert;
      if o.Remaining() > 0 && o.otype == 'L' {
        RestNew(o);
      } else if o.Remaining() == 0 {
        Forgo(o);
      }
    }

    /** The id map knows exactly the resting orders and the lingering ids. */
    lemma KeysAre()
      requires Valid()
      ensures forall id :: id in orders <==> Contents().Rests(id) || id in lingering
    {
      hide Read, Distinct, ArrivedBy, Holds;
      forall id
        ensures id in orders <==> Contents().Rests(id) || id in lingering
      {
        ReadHasId(bidRecs, id);
        ReadHasId(askRecs, id);
      }
    }

    method Add(id: string, side: char, otype: char, price: int, qty: int) returns (fills: seq<Fill<string>>)
      requires Valid() && id !in orders
      modifies this, bids.arr, asks.arr, bidRecs, askRecs
      ensures Valid()
      ensures (bids.arr == old(bids.arr) || fresh(bids.arr)) && (asks.arr == old(asks.arr) || fresh(asks.arr))
      ensures forall x :: x in bidRecs || x in askRecs ==> x in old(bidRecs) || x in old(askRecs) || fresh(x)
      ensures (Contents(), lingering, fills) ==
        AlphaAdd(old(Contents()), old(lingering),
                 Order(id, if side == 'B' then Buy else Sell, if otype == 'M' then Market else Limit, price, qty, 0),
                 otype == 'L')
    {
      hide IndexOk, Read, Distinct, Holds, Insert, Pass;
      IndexKnown(orders, bidRecs, askRecs, lingering, id);
      ghost var was := lingering;
      seq_ := seq_ + 1;
      var o := new OrderRec(id, side, otype, price, qty, seq_);
      IndexNew(orders, bidRecs, askRecs, lingering, o);
      orders := orders[id := o];
      lingering := lingering + {id};
      fills := MatchNew(o);
      Settle(o);
      assert was + {id} - {id} == was;
    }
  }

  lemma IndexKnown(orders: map<string, OrderRec>, b: seq<OrderRec>, a: seq<OrderRec>, lingering: set<string>,
      id: string)
    requires IndexOk(orders, b, a, lingering) && id !in orders
    ensures id !in lingering
  {
  }

  lemma IndexNew(orders: map<string, OrderRec>, b: seq<OrderRec>, a: seq<OrderRec>, lingering: set<string>, o: OrderRec)
    requires IndexOk(orders, b, a, lingering) && o.id !in orders
    ensures IndexOk(orders[o.id := o], b, a, lingering + {o.id})
  {
  }

  lemma IndexForgot(orders: map<string, OrderRec>, b: seq<OrderRec>, a: seq<OrderRec>, lingering: set<string>,
      o: OrderRec)
    requires IndexOk(orders, b, a, lingering) && o.id in lingering && orders[o.id] == o
    ensures IndexOk(orders - {o.id}, b, a, lingering - {o.id})
  {
  }

  lemma InsertedHas(b: seq<OrderRec>, o: OrderRec, at: nat)
    requires at <= |b|
    ensures forall x :: x in b[..at] + [o] + b[at..] <==> x in b || x == o
  {
    assert b == b[..at] + b[at..];
    assert forall x :: x in b <==> x in b[..at] || x in b[at..];
  }

  lemma IndexRested(orders: map<string, OrderRec>, b: seq<OrderRec>, a: seq<OrderRec>, lingering: set<string>,
      o: OrderRec, at: nat)
    requires IndexOk(orders, b, a, lingering) && o.id in lingering && orders[o.id] == o && at <= |b|
    ensures IndexOk(orders, b[..at] + [o] + b[at..], a, lingering - {o.id})
  {
    InsertedHas(b, o, at);
  }

  lemma SideInsert(b: seq<OrderRec>, o: OrderRec, at: nat, bound: int)
    requires Distinct(b) && ArrivedBy(b, bound) && o !in b && at <= |b| && o.seq_ <= bound
    ensures Distinct(b[..at] + [o] + b[at..]) && ArrivedBy(b[..at] + [o] + b[at..], bound)
  {
    var r := b[..at] + [o] + b[at..];
    assert forall i :: 0 <= i < |r| ==> r[i] == if i < at then b[i] else if i == at then o else b[i - 1];
  }

  lemma NewApart(orders: map<string, OrderRec>, b: seq<OrderRec>, a: seq<OrderRec>, lingering: set<string>, o: OrderRec)
    requires IndexOk(orders, b, a, lingering) && o.id in lingering && orders[o.id] == o
    ensures o !in b && o !in a
    ensures forall x :: x in b ==> x !in a
  {
  }

  lemma IndexSwap(orders: map<string, OrderRec>, b: seq<OrderRec>, a: seq<OrderRec>, lingering: set<string>)
    requires IndexOk(orders, b, a, lingering) || IndexOk(orders, a, b, lingering)
    ensures IndexOk(orders, a, b, lingering) && IndexOk(orders, b, a, lingering)
  {
  }

  lemma KeptArrived(rs: seq<OrderRec>, kept: seq<OrderRec>, bound: int)
    requires ArrivedBy(rs, bound) && forall x :: x in kept ==> x in rs
    ensures ArrivedBy(kept, bound)
  {
    assert forall i :: 0 <= i < |kept| ==> kept[i] in kept;
  }

  /** The id map knows every resting order and, besides, the lingering ids. */
  ghost predicate IndexOk(orders: map<string, OrderRec>, b: seq<OrderRec>, a: seq<OrderRec>, lingering: set<string>) {
    && (forall x :: x in b ==> x.id in orders && orders[x.id] == x && x !in a)
    && (forall x :: x in a ==> x.id in orders && orders[x.id] == x)
    && (forall id :: id in orders ==> orders[id].id == id && (orders[id] in b || orders[id] in a || id in lingering))
    && (forall id :: id in lingering ==> id in orders && orders[id] !in b && orders[id] !in a)
  }

  ghost function Cut(rs: seq<OrderRec>, at: nat): seq<OrderRec>
    requires at <= |rs|
  {
    if at < |rs| then rs[..at] + rs[at+1..] else rs
  }

  /** Forgetting the makers that were filled leaves the map in step with the survivors. */
  lemma IndexMatched(was: map<string, OrderRec>, rs: seq<OrderRec>, kept: seq<OrderRec>, other: seq<OrderRec>,
      lingering: set<string>)
    requires IndexOk(was, other, rs, lingering) && forall x :: x in kept ==> x in rs
    ensures IndexOk(was - GoneIds(rs, kept), other, kept, lingering)
    ensures forall id :: id in lingering ==> id in was && id !in GoneIds(rs, kept)
  {
    forall x | x in rs && x !in kept
      ensures was[x.id] == x && x.id !in lingering
    {
    }
    assert forall x :: x in kept ==> x in rs && x.id !in GoneIds(rs, kept);
    assert forall x :: x in other ==> x.id !in GoneIds(rs, kept);
    assert forall id :: id in was && was[id] in rs && was[id] !in kept ==> id in GoneIds(rs, kept);
  }

  lemma SideCut(rs: seq<OrderRec>, at: nat, bound: int)
    requires at <= |rs| && Distinct(rs) && ArrivedBy(rs, bound)
    ensures Distinct(Cut(rs, at)) && ArrivedBy(Cut(rs, at), bound)
    ensures forall x :: x in Cut(rs, at) ==> x in rs
  {
    assert forall i :: 0 <= i < |Cut(rs, at)| ==> Cut(rs, at)[i] == rs[if i < at then i else i + 1];
  }

  lemma CutHas(rs: seq<OrderRec>, at: nat, o: OrderRec)
    requires at <= |rs| && Distinct(rs) && (at < |rs| ==> rs[at] == o) && (at == |rs| ==> o !in rs)
    ensures forall x :: x in Cut(rs, at) <==> x in rs && x != o
  {
    if at < |rs| {
      assert rs == rs[..at] + [o] + rs[at+1..];
      assert forall x :: x in rs <==> x in rs[..at] || x == o || x in rs[at+1..];
    }
  }

  lemma IndexWithout(orders: map<string, OrderRec>, b: seq<OrderRec>, a: seq<OrderRec>, lingering: set<string>,
      id: string, restB: seq<OrderRec>, restA: seq<OrderRec>)
    requires IndexOk(orders, b, a, lingering) && id in orders
    requires forall x :: x in restB <==> x in b && x != orders[id]
    requires forall x :: x in restA <==> x in a && x != orders[id]
    ensures IndexOk(orders - {id}, restB, restA, lingering - {id})
  {
    assert forall x :: x in b && x != orders[id] ==> x.id != id;
    assert forall x :: x in a && x != orders[id] ==> x.id != id;
  }

  lemma Forget(orders: map<string, OrderRec>, b: seq<OrderRec>, a: seq<OrderRec>, lingering: set<string>, id: string,
      i: nat, j: nat)
    requires IndexOk(orders, b, a, lingering) && id in orders && Distinct(b) && Distinct(a)
    requires i <= |b| && (i < |b| ==> b[i] == orders[id]) && (i == |b| ==> orders[id] !in b)
    requires j <= |a| && (j < |a| ==> a[j] == orders[id]) && (j == |a| ==> orders[id] !in a)
    ensures IndexOk(orders - {id}, Cut(b, i), Cut(a, j), lingering - {id})
  {
    hide Cut, Distinct, IndexOk;
    CutHas(b, i, orders[id]);
    CutHas(a, j, orders[id]);
    IndexWithout(orders, b, a, lingering, id, Cut(b, i), Cut(a, j));
  }

  lemma Lookup(orders: map<string, OrderRec>, b: seq<OrderRec>, a: seq<OrderRec>, lingering: set<string>, id: string)
    requires IndexOk(orders, b, a, lingering)
    ensures id !in orders ==>
        AlphaCancel(View(Read(b), Read(a)), lingering, id) == (View(Read(b), Read(a)), lingering, false)
  {
    ReadHasId(b, id);
    ReadHasId(a, id);
    assert id !in orders ==> lingering - {id} == lingering;
  }

  /** The object the map has for `id` is the only one of that id, and stands where it stands. */
  lemma WhereIs(orders: map<string, OrderRec>, b: seq<OrderRec>, a: seq<OrderRec>, lingering: set<string>, id: string)
    requires IndexOk(orders, b, a, lingering) && id in orders
    ensures orders[id].id == id
    ensures orders[id] in b ==> orders[id] !in a && id !in lingering
    ensures orders[id] in a ==> orders[id] !in b && id !in lingering
    ensures orders[id] !in b && orders[id] !in a ==> id in lingering
    ensures forall x :: x in b && x.id == id ==> x == orders[id]
    ensures forall x :: x in a && x.id == id ==> x == orders[id]
  {
  }

  lemma CutReads(orders: map<string, OrderRec>, b: seq<OrderRec>, a: seq<OrderRec>, lingering: set<string>,
      id: string, i: nat, j: nat)
    requires IndexOk(orders, b, a, lingering) && id in orders
    requires i <= |b| && (i < |b| ==> b[i] == orders[id]) && (forall k :: 0 <= k < i ==> b[k] != orders[id])
    requires j <= |a| && (j < |a| ==> a[j] == orders[id]) && (forall k :: 0 <= k < j ==> a[k] != orders[id])
    ensures (View(Read(Cut(b, i)), Read(Cut(a, j))), lingering - {id}, true)
         == AlphaCancel(View(Read(b), Read(a)), lingering, id)
  {
    ReadHasId(b, id);
    ReadHasId(a, id);
    WhereIs(orders, b, a, lingering, id);
    hide IndexOk, Read;
    hide RemoveId;
    if i < |b| {
      assert b[i] in b;
      assert forall k :: 0 <= k < j ==> a[k] in a;
      assert lingering - {id} == lingering;
      RemoveReads(b, i, id);
    } else if j < |a| {
      assert a[j] in a;
      assert lingering - {id} == lingering;
      RemoveReads(a, j, id);
    }
  }

  lemma StartPass(rs: seq<OrderRec>, t: Order<string>, rem: int)
    ensures GoneIds(rs[..0], []) == {} && Distinct<OrderRec>([]) && Within([], rs[..0])
    ensures Passing(Pass(Read(rs), t, rem), t, [], Read([]), Read(rs), rem)
  {
    var all := Pass(Read(rs), t, rem);
    assert [] + all.fills == all.fills && [] + all.makers == all.makers;
  }

  lemma EndPass(all: Walked<string>, t: Order<string>, rem: int, fills: seq<Fill<string>>, kept: seq<OrderRec>)
    requires Passing(all, t, fills, Read(kept), Read([]), rem)
    ensures all == Walked(fills, Read(kept), rem)
  {
    assert fills + [] == fills && Read(kept) + [] == Read(kept);
  }

  lemma DistinctAround(rs: seq<OrderRec>, k: nat)
    requires Distinct(rs) && k < |rs|
    ensures rs[k] !in rs[..k] && rs[k] !in rs[k+1..]
  {
  }

  lemma DistinctSnoc(kept: seq<OrderRec>, m: OrderRec)
    requires Distinct(kept) && m !in kept
    ensures Distinct(kept + [m])
  {
  }

  ghost predicate Within(kept: seq<OrderRec>, rs: seq<OrderRec>) {
    forall x :: x in kept ==> x in rs
  }

  lemma WithinNext(rs: seq<OrderRec>, k: nat, kept: seq<OrderRec>, taker: OrderRec)
    requires k < |rs| && rs[k] !in rs[..k] && Within(kept, rs[..k]) && taker !in rs
    ensures Within(kept, rs[..k+1]) && Within(kept + [rs[k]], rs[..k+1])
    ensures rs[k] !in kept && taker !in kept && taker !in rs[k+1..]
  {
    assert rs[..k+1] == rs[..k] + [rs[k]];
  }

  lemma WithinAll(kept: seq<OrderRec>, rs: seq<OrderRec>)
    ensures Within(kept, rs) ==> forall x :: x in kept ==> x in rs
  {
  }

  lemma GoneNext(rs: seq<OrderRec>, k: nat, kept: seq<OrderRec>)
    requires k < |rs| && rs[k] !in kept && rs[k] !in rs[..k]
    ensures GoneIds(rs[..k+1], kept + [rs[k]]) == GoneIds(rs[..k], kept)
    ensures GoneIds(rs[..k+1], kept) == GoneIds(rs[..k], kept) + {rs[k].id}
  {
    assert forall x :: x in rs[..k+1] <==> x in rs[..k] || x == rs[k];
  }

  ghost function GoneIds(rs: seq<OrderRec>, kept: seq<OrderRec>): set<string> {
    set x | x in rs && x !in kept :: x.id
  }

  lemma {:induction false} RemoveReads(rs: seq<OrderRec>, at: nat, id: string)
    requires at < |rs| && rs[at].id == id && forall j :: 0 <= j < at ==> rs[j].id != id
    ensures Read(rs[..at] + rs[at+1..]) == RemoveId(Read(rs), id)
  {
    ReadCons(rs);
    var t, r := rs[1..], rs[..at] + rs[at+1..];
    if at == 0 {
      assert r == t;
    } else {
      ReadCons(r);
      hide Read;
      assert forall j :: 0 <= j < |t| ==> t[j] == rs[j + 1];
      RemoveReads(t, at - 1, id);
      assert r[1..] == t[..at-1] + t[at..];
    }
  }

  lemma {:induction false} ReadHasId(rs: seq<OrderRec>, id: string)
    ensures HasId(Read(rs), id) <==> exists x :: x in rs && x.id == id
  {
    if rs != [] {
      ReadCons(rs);
      ConsHasId(rs[0].AsEntry(), Read(rs[1..]), id);
      ReadHasId(rs[1..], id);
      assert forall x :: x in rs <==> x == rs[0] || x in rs[1..];
    }
  }

  // ----- what the book does, on values

  function AlphaAdd(v: View<string>, lingering: set<string>, o: Order<string>, mayRest: bool)
    : (View<string>, set<string>, seq<Fill<string>>)
  {
    var d := VectorAdd(v, o, mayRest);
    var left := Pass(v.On(o.side.Opposite()), o, o.Remaining()).rem;
    (d.0, if left == 0 || (left > 0 && mayRest) then lingering else lingering + {o.id}, d.1)
  }

  ghost function AlphaCancel(v: View<string>, lingering: set<string>, id: string): (View<string>, set<string>, bool) {
    if v.Rests(id) then (CancelOrder(v, id).0, lingering, true)
    else (v, lingering - {id}, id in lingering)
  }

  // ----- whole runs

  function AlphaStep(s: (View<string>, set<string>), c: Cmd<string>): (View<string>, set<string>) {
    match c
    case Submit(o) =>
      var r := AlphaAdd(s.0, s.1, o, o.typ == Limit);
      (r.0, r.1)
    case Cancel(id) => (CancelOrder(s.0, id).0, if CancelOrder(s.0, id).1 then s.1 else s.1 - {id})
  }

  /** The book's cancel is that step, with that answer. */
  lemma AlphaCancelIsStep(v: View<string>, lingering: set<string>, id: string)
    ensures AlphaCancel(v, lingering, id) ==
      (AlphaStep((v, lingering), Cmd.Cancel(id)).0, AlphaStep((v, lingering), Cmd.Cancel(id)).1,
          AlphaAnswer((v, lingering), id))
  {
    hide RemoveId;
    assert id !in lingering ==> lingering - {id} == lingering;
  }

  function AlphaAfter(cmds: seq<Cmd<string>>): (View<string>, set<string>) {
    if cmds == [] then (View([], []), {}) else AlphaStep(AlphaAfter(cmds[..|cmds| - 1]), cmds[|cmds| - 1])
  }

  function AlphaAnswer(s: (View<string>, set<string>), id: string): bool {
    CancelOrder(s.0, id).1 || id in s.1
  }

  /** A market order the other side cannot fill whole. */
  predicate Unfilled(v: View<string>, c: Cmd<string>) {
    c.Submit? && c.o.typ == Market && Walk(v.On(c.o.side.Opposite()), c.o, c.o.Remaining()).rem > 0
  }

  /** Command `k` submitted `id` as a market order that was not filled whole. */
  ghost predicate LeftUnfilled(cmds: seq<Cmd<string>>, k: nat, id: string)
    requires k < |cmds|
  {
    Unfilled(After(cmds[..k]), cmds[k]) && cmds[k].o.id == id
  }

  /** The remainder of `id` was dropped and nobody has asked to cancel it since. */
  ghost predicate DroppedUncancelled(cmds: seq<Cmd<string>>, id: string) {
    exists k :: 0 <= k < |cmds| && LeftUnfilled(cmds, k, id) && forall j :: k < j < |cmds| ==> cmds[j] != Cmd.Cancel(id)
  }

  lemma DroppedNext(past: seq<Cmd<string>>, c: Cmd<string>, id: string)
    ensures DroppedUncancelled(past + [c], id)
       <==> (DroppedUncancelled(past, id) && c != Cmd.Cancel(id)) || (Unfilled(After(past), c) && c.o.id == id)
  {
    hide Walk, After;
    assert (past + [c])[..|past|] == past;
    assert LeftUnfilled(past + [c], |past|, id) <==> Unfilled(After(past), c) && c.o.id == id;
    var cmds := past + [c];
    assert forall k :: 0 <= k < |past| ==> cmds[k] == past[k] && cmds[..k] == past[..k];
    if DroppedUncancelled(past, id) && c != Cmd.Cancel(id) {
      var k :| 0 <= k < |past| && LeftUnfilled(past, k, id) && forall j :: k < j < |past| ==> past[j] != Cmd.Cancel(id);
      assert LeftUnfilled(cmds, k, id);
    }
    if DroppedUncancelled(cmds, id) {
      var k :| 0 <= k < |cmds| && LeftUnfilled(cmds, k, id) && forall j :: k < j < |cmds| ==> cmds[j] != Cmd.Cancel(id);
      if k < |past| {
        assert LeftUnfilled(past, k, id);
        assert cmds[|past|] == c;
      }
    }
  }

  lemma AlphaStepIs(v: View<string>, lingering: set<string>, c: Cmd<string>)
    requires Ok(v) && Proper(c)
    ensures AlphaStep((v, lingering), c).0 == Step(v, c).0
    ensures c.Submit? ==>
      AlphaStep((v, lingering), c).1 == (if Unfilled(v, c) then lingering + {c.o.id} else lingering)
    ensures c.Cancel? ==>
      AlphaStep((v, lingering), c).1 == (if v.Rests(c.id) then lingering else lingering - {c.id})
  {
    match c {
      case Submit(o) =>
        var makers := v.On(o.side.Opposite());
        AddAgrees(v, o);
        PassIsWalk(makers, o, o.Remaining());
        WalkStops(makers, o, o.Remaining());
      case Cancel(id) =>
        CancelKeepsOk(v, id);
    }
  }

  lemma LingeringNext(past: seq<Cmd<string>>, c: Cmd<string>, before: set<string>, after: set<string>)
    requires FreshIds(past) && forall id :: id in before <==> DroppedUncancelled(past, id)
    requires c.Submit? ==> after == if Unfilled(After(past), c) then before + {c.o.id} else before
    requires c.Cancel? ==> after == if After(past).Rests(c.id) then before else before - {c.id}
    ensures forall id :: id in after <==> DroppedUncancelled(past + [c], id)
  {
    hide Step, DroppedUncancelled, Ok, FreshIds, After, View<string>.Rests;
    forall id
      ensures id in after <==> DroppedUncancelled(past + [c], id)
    {
      DroppedNext(past, c, id);
      if After(past).Rests(id) {
        NotBoth(past, id);
      }
    }
  }

  lemma NothingLingers(cmds: seq<Cmd<string>>)
    requires cmds == []
    ensures AlphaAfter(cmds) == (After(cmds), {}) && forall id :: !DroppedUncancelled(cmds, id)
  {
  }

  lemma AlphaNext(past: seq<Cmd<string>>, c: Cmd<string>)
    requires FreshIds(past + [c]) && forall i :: 0 <= i < |past + [c]| ==> Proper((past + [c])[i])
    ensures FreshIds(past) && Proper(c) && forall i :: 0 <= i < |past| ==> Proper(past[i])
    ensures AlphaAfter(past + [c]) == AlphaStep(AlphaAfter(past), c) && After(past + [c]) == Step(After(past), c).0
  {
    hide AlphaStep, Step, Proper;
    var cmds := past + [c];
    assert forall i :: 0 <= i < |past| ==> past[i] == cmds[i];
    assert cmds[|past|] == c && cmds[..|past|] == past;
  }

  /** Alpha's book goes through the reference's states; what it wrongly remembers is exactly the
      market orders with a dropped remainder that nobody has cancelled. */
  lemma {:induction false} AlphaRun(cmds: seq<Cmd<string>>)
    requires FreshIds(cmds) && forall i :: 0 <= i < |cmds| ==> Proper(cmds[i])
    ensures AlphaAfter(cmds).0 == After(cmds)
    ensures forall id :: id in AlphaAfter(cmds).1 <==> DroppedUncancelled(cmds, id)
  {
    hide AlphaStep, Step, DroppedUncancelled, Ok, Unfilled, AlphaAfter, After, FreshIds, Proper, View<string>.Rests;
    if cmds == [] {
      NothingLingers(cmds);
    } else {
      var past, c := cmds[..|cmds| - 1], cmds[|cmds| - 1];
      assert past + [c] == cmds;
      AlphaNext(past, c);
      AlphaRun(past);
      RunKeepsOk(past);
      AlphaStepIs(After(past), AlphaAfter(past).1, c);
      LingeringNext(past, c, AlphaAfter(past).1, AlphaAfter(cmds).1);
    }
  }

  /** Alpha answers a cancel as the reference does exactly when it names no order of that kind. */
  lemma AlphaCancelAgreesIff(cmds: seq<Cmd<string>>, k: nat)
    requires FreshIds(cmds) && k < |cmds| && cmds[k].Cancel? && forall i :: 0 <= i < |cmds| ==> Proper(cmds[i])
    ensures ReplyAt(cmds, k) == Answered(AlphaAnswer(AlphaAfter(cmds[..k]), cmds[k].id))
       <==> !DroppedUncancelled(cmds[..k], cmds[k].id)
  {
    assert forall i :: 0 <= i < k ==> cmds[..k][i] == cmds[i];
    AlphaRun(cmds[..k]);
    RunKeepsOk(cmds[..k]);
    if After(cmds[..k]).Rests(cmds[k].id) {
      NotBoth(cmds[..k], cmds[k].id);
    }
  }

  /** A market order never rests. */
  lemma {:induction false} NotBoth(cmds: seq<Cmd<string>>, id: string)
    requires FreshIds(cmds) && After(cmds).Rests(id)
    ensures !DroppedUncancelled(cmds, id)
  {
    if cmds != [] {
      var n := |cmds| - 1;
      var past, c := cmds[..n], cmds[n];
      assert forall i :: 0 <= i < n ==> past[i] == cmds[i];
      assert cmds == past + [c];
      RunKeepsOk(past);
      StepRests(After(past), c, id);
      DroppedNext(past, c, id);
      DroppedSubmitted(past, id);
      if c.Submit? {
        FreshLast(cmds);
        if c.o.typ == Market {
          MarketRests(After(past), c.o, id);
        }
      }
      if After(past).Rests(id) {
        NotBoth(past, id);
      }
    }
  }

  lemma DroppedSubmitted(cmds: seq<Cmd<string>>, id: string)
    ensures DroppedUncancelled(cmds, id) ==> Submitted(cmds, id)
  {
  }

  lemma MarketRests(v: View<string>, o: Order<string>, id: string)
    requires o.typ == Market && AddOrder(v, o).view.Rests(id)
    ensures v.Rests(id)
  {
    var opp := o.side.Opposite();
    var w := Walk(v.On(opp), o, o.Remaining());
    if HasId(w.makers, id) {
      WalkHasIds(v.On(opp), o, o.Remaining(), id);
    }
  }

  /** An id submitted for the first time is unknown to the book: neither resting nor lingering. */
  lemma FreshUnknown(cmds: seq<Cmd<string>>, k: nat)
    requires FreshIds(cmds) && k < |cmds| && cmds[k].Submit? && forall i :: 0 <= i < |cmds| ==> Proper(cmds[i])
    ensures var s := AlphaAfter(cmds[..k]); !s.0.Rests(cmds[k].o.id) && cmds[k].o.id !in s.1
  {
    var past := cmds[..k];
    assert forall i :: 0 <= i < k ==> past[i] == cmds[i];
    assert !Submitted(past, cmds[k].o.id);
    AlphaRun(past);
    RunKeepsOk(past);
    DroppedSubmitted(past, cmds[k].o.id);
  }

  // ----- an order alpha cancels that is not there

  function UnmatchedThenCancelled(id: string): seq<Cmd<string>> {
    [Submit(Order(id, Buy, Market, 0, 1, 0)), Cmd.Cancel(id)]
  }

  /** A market order into an empty book, then its cancel: the reference does not find it, alpha does. */
  lemma AlphaCancelsNothing(id: string)
    ensures var cmds := UnmatchedThenCancelled(id);
      && FreshIds(cmds) && (forall i :: 0 <= i < |cmds| ==> Proper(cmds[i]))
      && DroppedUncancelled(cmds[..1], id)
      && AlphaAnswer(AlphaAfter(cmds[..1]), id) && ReplyAt(cmds, 1) == Answered(false)
  {
    var cmds := UnmatchedThenCancelled(id);
    var o := cmds[0].o;
    assert After(cmds[..0]) == View([], []);
    assert Walk<string>([], o, 1) == Walked([], [], 1);
    assert cmds[..1] == [cmds[0]] && cmds[..1][..0] == cmds[..0];
    assert LeftUnfilled(cmds[..1], 0, id);
    assert After(cmds[..1]) == View([], []);
    AlphaRun(cmds[..1]);
  }
}
