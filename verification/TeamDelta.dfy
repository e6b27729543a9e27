/** The sorted-vector book of team delta. */
module TeamDelta {
  import opened PriceTime
  import opened VectorMatch

  datatype Stored = Stored(id: string, otype: char, price: int, qty: int, filled: int, seq_: int) {
    function Remaining(): int {
      qty - filled
    }
  }

  function EntryOf(o: Stored): Entry<string> {
    Entry(o.id, o.price, o.Remaining())
  }

  function Entries(s: seq<Stored>): (r: seq<Entry<string>>)
    ensures |r| == |s| && forall i :: 0 <= i < |s| ==> r[i] == EntryOf(s[i])
  {
    seq(|s|, i requires 0 <= i < |s| => EntryOf(s[i]))
  }

  class Book {
    var bids: seq<Stored>
    var asks: seq<Stored>
    var seq_: int

    /** Every resting order carries an arrival number already given out. */
    ghost predicate Valid()
      reads this
    {
      ArrivedBy(bids, seq_) && ArrivedBy(asks, seq_)
    }

    ghost function Contents(): View<string>
      reads this
    {
      View(Entries(bids), Entries(asks))
    }

    constructor ()
      ensures Valid() && Contents() == View([], [])
    {
      bids, asks, seq_ := [], [], 0;
    }

    method Add(id: string, side: char, otype: char, price: int, qty: int) returns (fills: seq<Fill<string>>)
      requires Valid()
      modifies this
      ensures Valid()
      ensures (Contents(), fills) ==
        VectorAdd(old(Contents()),
                  Order(id, if side == 'B' then Buy else Sell, if otype == 'M' then Market else Limit, price, qty, 0),
                  otype == 'L')
    {
      hide Pass, Insert;
      seq_ := seq_ + 1;
      var taker := Stored(id, otype, price, qty, 0, seq_);
      if side == 'B' {
        fills, taker, asks := MatchOrders(taker, asks, Buy, seq_);
        if taker.Remaining() > 0 && otype == 'L' {
          bids := InsertSorted(bids, taker, true);
        }
      } else {
        fills, taker, bids := MatchOrders(taker, bids, Sell, seq_);
        if taker.Remaining() > 0 && otype == 'L' {
          asks := InsertSorted(asks, taker, false);
        }
      }
    }

    method Cancel(id: string) returns (found: bool)
      requires Valid()
      modifies this
      ensures Valid()
      ensures (Contents(), found) == CancelOrder(old(Contents()), id)
    {
      var i := Position(bids, id);
      if i < |bids| {
        RemoveAtIs(bids, id, i);
        bids := bids[..i] + bids[i+1..];
        return true;
      }
      i := Position(asks, id);
      if i < |asks| {
        RemoveAtIs(asks, id, i);
        asks := asks[..i] + asks[i+1..];
        return true;
      }
      return false;
    }
  }

  ghost function TakerOrder(t: Stored, side: Side): Order<string> {
    Order(t.id, side, KindOf(t.otype), t.price, t.qty, 0)
  }

  ghost predicate ArrivedBy(s: seq<Stored>, bound: int) {
    forall i :: 0 <= i < |s| ==> s[i].seq_ <= bound
  }

  lemma PassStep(makers: seq<Stored>, k: nat, t: Order<string>, rem: int, fills: seq<Fill<string>>, kept: seq<Stored>)
    requires k < |makers|
    ensures var m := makers[k];
      var w := Pass(Entries(makers[k..]), t, rem);
      var skip := rem == 0 || !Crosses(t, m.price);
      var q := Min(rem, m.Remaining());
      var m' := if skip then m else m.(filled := m.filled + q);
      var fills' := if skip then fills else fills + [Fill(m.id, t.id, m.price, q)];
      var kept' := if skip || m'.Remaining() > 0 then kept + [m'] else kept;
      var w' := Pass(Entries(makers[k+1..]), t, if skip then rem else rem - q);
      Walked(fills + w.fills, Entries(kept) + w.makers, w.rem) ==
          Walked(fills' + w'.fills, Entries(kept') + w'.makers, w'.rem)
  {
    var m := makers[k];
    assert Entries(makers[k..])[0] == EntryOf(m) && Entries(makers[k..])[1..] == Entries(makers[k+1..]);
    var skip := rem == 0 || !Crosses(t, m.price);
    var q := Min(rem, m.Remaining());
    var m' := if skip then m else m.(filled := m.filled + q);
    var w' := Pass(Entries(makers[k+1..]), t, if skip then rem else rem - q);
    assert Entries(kept + [m']) == Entries(kept) + [EntryOf(m')];
    assert Entries(kept) + ([EntryOf(m')] + w'.makers) == Entries(kept) + [EntryOf(m')] + w'.makers;
    assert Entries(kept) + ([] + w'.makers) == Entries(kept) + w'.makers;
    var f := Fill(m.id, t.id, m.price, q);
    assert fills + ([f] + w'.fills) == fills + [f] + w'.fills;
  }

  /** Drain the makers, keep the survivors in order. */
  method MatchOrders(taker0: Stored, makers: seq<Stored>, side: Side, ghost bound: int)
    returns (fills: seq<Fill<string>>, taker: Stored, surviving: seq<Stored>)
    requires ArrivedBy(makers, bound)
    ensures Pass(Entries(makers), TakerOrder(taker0, side), taker0.Remaining())
         == Walked(fills, Entries(surviving), taker.Remaining())
    ensures taker == taker0.(filled := taker.filled) && ArrivedBy(surviving, bound)
  {
    hide Pass;
    taker := taker0;
    fills, surviving := [], [];
    ghost var t := TakerOrder(taker0, side);
    ghost var all := Pass(Entries(makers), t, taker0.Remaining());
    assert makers[0..] == makers;
    assert [] + all.fills == all.fills && Entries([]) + all.makers == all.makers;
    for k := 0 to |makers|
      invariant taker == taker0.(filled := taker.filled) && ArrivedBy(surviving, bound)
      invariant var w := Pass(Entries(makers[k..]), t, taker.Remaining());
        all == Walked(fills + w.fills, Entries(surviving) + w.makers, w.rem)
    {
      PassStep(makers, k, t, taker.Remaining(), fills, surviving);
      var m := makers[k];
      if taker.Remaining() == 0 || !MayTrade(side, m.price, taker.price, taker.otype) {
        surviving := surviving + [m];
      } else {
        var qty := Min(taker.Remaining(), m.Remaining());
        m := m.(filled := m.filled + qty);
        taker := taker.(filled := taker.filled + qty);
        fills := fills + [Fill(m.id, taker.id, m.price, qty)];
        if m.Remaining() > 0 {
          surviving := surviving + [m];
        }
      }
    }
    PassNothing(t, taker.Remaining());
    assert Entries(makers[|makers|..]) == [];
    assert fills + [] == fills && Entries(surviving) + [] == Entries(surviving);
  }

  lemma PassNothing(t: Order<string>, rem: int)
    ensures Pass([], t, rem) == Walked([], [], rem)
  {
  }

  method InsertSorted(lst: seq<Stored>, o: Stored, desc: bool) returns (r: seq<Stored>)
    requires ArrivedBy(lst, o.seq_)
    ensures Entries(r) == Insert(Entries(lst), EntryOf(o), if desc then Buy else Sell)
    ensures ArrivedBy(r, o.seq_)
  {
    ghost var side := if desc then Buy else Sell;
    var pos := 0;
    while pos < |lst| && !((if desc then o.price > lst[pos].price else o.price < lst[pos].price)
                           || (o.price == lst[pos].price && o.seq_ < lst[pos].seq_))
      invariant 0 <= pos <= |lst|
      invariant forall i :: 0 <= i < pos ==> !Better(side, o.price, lst[i].price)
    {
      pos := pos + 1;
    }
    r := lst[..pos] + [o] + lst[pos..];
    InsertIs(lst, o, side, pos);
  }

  lemma EntriesCons(s: seq<Stored>)
    requires s != []
    ensures Entries(s) == [EntryOf(s[0])] + Entries(s[1..])
  {
  }

  lemma {:induction false} InsertIs(lst: seq<Stored>, o: Stored, side: Side, pos: nat)
    requires pos <= |lst| && forall i :: 0 <= i < pos ==> !Better(side, o.price, lst[i].price)
    requires pos < |lst| ==> Better(side, o.price, lst[pos].price)
    ensures Entries(lst[..pos] + [o] + lst[pos..]) == Insert(Entries(lst), EntryOf(o), side)
  {
    hide Entries;
    var r := lst[..pos] + [o] + lst[pos..];
    EntriesCons(r);
    if pos == 0 {
      assert r[1..] == lst;
    } else {
      var t := lst[1..];
      EntriesCons(lst);
      assert forall i :: 0 <= i < |t| ==> t[i] == lst[i + 1];
      InsertIs(t, o, side, pos - 1);
      assert r[1..] == t[..pos-1] + [o] + t[pos-1..];
    }
  }

  method Position(s: seq<Stored>, id: string) returns (i: nat)
    ensures i <= |s| && (i < |s| ==> s[i].id == id)
    ensures forall j :: 0 <= j < i ==> s[j].id != id
  {
    i := 0;
    while i < |s| && s[i].id != id
      invariant i <= |s| && forall j :: 0 <= j < i ==> s[j].id != id
    {
      i := i + 1;
    }
  }

  lemma {:induction false} RemoveAtIs(s: seq<Stored>, id: string, i: nat)
    requires i < |s| && s[i].id == id && forall j :: 0 <= j < i ==> s[j].id != id
    ensures Entries(s[..i] + s[i+1..]) == RemoveId(Entries(s), id)
  {
    hide Entries;
    var t, r := s[1..], s[..i] + s[i+1..];
    EntriesCons(s);
    if i == 0 {
      assert r == t;
    } else {
      assert forall j :: 0 <= j < |t| ==> t[j] == s[j + 1];
      RemoveAtIs(t, id, i - 1);
      EntriesCons(r);
      assert r[1..] == t[..i-1] + t[i..];
    }
  }
}
