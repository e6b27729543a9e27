/** The add of the vector-based contestants, delta and alpha, as functions: one pass over all makers,
    then a sorted insert. It is proved to be the reference's add. */
module VectorMatch {
  import opened PriceTime
  import opened History

  function SideOf(side: char): Side {
    if side == 'B' then Buy else Sell
  }

  /** Anything but 'M' is price-checked like a limit order; only 'L' may rest. */
  function KindOf(otype: char): OrderType {
    if otype == 'M' then Market else Limit
  }

  predicate MayTrade(side: Side, makerPrice: int, takerPrice: int, otype: char) {
    if otype == 'M' then true else if side == Buy then makerPrice <= takerPrice else makerPrice >= takerPrice
  }

  // ----- what the loops compute

  /** One pass over all makers: a full taker or a price outside its limit skips the maker. */
  function Pass<Id>(makers: seq<Entry<Id>>, taker: Order<Id>, rem: int): Walked<Id> {
    if makers == [] then Walked([], [], rem)
    else
      var m, rest := makers[0], makers[1..];
      if rem == 0 || !Crosses(taker, m.price) then
        var w := Pass(rest, taker, rem);
        Walked(w.fills, [m] + w.makers, w.rem)
      else
        var q := Min(rem, m.rem);
        var w := Pass(rest, taker, rem - q);
        Walked([Fill(m.id, taker.id, m.price, q)] + w.fills,
               (if m.rem - q > 0 then [m.(rem := m.rem - q)] else []) + w.makers, w.rem)
  }

  function VectorAdd<Id>(v: View<Id>, o: Order<Id>, mayRest: bool): (View<Id>, seq<Fill<Id>>) {
    var opp := o.side.Opposite();
    var w := Pass(v.On(opp), o, o.Remaining());
    var m := v.With(opp, w.makers);
    if w.rem > 0 && mayRest then
      (m.With(o.side, Insert(m.On(o.side), Entry(o.id, o.price, w.rem), o.side)), w.fills)
    else
      (m, w.fills)
  }

  // ----- agreement with the reference

  lemma {:induction false} PassSkips<Id>(makers: seq<Entry<Id>>, taker: Order<Id>, rem: int)
    requires rem == 0 || forall i :: 0 <= i < |makers| ==> !Crosses(taker, makers[i].price)
    ensures Pass(makers, taker, rem) == Walked([], makers, rem)
  {
    if makers != [] {
      PassSkips(makers[1..], taker, rem);
      assert [makers[0]] + makers[1..] == makers;
    }
  }

  /** On a sorted side a maker that does not cross has only such makers behind it. */
  lemma NoneCrosses<Id>(makers: seq<Entry<Id>>, taker: Order<Id>)
    requires Sorted(makers, taker.side.Opposite()) && makers != [] && !Crosses(taker, makers[0].price)
    ensures forall i :: 0 <= i < |makers| ==> !Crosses(taker, makers[i].price)
  {
    forall i | 0 <= i < |makers|
      ensures !Crosses(taker, makers[i].price)
    {
      assert i > 0 ==> !Better(taker.side.Opposite(), makers[i].price, makers[0].price);
    }
  }

  lemma TailKeeps<Id>(makers: seq<Entry<Id>>, side: Side)
    requires Sorted(makers, side) && AllPositive(makers) && makers != []
    ensures Sorted(makers[1..], side) && AllPositive(makers[1..]) && makers[0].rem > 0
  {
  }

  lemma PassHits<Id>(makers: seq<Entry<Id>>, taker: Order<Id>, rem: int)
    requires makers != [] && makers[0].rem > 0 && rem > 0 && Crosses(taker, makers[0].price)
    ensures var m, w := makers[0], Pass(makers[1..], taker, rem - makers[0].rem);
      makers[0].rem <= rem ==>
        Pass(makers, taker, rem) == Walked([Fill(m.id, taker.id, m.price, m.rem)] + w.fills, w.makers, w.rem)
    ensures var m := makers[0];
      makers[0].rem > rem ==>
        Pass(makers, taker, rem) ==
            Walked([Fill(m.id, taker.id, m.price, rem)], [m.(rem := m.rem - rem)] + makers[1..], 0)
  {
    hide Crosses;
    var m := makers[0];
    if m.rem <= rem {
      var w := Pass(makers[1..], taker, rem - m.rem);
      assert [] + w.makers == w.makers;
    } else {
      PassSkips(makers[1..], taker, 0);
      assert [Fill(m.id, taker.id, m.price, rem)] + [] == [Fill(m.id, taker.id, m.price, rem)];
    }
  }

  lemma {:induction false} PassIsWalk<Id>(makers: seq<Entry<Id>>, taker: Order<Id>, rem: int)
    requires Sorted(makers, taker.side.Opposite()) && AllPositive(makers) && rem >= 0
    ensures Pass(makers, taker, rem) == Walk(makers, taker, rem)
  {
    if makers == [] {
    } else if rem == 0 {
      PassSkips(makers, taker, rem);
    } else if !Crosses(taker, makers[0].price) {
      NoneCrosses(makers, taker);
      PassSkips(makers, taker, rem);
    } else {
      TailKeeps(makers, taker.side.Opposite());
      hide Sorted, AllPositive, Crosses;
      PassHits(makers, taker, rem);
      if makers[0].rem <= rem {
        hide Pass;
        PassIsWalk(makers[1..], taker, rem - makers[0].rem);
      }
    }
  }

  /** The pass tests for a remainder of zero where the reference tests for a positive one. The two
      agree exactly when the quantity is not negative or nothing crosses anyway. */
  lemma PassAgreesIff<Id>(makers: seq<Entry<Id>>, taker: Order<Id>, rem: int)
    requires Sorted(makers, taker.side.Opposite()) && AllPositive(makers)
    ensures Pass(makers, taker, rem).fills == Walk(makers, taker, rem).fills
       <==> rem >= 0 || makers == [] || !Crosses(taker, makers[0].price)
  {
    if rem >= 0 {
      PassIsWalk(makers, taker, rem);
    } else if makers != [] && !Crosses(taker, makers[0].price) {
      NoneCrosses(makers, taker);
      PassSkips(makers, taker, rem);
    }
  }

  /** On a well-formed book, the vector add is the reference's. */
  lemma AddAgrees<Id>(v: View<Id>, o: Order<Id>)
    requires Ok(v) && o.Remaining() >= 0 && o.typ != Unknown
    ensures VectorAdd(v, o, o.typ == Limit) == (AddOrder(v, o).view, AddOrder(v, o).fills)
  {
    PassIsWalk(v.On(o.side.Opposite()), o, o.Remaining());
  }

  // ----- whole runs

  function VectorStep<Id(==)>(v: View<Id>, c: Cmd<Id>): View<Id> {
    match c
    case Submit(o) => VectorAdd(v, o, o.typ == Limit).0
    case Cancel(id) => CancelOrder(v, id).0
  }

  function VectorAfter<Id(==)>(cmds: seq<Cmd<Id>>): View<Id> {
    if cmds == [] then View([], []) else VectorStep(VectorAfter(cmds[..|cmds| - 1]), cmds[|cmds| - 1])
  }

  /** Orders as the exchange protocol sends them. */
  ghost predicate Proper<Id>(c: Cmd<Id>) {
    PositivePrice(c) && (c.Submit? ==> c.o.typ != Unknown && c.o.Remaining() >= 0)
  }

  /** On any stream of fresh ids the vector book and the reference go through the same states. */
  lemma {:induction false} RunAgrees<Id(!new)>(cmds: seq<Cmd<Id>>)
    requires FreshIds(cmds) && forall i :: 0 <= i < |cmds| ==> Proper(cmds[i])
    ensures VectorAfter(cmds) == After(cmds)
  {
    if cmds != [] {
      var past, c := cmds[..|cmds| - 1], cmds[|cmds| - 1];
      assert Proper(c);
      assert forall i :: 0 <= i < |past| ==> past[i] == cmds[i];
      RunAgrees(past);
      RunKeepsOk(past);
      if c.Submit? {
        AddAgrees(After(past), c.o);
      }
    }
  }

  /** So every order gets the fills, and every cancel the answer, that the reference gives. */
  lemma AnswersAgree<Id(!new)>(cmds: seq<Cmd<Id>>, k: nat)
    requires FreshIds(cmds) && k < |cmds| && forall i :: 0 <= i < |cmds| ==> Proper(cmds[i])
    ensures match cmds[k]
      case Submit(o) => ReplyAt(cmds, k).Accepted?
          && VectorAdd(VectorAfter(cmds[..k]), o, o.typ == Limit).1 == ReplyAt(cmds, k).fills
      case Cancel(id) => ReplyAt(cmds, k) == Answered(CancelOrder(VectorAfter(cmds[..k]), id).1)
  {
    assert forall i :: 0 <= i < k ==> cmds[..k][i] == cmds[i];
    RunAgrees(cmds[..k]);
    RunKeepsOk(cmds[..k]);
    assert Proper(cmds[k]);
    if cmds[k].Submit? {
      AddAgrees(After(cmds[..k]), cmds[k].o);
    }
  }

  /** A quantity below zero against a maker it crosses: the pass trades minus one, the reference nothing. */
  lemma NegativeQuantityTrades()
    ensures var taker: Order<string> := Order("b", Buy, Limit, 10, -1, 0);
      var makers := [Entry("a", 10, 5)];
      && Pass(makers, taker, -1).fills == [Fill("a", "b", 10, -1)] && Walk(makers, taker, -1).fills == []
  {
    var taker: Order<string> := Order("b", Buy, Limit, 10, -1, 0);
    var makers := [Entry("a", 10, 5)];
    assert Pass(makers[1..], taker, 0) == Walked([], [], 0);
  }
}
