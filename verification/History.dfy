/** Whole runs of the book: what is kept over any stream of commands. */
module History {
  import opened PriceTime

  datatype Cmd<Id> = Submit(o: Order<Id>) | Cancel(id: Id)

  datatype Reply<Id> = Accepted(fills: seq<Fill<Id>>, rests: bool) | Answered(cancelled: bool)

  function Step<Id(==)>(v: View<Id>, c: Cmd<Id>): (View<Id>, Reply<Id>) {
    match c
    case Submit(o) =>
      var a := AddOrder(v, o);
      (a.view, Accepted(a.fills, a.rests))
    case Cancel(id) =>
      var r := CancelOrder(v, id);
      (r.0, Answered(r.1))
  }

  function After<Id(==)>(cmds: seq<Cmd<Id>>): View<Id> {
    if cmds == [] then View([], []) else Step(After(cmds[..|cmds| - 1]), cmds[|cmds| - 1]).0
  }

  function ReplyAt<Id(==)>(cmds: seq<Cmd<Id>>, k: nat): Reply<Id>
    requires k < |cmds|
  {
    Step(After(cmds[..k]), cmds[k]).1
  }

  /** The book keeps 0 for an empty side, so the prices of limit orders are positive. The flat commands mean
      something at any price; the code does what they say at these. */
  ghost predicate PositivePrice<Id>(c: Cmd<Id>) {
    c.Submit? && c.o.typ == Limit ==> c.o.price > 0
  }

  /** No order id is submitted twice. */
  ghost predicate FreshIds<Id>(cmds: seq<Cmd<Id>>) {
    forall i, j :: 0 <= i < j < |cmds| && cmds[i].Submit? && cmds[j].Submit? ==> cmds[i].o.id != cmds[j].o.id
  }

  ghost predicate Submitted<Id>(cmds: seq<Cmd<Id>>, id: Id) {
    exists k :: 0 <= k < |cmds| && cmds[k].Submit? && cmds[k].o.id == id
  }

  // ----- one step

  lemma StepRests<Id(!new)>(v: View<Id>, c: Cmd<Id>, id: Id)
    requires Ok(v)
    requires Step(v, c).0.Rests(id)
    ensures v.Rests(id) || (c.Submit? && c.o.id == id)
  {
    match c
    case Submit(o) =>
      if o.typ != Unknown {
        var opp := o.side.Opposite();
        var w := Walk(v.On(opp), o, o.Remaining());
        if HasId(w.makers, id) {
          WalkHasIds(v.On(opp), o, o.Remaining(), id);
        }
        InsertHasIds(v.On(o.side), Entry(o.id, o.price, w.rem), o.side, id);
      }
    case Cancel(x) =>
      RemoveIdHasIds(v.bids, x, id);
      RemoveIdHasIds(v.asks, x, id);
  }

  lemma {:induction false} WalkFillsRest<Id>(makers: seq<Entry<Id>>, taker: Order<Id>, rem: int, i: nat)
    requires i < |Walk(makers, taker, rem).fills|
    ensures HasId(makers, Walk(makers, taker, rem).fills[i].maker)
    ensures Walk(makers, taker, rem).fills[i].taker == taker.id
  {
    var m, q := makers[0], Min(makers[0].rem, rem);
    assert makers == [m] + makers[1..];
    if i > 0 {
      WalkFillsRest(makers[1..], taker, rem - q, i - 1);
      ConsHasId(m, makers[1..], Walk(makers, taker, rem).fills[i].maker);
    }
  }

  lemma FreshLast<Id>(cmds: seq<Cmd<Id>>)
    requires FreshIds(cmds) && cmds != [] && cmds[|cmds| - 1].Submit?
    ensures !Submitted(cmds[..|cmds| - 1], cmds[|cmds| - 1].o.id)
  {
    assert forall i :: 0 <= i < |cmds| - 1 ==> cmds[..|cmds| - 1][i] == cmds[i];
  }

  /** A run of fresh ids keeps the book well formed, uncrossed included, and only submitted orders rest. */
  lemma {:induction false} RunKeepsOk<Id(!new)>(cmds: seq<Cmd<Id>>)
    requires FreshIds(cmds)
    ensures Ok(After(cmds))
    ensures forall id :: After(cmds).Rests(id) ==> Submitted(cmds, id)
  {
    if cmds != [] {
      var n := |cmds| - 1;
      var past, c := cmds[..n], cmds[n];
      assert FreshIds(past) by { assert forall i :: 0 <= i < n ==> past[i] == cmds[i]; }
      RunKeepsOk(past);
      var v := After(past);
      match c {
        case Submit(o) =>
          FreshLast(cmds);
          AddKeepsOk(v, o);
        case Cancel(id) =>
          CancelKeepsOk(v, id);
      }
      forall id | After(cmds).Rests(id)
        ensures Submitted(cmds, id)
      {
        StepRests(v, c, id);
        if v.Rests(id) {
          var k :| 0 <= k < n && past[k].Submit? && past[k].o.id == id;
          assert cmds[k] == past[k];
        }
      }
    }
  }

  // ----- gone for good

  ghost predicate Names<Id>(r: Reply<Id>, id: Id) {
    r.Accepted? && exists i :: 0 <= i < |r.fills| && (r.fills[i].maker == id || r.fills[i].taker == id)
  }

  lemma GoneStep<Id(!new)>(cmds: seq<Cmd<Id>>, k: nat, j: nat, id: Id)
    requires FreshIds(cmds) && k <= j < |cmds|
    requires Submitted(cmds[..k], id) && !After(cmds[..j]).Rests(id)
    ensures !After(cmds[..j + 1]).Rests(id)
  {
    var past := cmds[..j];
    assert cmds[..j + 1][..j] == past && cmds[..j + 1][j] == cmds[j];
    assert FreshIds(past);
    RunKeepsOk(past);
    SubmittedOnce(cmds, k, j, id);
    hide Step, FreshIds, Ok;
    if After(cmds[..j + 1]).Rests(id) {
      StepRests(After(past), cmds[j], id);
    }
  }

  lemma SubmittedOnce<Id>(cmds: seq<Cmd<Id>>, k: nat, j: nat, id: Id)
    requires FreshIds(cmds) && k <= j < |cmds| && Submitted(cmds[..k], id)
    ensures !(cmds[j].Submit? && cmds[j].o.id == id)
  {
    var i :| 0 <= i < k && cmds[..k][i].Submit? && cmds[..k][i].o.id == id;
    assert cmds[i] == cmds[..k][i];
  }

  lemma {:induction false} StaysGone<Id(!new)>(cmds: seq<Cmd<Id>>, k: nat, j: nat, id: Id)
    requires FreshIds(cmds) && k <= j <= |cmds|
    requires Submitted(cmds[..k], id) && !After(cmds[..k]).Rests(id)
    ensures !After(cmds[..j]).Rests(id)
    decreases j - k
  {
    hide FreshIds, After, Submitted, View<Id>.Rests;
    if k < j {
      StaysGone(cmds, k, j - 1, id);
      GoneStep(cmds, k, j - 1, id);
    }
  }

  /** Once an order is no longer in the book, cancelled or filled whole, no later fill names it. */
  lemma NoFillNamesAGoneOrder<Id(!new)>(cmds: seq<Cmd<Id>>, k: nat, j: nat, id: Id)
    requires FreshIds(cmds) && k <= j < |cmds|
    requires Submitted(cmds[..k], id) && !After(cmds[..k]).Rests(id)
    ensures !Names(ReplyAt(cmds, j), id)
  {
    StaysGone(cmds, k, j, id);
    var i :| 0 <= i < k && cmds[..k][i].Submit? && cmds[..k][i].o.id == id;
    assert cmds[i] == cmds[..k][i];
    var v, c := After(cmds[..j]), cmds[j];
    if c.Submit? && c.o.typ != Unknown {
      var opp := c.o.side.Opposite();
      var w := Walk(v.On(opp), c.o, c.o.Remaining());
      forall f | 0 <= f < |w.fills|
        ensures w.fills[f].maker != id && w.fills[f].taker != id
      {
        WalkFillsRest(v.On(opp), c.o, c.o.Remaining(), f);
      }
    }
  }

  /** A cancelled order is gone: this is the protocol's ban on zombie fills. */
  lemma NoFillAfterCancel<Id(!new)>(cmds: seq<Cmd<Id>>, k: nat, j: nat)
    requires FreshIds(cmds) && k < j < |cmds|
    requires cmds[k].Cancel? && ReplyAt(cmds, k) == Answered(true)
    ensures !Names(ReplyAt(cmds, j), cmds[k].id)
  {
    var id, past := cmds[k].id, cmds[..k];
    assert FreshIds(past);
    RunKeepsOk(past);
    CancelKeepsOk(After(past), id);
    assert cmds[..k + 1][..k] == past && cmds[..k + 1][k] == cmds[k];
    var i :| 0 <= i < k && past[i].Submit? && past[i].o.id == id;
    assert cmds[..k + 1][i] == past[i];
    NoFillNamesAGoneOrder(cmds, k + 1, j, id);
  }

  // ----- conservation of quantity

  function Sum(s: seq<int>): int {
    if s == [] then 0 else s[0] + Sum(s[1..])
  }

  /** What the fills move for order `id`, as maker and as taker. */
  function FilledBy<Id(==)>(fills: seq<Fill<Id>>, id: Id): int {
    if fills == [] then 0
    else
      (if fills[0].maker == id then fills[0].qty else 0) + (if fills[0].taker == id then fills[0].qty else 0)
      + FilledBy(fills[1..], id)
  }

  function QtyIn<Id(==)>(s: seq<Entry<Id>>, id: Id): int {
    if s == [] then 0 else (if s[0].id == id then s[0].rem else 0) + QtyIn(s[1..], id)
  }

  function Resting<Id(==)>(v: View<Id>, id: Id): int {
    QtyIn(v.bids, id) + QtyIn(v.asks, id)
  }

  function FirstQty<Id(==)>(s: seq<Entry<Id>>, id: Id): int {
    if s == [] then 0 else if s[0].id == id then s[0].rem else FirstQty(s[1..], id)
  }

  /** Quantity a command brings in for `id`. */
  function Brought<Id(==)>(c: Cmd<Id>, id: Id): int {
    if c.Submit? && c.o.id == id then c.o.Remaining() else 0
  }

  function FilledIn<Id(==)>(r: Reply<Id>, id: Id): int {
    if r.Accepted? then FilledBy(r.fills, id) else 0
  }

  /** Quantity a command takes out of the exchange unfilled: the remainder of an order that may not
      rest, or what a cancelled order still had. */
  function Dropped<Id(==)>(v: View<Id>, c: Cmd<Id>, id: Id): int {
    match c
    case Submit(o) =>
      if o.id != id || AddOrder(v, o).rests then 0
      else if o.typ == Unknown then o.Remaining()
      else Walk(v.On(o.side.Opposite()), o, o.Remaining()).rem
    case Cancel(x) =>
      if x != id || !CancelOrder(v, x).1 then 0
      else if exists i :: 0 <= i < |v.bids| && v.bids[i].id == x then FirstQty(v.bids, x)
      else FirstQty(v.asks, x)
  }

  lemma {:induction false} WalkConserves<Id>(makers: seq<Entry<Id>>, taker: Order<Id>, rem: int, id: Id)
    ensures var w := Walk(makers, taker, rem);
      QtyIn(makers, id) + (if taker.id == id then rem else 0)
      == QtyIn(w.makers, id) + FilledBy(w.fills, id) + (if taker.id == id then w.rem else 0)
  {
    if makers == [] || rem <= 0 || !Crosses(taker, makers[0].price) {
    } else {
      var m, q := makers[0], Min(makers[0].rem, rem);
      var f := Fill(m.id, taker.id, m.price, q);
      var w := Walk(makers, taker, rem);
      if m.rem == q {
        WalkConserves(makers[1..], taker, rem - q, id);
        assert w.fills[1..] == Walk(makers[1..], taker, rem - q).fills;
      } else {
        assert w.makers[1..] == makers[1..];
        assert FilledBy([f], id) == (if m.id == id then q else 0) + (if taker.id == id then q else 0);
      }
    }
  }

  lemma {:induction false} InsertConserves<Id>(s: seq<Entry<Id>>, e: Entry<Id>, side: Side, id: Id)
    ensures QtyIn(Insert(s, e, side), id) == QtyIn(s, id) + (if e.id == id then e.rem else 0)
  {
    if s == [] || Better(side, e.price, s[0].price) {
      assert Insert(s, e, side)[1..] == s;
    } else {
      InsertConserves(s[1..], e, side, id);
      assert Insert(s, e, side)[1..] == Insert(s[1..], e, side);
    }
  }

  lemma {:induction false} RemoveConserves<Id>(s: seq<Entry<Id>>, x: Id, id: Id)
    ensures QtyIn(s, id) == QtyIn(RemoveId(s, x), id) + (if x == id then FirstQty(s, x) else 0)
  {
    if s != [] && s[0].id != x {
      RemoveConserves(s[1..], x, id);
      assert RemoveId(s, x)[1..] == RemoveId(s[1..], x);
    }
  }

  lemma AddConserves<Id>(v: View<Id>, o: Order<Id>, id: Id)
    ensures Resting(v, id) + Brought(Submit(o), id)
      == Resting(AddOrder(v, o).view, id) + FilledBy(AddOrder(v, o).fills, id) + Dropped(v, Submit(o), id)
  {
    hide Walk, QtyIn, FilledBy, Insert;
    if o.typ != Unknown {
      var opp := o.side.Opposite();
      var w := Walk(v.On(opp), o, o.Remaining());
      WalkConserves(v.On(opp), o, o.Remaining(), id);
      InsertConserves(v.On(o.side), Entry(o.id, o.price, w.rem), o.side, id);
    } else {
      assert FilledBy<Id>([], id) == 0 by { NoFills(id); }
    }
  }

  lemma NoFills<Id>(id: Id)
    ensures FilledBy<Id>([], id) == 0
  {
  }

  lemma StepConserves<Id>(v: View<Id>, c: Cmd<Id>, id: Id)
    ensures Resting(v, id) + Brought(c, id)
      == Resting(Step(v, c).0, id) + FilledIn(Step(v, c).1, id) + Dropped(v, c, id)
  {
    match c
    case Submit(o) =>
      hide AddOrder, Dropped, Brought, Resting, FilledBy;
      AddConserves(v, o, id);
    case Cancel(x) =>
      hide QtyIn, FirstQty, RemoveId;
      RemoveConserves(v.bids, x, id);
      RemoveConserves(v.asks, x, id);
  }

  function TotalBrought<Id(==)>(cmds: seq<Cmd<Id>>, id: Id): int {
    if cmds == [] then 0 else TotalBrought(cmds[..|cmds| - 1], id) + Brought(cmds[|cmds| - 1], id)
  }

  function TotalFilled<Id(==)>(cmds: seq<Cmd<Id>>, id: Id): int {
    if cmds == [] then 0 else TotalFilled(cmds[..|cmds| - 1], id) + FilledIn(ReplyAt(cmds, |cmds| - 1), id)
  }

  function TotalDropped<Id(==)>(cmds: seq<Cmd<Id>>, id: Id): int {
    if cmds == [] then 0
    else TotalDropped(cmds[..|cmds| - 1], id) + Dropped(After(cmds[..|cmds| - 1]), cmds[|cmds| - 1], id)
  }

  /** Over any run, what was brought in for an id is what filled, what rests and what was dropped. */
  lemma {:induction false} Conservation<Id>(cmds: seq<Cmd<Id>>, id: Id)
    ensures TotalBrought(cmds, id) == TotalFilled(cmds, id) + Resting(After(cmds), id) + TotalDropped(cmds, id)
  {
    if cmds != [] {
      var past := cmds[..|cmds| - 1];
      Conservation(past, id);
      StepConserves(After(past), cmds[|cmds| - 1], id);
    }
  }

  lemma {:induction false} BroughtOnce<Id>(cmds: seq<Cmd<Id>>, id: Id)
    ensures !Submitted(cmds, id) ==> TotalBrought(cmds, id) == 0
    ensures forall k :: FreshIds(cmds) && 0 <= k < |cmds| && cmds[k].Submit? && cmds[k].o.id == id ==>
      TotalBrought(cmds, id) == cmds[k].o.Remaining()
  {
    if cmds != [] {
      var n := |cmds| - 1;
      var past := cmds[..n];
      BroughtOnce(past, id);
      assert forall i :: 0 <= i < n ==> past[i] == cmds[i];
      forall k | FreshIds(cmds) && 0 <= k <= n && cmds[k].Submit? && cmds[k].o.id == id
        ensures TotalBrought(cmds, id) == cmds[k].o.Remaining()
      {
        assert FreshIds(past);
        if k < n {
          assert past[k].o.id == id;
        } else {
          assert !Submitted(past, id);
        }
      }
    }
  }

  /** Per order: its quantity is exactly filled, resting or dropped. */
  lemma OrderConserved<Id(!new)>(cmds: seq<Cmd<Id>>, k: nat)
    requires FreshIds(cmds) && k < |cmds| && cmds[k].Submit?
    ensures var id := cmds[k].o.id;
      cmds[k].o.Remaining() == TotalFilled(cmds, id) + Resting(After(cmds), id) + TotalDropped(cmds, id)
  {
    Conservation(cmds, cmds[k].o.id);
    BroughtOnce(cmds, cmds[k].o.id);
  }
}
