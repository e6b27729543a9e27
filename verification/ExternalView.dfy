/** The sequenced book seen through external ids is the book of `PriceTime` over strings. */
module ExternalView {
  import opened PriceTime
  import opened History
  import opened Sequencing

  function ExtEntry(e: Entry<nat>, m: map<nat, string>): Entry<string> {
    Entry(ExternalID(m, e.id), e.price, e.rem)
  }

  function ExtFill(f: Fill<nat>, m: map<nat, string>): Fill<string> {
    Fill(ExternalID(m, f.maker), ExternalID(m, f.taker), f.price, f.qty)
  }

  function ExtEntries(s: seq<Entry<nat>>, m: map<nat, string>): seq<Entry<string>> {
    if s == [] then [] else [ExtEntry(s[0], m)] + ExtEntries(s[1..], m)
  }

  function ExtFills(s: seq<Fill<nat>>, m: map<nat, string>): seq<Fill<string>> {
    if s == [] then [] else [ExtFill(s[0], m)] + ExtFills(s[1..], m)
  }

  function ExtView(v: View<nat>, m: map<nat, string>): View<string> {
    View(ExtEntries(v.bids, m), ExtEntries(v.asks, m))
  }

  function ExtOrder(o: Order<nat>, m: map<nat, string>): Order<string> {
    Order(ExternalID(m, o.id), o.side, o.typ, o.price, o.qty, o.filled)
  }

  // ----- every operation commutes with renaming

  lemma ExtCons(e: Entry<nat>, s: seq<Entry<nat>>, m: map<nat, string>)
    ensures ExtEntries([e] + s, m) == [ExtEntry(e, m)] + ExtEntries(s, m)
  {
    assert ([e] + s)[1..] == s;
  }

  lemma ExtFillsCons(f: Fill<nat>, s: seq<Fill<nat>>, m: map<nat, string>)
    ensures ExtFills([f] + s, m) == [ExtFill(f, m)] + ExtFills(s, m) && ExtFills([], m) == []
  {
    assert ([f] + s)[1..] == s;
  }

  lemma ExtHead(s: seq<Entry<nat>>, m: map<nat, string>)
    requires s != []
    ensures ExtEntries(s, m) != [] && ExtEntries(s, m)[0] == ExtEntry(s[0], m)
    ensures ExtEntries(s, m)[1..] == ExtEntries(s[1..], m)
  {
  }

  lemma ExtNothing(m: map<nat, string>)
    ensures ExtEntries([], m) == []
  {
  }

  lemma {:induction false} ExtWalk(makers: seq<Entry<nat>>, o: Order<nat>, rem: int, m: map<nat, string>)
    ensures var w := Walk(makers, o, rem);
      Walk(ExtEntries(makers, m), ExtOrder(o, m), rem) == Walked(ExtFills(w.fills, m), ExtEntries(w.makers, m), w.rem)
  {
    hide ExtEntries, ExtFills, ExternalID;
    if makers == [] {
      ExtNothing(m);
      ExtFillsCons(Fill(0, 0, 0, 0), [], m);
    } else {
      ExtHead(makers, m);
      var e, q := makers[0], Min(makers[0].rem, rem);
      var f := Fill(e.id, o.id, e.price, q);
      if rem <= 0 || !Crosses(o, e.price) {
        ExtFillsCons(f, [], m);
      } else if e.rem == q {
        ExtWalk(makers[1..], o, rem - q, m);
        ExtFillsCons(f, Walk(makers[1..], o, rem - q).fills, m);
      } else {
        ExtCons(e.(rem := e.rem - q), makers[1..], m);
        ExtFillsCons(f, [], m);
        assert [f] + [] == [f];
      }
    }
  }

  lemma {:induction false} ExtInsert(s: seq<Entry<nat>>, e: Entry<nat>, side: Side, m: map<nat, string>)
    ensures ExtEntries(Insert(s, e, side), m) == Insert(ExtEntries(s, m), ExtEntry(e, m), side)
  {
    if s == [] || Better(side, e.price, s[0].price) {
      ExtCons(e, s, m);
    } else {
      ExtInsert(s[1..], e, side, m);
      ExtCons(s[0], Insert(s[1..], e, side), m);
      assert ExtEntries(s, m)[1..] == ExtEntries(s[1..], m);
    }
  }

  lemma ExtAdd(v: View<nat>, o: Order<nat>, m: map<nat, string>)
    ensures var a := AddOrder(v, o);
      AddOrder(ExtView(v, m), ExtOrder(o, m)) == Added(ExtView(a.view, m), ExtFills(a.fills, m), a.rests)
  {
    if o.typ != Unknown {
      var opp := o.side.Opposite();
      var w := Walk(v.On(opp), o, o.Remaining());
      ExtWalk(v.On(opp), o, o.Remaining(), m);
      ExtInsert(v.On(o.side), Entry(o.id, o.price, w.rem), o.side, m);
    }
  }

  /** Among these entries only internal id `id` carries the external id `ext`. */
  ghost predicate OnlyOne(s: seq<Entry<nat>>, m: map<nat, string>, id: nat, ext: string) {
    forall i :: 0 <= i < |s| ==> (ExternalID(m, s[i].id) == ext <==> s[i].id == id)
  }

  lemma {:induction false} ExtRemove(s: seq<Entry<nat>>, id: nat, ext: string, m: map<nat, string>)
    requires OnlyOne(s, m, id, ext)
    ensures ExtEntries(RemoveId(s, id), m) == RemoveId(ExtEntries(s, m), ext)
    ensures HasId(ExtEntries(s, m), ext) <==> HasId(s, id)
  {
    if s != [] {
      var t := s[1..];
      assert s == [s[0]] + t;
      assert OnlyOne(t, m, id, ext) by { assert forall i :: 0 <= i < |t| ==> t[i] == s[i + 1]; }
      ExtRemove(t, id, ext, m);
      ExtCons(s[0], t, m);
      ConsHasId(s[0], t, id);
      ConsHasId(ExtEntry(s[0], m), ExtEntries(t, m), ext);
      if s[0].id != id {
        ExtCons(s[0], RemoveId(t, id), m);
      }
    }
  }

  lemma ExtCancel(v: View<nat>, id: nat, ext: string, m: map<nat, string>)
    requires OnlyOne(v.bids, m, id, ext) && OnlyOne(v.asks, m, id, ext)
    ensures CancelOrder(ExtView(v, m), ext) == (ExtView(CancelOrder(v, id).0, m), CancelOrder(v, id).1)
  {
    hide RemoveId, OnlyOne, ExtEntries;
    ExtRemove(v.bids, id, ext, m);
    ExtRemove(v.asks, id, ext, m);
    assert HasId(v.bids, id) <==> exists i :: 0 <= i < |v.bids| && v.bids[i].id == id;
  }

  /** New map entries do not change how known entries read. */
  lemma {:induction false} ExtGrows(s: seq<Entry<nat>>, m: map<nat, string>, id: nat, ext: string)
    requires forall i :: 0 <= i < |s| ==> s[i].id != id
    ensures ExtEntries(s, m[id := ext]) == ExtEntries(s, m)
  {
    if s != [] {
      assert forall i :: 0 <= i < |s| - 1 ==> s[1..][i] == s[i + 1];
      ExtGrows(s[1..], m, id, ext);
    }
  }

  // ----- the sequencer through external ids

  function Ext(s: SeqState): View<string> {
    ExtView(s.view, s.revMap)
  }

  lemma AddThroughIds(s: SeqState, ext: string, side: Side, typ: OrderType, price: int, qty: int)
    requires SeqOk(s)
    ensures var r := SeqAdd(s, ext, side, typ, price, qty);
      AddOrder(Ext(s), Order(ext, side, typ, price, qty, 0)) ==
          Added(Ext(r.0), ExtFills(r.1.fills, r.0.revMap), r.1.rests)
  {
    var id, m := s.nextID, s.revMap[s.nextID := ext];
    assert forall i :: 0 <= i < |s.view.bids| ==> s.view.Rests(s.view.bids[i].id);
    assert forall i :: 0 <= i < |s.view.asks| ==> s.view.Rests(s.view.asks[i].id);
    ExtGrows(s.view.bids, s.revMap, id, ext);
    ExtGrows(s.view.asks, s.revMap, id, ext);
    ExtAdd(s.view, Order(id, side, typ, price, qty, 0), m);
  }

  lemma CancelThroughIds(s: SeqState, ext: string)
    requires SeqOk(s) && OneToOne(s)
    ensures CancelOrder(Ext(s), ext) == (Ext(SeqCancel(s, ext).0), SeqCancel(s, ext).1)
  {
    var v, m := s.view, s.revMap;
    assert forall i :: 0 <= i < |v.bids| ==> v.Rests(v.bids[i].id);
    assert forall i :: 0 <= i < |v.asks| ==> v.Rests(v.asks[i].id);
    if ext in s.idMap {
      ExtCancel(v, s.idMap[ext], ext, m);
    } else {
      ExtAbsent(v.bids, m, ext);
      ExtAbsent(v.asks, m, ext);
    }
  }

  lemma {:induction false} ExtAbsent(s: seq<Entry<nat>>, m: map<nat, string>, ext: string)
    requires forall i :: 0 <= i < |s| ==> ExternalID(m, s[i].id) != ext
    ensures !HasId(ExtEntries(s, m), ext)
  {
    if s != [] {
      assert forall i :: 0 <= i < |s| - 1 ==> s[1..][i] == s[i + 1];
      ExtAbsent(s[1..], m, ext);
      ConsHasId(ExtEntry(s[0], m), ExtEntries(s[1..], m), ext);
    }
  }

  // ----- whole runs

  function SeqStep(s: SeqState, c: Cmd<string>): SeqState {
    match c
    case Submit(o) => SeqAdd(s, o.id, o.side, o.typ, o.price, o.qty).0
    case Cancel(ext) => SeqCancel(s, ext).0
  }

  function SeqAfter(cmds: seq<Cmd<string>>): SeqState {
    if cmds == [] then INITIAL else SeqStep(SeqAfter(cmds[..|cmds| - 1]), cmds[|cmds| - 1])
  }

  function SeqReply(s: SeqState, c: Cmd<string>): Reply<string> {
    match c
    case Submit(o) =>
      var r := SeqAdd(s, o.id, o.side, o.typ, o.price, o.qty);
      Accepted(ExtFills(r.1.fills, r.0.revMap), r.1.rests)
    case Cancel(ext) => Answered(SeqCancel(s, ext).1)
  }

  /** Commands as callers of the sequencer may give them. */
  ghost predicate Admissible(cmds: seq<Cmd<string>>) {
    forall i :: 0 <= i < |cmds| ==> PositivePrice(cmds[i]) && (cmds[i].Submit? ==> cmds[i].o.filled == 0)
  }

  lemma {:induction false} SeqRunOk(cmds: seq<Cmd<string>>)
    requires FreshIds(cmds) && Admissible(cmds)
    ensures SeqOk(SeqAfter(cmds)) && OneToOne(SeqAfter(cmds)) && SeqAfter(cmds).nextID > 0
    ensures forall ext :: ext in SeqAfter(cmds).idMap <==> Submitted(cmds, ext)
    ensures Ext(SeqAfter(cmds)) == After(cmds)
  {
    if cmds == [] {
      InitialOk();
    } else {
      var n := |cmds| - 1;
      var past, c := cmds[..n], cmds[n];
      assert forall i :: 0 <= i < n ==> past[i] == cmds[i];
      SeqRunOk(past);
      var s := SeqAfter(past);
      SubmittedNext(cmds);
      hide FreshIds, SeqOk, OneToOne, Ext, SeqAdd, Ok;
      match c {
        case Submit(o) =>
          FreshLast(cmds);
          SeqAddKeeps(s, o.id, o.side, o.typ, o.price, o.qty);
          AddThroughIds(s, o.id, o.side, o.typ, o.price, o.qty);
          AddMaps(s, o);
        case Cancel(ext) =>
          SeqCancelKeeps(s, ext);
          CancelThroughIds(s, ext);
      }
    }
  }

  lemma AddMaps(s: SeqState, o: Order<string>)
    ensures var r := SeqAdd(s, o.id, o.side, o.typ, o.price, o.qty).0;
      r.nextID == s.nextID + 1 && r.idMap == s.idMap[o.id := s.nextID]
  {
  }

  lemma SubmittedNext(cmds: seq<Cmd<string>>)
    requires cmds != []
    ensures forall id ::
      (Submitted(cmds, id) <==>
          Submitted(cmds[..|cmds| - 1], id) || (cmds[|cmds| - 1].Submit? && cmds[|cmds| - 1].o.id == id))
  {
    var past := cmds[..|cmds| - 1];
    assert forall i :: 0 <= i < |past| ==> past[i] == cmds[i];
    forall id
      ensures Submitted(cmds, id) <==> Submitted(past, id) || (cmds[|cmds| - 1].Submit? && cmds[|cmds| - 1].o.id == id)
    {
      if Submitted(past, id) {
        var k :| 0 <= k < |past| && past[k].Submit? && past[k].o.id == id;
        assert cmds[k].Submit? && cmds[k].o.id == id;
      }
    }
  }

  /** Every answer the sequenced reference gives is the answer of the book over external ids. */
  lemma SeqRepliesAreExternal(cmds: seq<Cmd<string>>, k: nat)
    requires FreshIds(cmds) && Admissible(cmds) && k < |cmds|
    ensures SeqReply(SeqAfter(cmds[..k]), cmds[k]) == ReplyAt(cmds, k)
  {
    var past := cmds[..k];
    assert forall i :: 0 <= i < k ==> past[i] == cmds[i];
    SeqRunOk(past);
    var s := SeqAfter(past);
    hide SeqOk, OneToOne, Ext, SeqAdd, AddOrder, CancelOrder;
    match cmds[k] {
      case Submit(o) => AddThroughIds(s, o.id, o.side, o.typ, o.price, o.qty);
      case Cancel(ext) => CancelThroughIds(s, ext);
    }
  }
}
