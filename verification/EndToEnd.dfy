/** The reference contestant, spoken to over the wire and judged by the validator. */
module EndToEnd {
  import opened PriceTime
  import opened History
  import opened Wire
  import opened Price
  import opened Protocol
  import opened Sequencing
  import opened ExternalView
  import opened Contestant
  import opened Validation

  // ----- one tick over the wire

  /** What the contestant is asked to do by one tick's frame. */
  function RequestOf(t: Tick): Request {
    var line := WriteTick(t);
    if line.Some? then Decode(line.value) else Silence
  }

  /** A tick's frame asks for exactly the tick: 'B' buys and anything else sells, 'L' is a limit order and
      anything else a market order. */
  lemma TickIsRead(t: Tick)
    requires Sendable(t) && t.typ != OtherTick
    ensures t.typ == TickAdd ==>
      RequestOf(t) == Place(t.orderID, if t.side == 'B' then Buy else Sell, if t.ordType == 'L' then Limit else Market,
                            t.price, t.qty)
    ensures t.typ == TickCancel ==> RequestOf(t) == Withdraw(t.orderID)
  {
    hide FormatPrice, FormatInt, ParsePriceLenient, ParseInt, Fields, TrimSpace, WriteTick, Word;
    if t.typ == TickAdd {
      AddLineReads(t);
      var f := Fields(TrimSpace(WriteTick(t).value));
      assert f[2] == [t.side] && f[3] == [t.ordType];
    } else {
      CancelLineReads(t);
    }
  }

  /** The contestant moves exactly as the reference does. */
  lemma ServeIsStep(s: SeqState, t: Tick)
    requires Sendable(t) && t.typ != OtherTick
    ensures Serve(s, RequestOf(t)).0 == SeqStep(s, CommandOf(t))
  {
    hide RequestOf, SeqAdd, SeqCancel;
    TickIsRead(t);
  }

  // ----- everything the contestant prints can be read back

  ghost predicate EntriesPrint(s: seq<Entry<nat>>) {
    forall i :: 0 <= i < |s| ==> 0 <= s[i].price <= MAX_INT64 && 0 < s[i].rem <= MAX_INT64
  }

  ghost predicate FillsPrint(s: seq<Fill<nat>>, m: map<nat, string>) {
    forall i :: 0 <= i < |s| ==>
      && 0 <= s[i].price <= MAX_INT64 && Int64(s[i].qty)
      && Word(ExternalID(m, s[i].maker)) && Word(ExternalID(m, s[i].taker))
  }

  ghost predicate IdsPrint(m: map<nat, string>) {
    forall id :: id in m ==> Word(m[id])
  }

  ghost predicate Printable(s: SeqState) {
    EntriesPrint(s.view.bids) && EntriesPrint(s.view.asks) && IdsPrint(s.revMap)
  }

  lemma {:induction false} WalkPrints(makers: seq<Entry<nat>>, o: Order<nat>, rem: int)
    requires EntriesPrint(makers)
    ensures EntriesPrint(Walk(makers, o, rem).makers)
    ensures Walk(makers, o, rem).rem <= rem
  {
    if makers == [] || rem <= 0 || !Crosses(o, makers[0].price) {
    } else {
      var q := Min(makers[0].rem, rem);
      if makers[0].rem == q {
        WalkPrints(makers[1..], o, rem - q);
      }
    }
  }

  lemma {:induction false} InsertPrints(s: seq<Entry<nat>>, e: Entry<nat>, side: Side)
    requires EntriesPrint(s) && EntriesPrint([e])
    ensures EntriesPrint(Insert(s, e, side))
  {
    assert EntriesPrint([e]) ==> [e][0] == e;
    if s == [] || Better(side, e.price, s[0].price) {
    } else {
      InsertPrints(s[1..], e, side);
    }
  }

  lemma AddPrints(v: View<nat>, o: Order<nat>)
    requires EntriesPrint(v.bids) && EntriesPrint(v.asks) && 0 <= o.price <= MAX_INT64 && o.Remaining() <= MAX_INT64
    ensures EntriesPrint(AddOrder(v, o).view.bids) && EntriesPrint(AddOrder(v, o).view.asks)
  {
    if o.typ != Unknown {
      var opp := o.side.Opposite();
      var w := Walk(v.On(opp), o, o.Remaining());
      WalkPrints(v.On(opp), o, o.Remaining());
      if w.rem > 0 {
        InsertPrints(v.On(o.side), Entry(o.id, o.price, w.rem), o.side);
      }
    }
  }

  lemma {:induction false} RemovePrints(s: seq<Entry<nat>>, id: nat)
    requires EntriesPrint(s)
    ensures EntriesPrint(RemoveId(s, id))
  {
    if s != [] && s[0].id != id {
      RemovePrints(s[1..], id);
    }
  }

  lemma StepPrints(s: SeqState, t: Tick)
    requires Printable(s) && Sendable(t)
    ensures Printable(SeqStep(s, CommandOf(t)))
  {
    match CommandOf(t) {
      case Submit(o) =>
        AddPrints(s.view, Order(s.nextID, o.side, o.typ, o.price, o.qty, 0));
      case Cancel(ext) =>
        if ext in s.idMap {
          RemovePrints(s.view.bids, s.idMap[ext]);
          RemovePrints(s.view.asks, s.idMap[ext]);
        }
    }
  }

  ghost predicate AllSendable(ticks: seq<Tick>) {
    forall i :: 0 <= i < |ticks| ==> Sendable(ticks[i])
  }

  lemma {:induction false} RunPrints(ticks: seq<Tick>)
    requires AllSendable(ticks)
    ensures Printable(SeqAfter(Commands(ticks)))
  {
    if ticks != [] {
      var n := |ticks| - 1;
      RunPrints(ticks[..n]);
      assert Commands(ticks)[..n] == Commands(ticks[..n]);
      StepPrints(SeqAfter(Commands(ticks[..n])), ticks[n]);
    }
  }

  lemma WalkFillsPrint(makers: seq<Entry<nat>>, o: Order<nat>, rem: int, m: map<nat, string>)
    requires EntriesPrint(makers) && Word(ExternalID(m, o.id))
    requires forall i :: 0 <= i < |makers| ==> Word(ExternalID(m, makers[i].id))
    ensures FillsPrint(Walk(makers, o, rem).fills, m)
  {
    WalkIsPriority(makers, o, rem);
    hide Walk, Word, ExternalID, Crosses, Volume;
    var fills := Walk(makers, o, rem).fills;
    assert forall i :: 0 <= i < |fills| ==> fills[i].maker == makers[i].id && 0 < fills[i].qty <= makers[i].rem;
  }

  lemma AddFillsPrint(s: SeqState, t: Tick)
    requires SeqOk(s) && Printable(s) && Sendable(t) && t.typ == TickAdd
    ensures var a := SeqAdd(s, t.orderID, SideFromByte(t.side), OrdTypeFromByte(t.ordType), t.price, t.qty);
      FillsPrint(a.1.fills, a.0.revMap)
  {
    hide Walk, AddOrder, Word, Ok, FillsPrint, EntriesPrint;
    var o := Order(s.nextID, SideFromByte(t.side), OrdTypeFromByte(t.ordType), t.price, t.qty, 0);
    var makers := s.view.On(o.side.Opposite());
    var m := s.revMap[s.nextID := t.orderID];
    forall i | 0 <= i < |makers|
      ensures Word(ExternalID(m, makers[i].id))
    {
      assert s.view.Rests(makers[i].id);
    }
    WalkFillsPrint(makers, o, t.qty, m);
    AddFillsAre(s.view, o);
  }

  lemma AddFillsAre(v: View<nat>, o: Order<nat>)
    requires o.typ != Unknown
    ensures AddOrder(v, o).fills == Walk(v.On(o.side.Opposite()), o, o.Remaining()).fills
  {
  }

  /** The runner's own count looks at the last response only. */
  predicate Acked(responses: seq<Response>) {
    responses != [] && responses[|responses| - 1].ACK?
  }

  /** FILLs, then one terminal response, all under one order id. */
  ghost predicate Block(id: string, rs: seq<Response>) {
    rs != [] && forall i :: 0 <= i < |rs| ==> rs[i].orderID == id && (rs[i].FILL? <==> i < |rs| - 1)
  }

  /** What the platform should read back: the fills field by field, then the ACK. */
  ghost predicate Reads(id: string, got: seq<Response>, want: seq<Fill<string>>) {
    SameFills(want, FillsOf(got)) && FirstTerminalIsACK(got) && Acked(got) && Block(id, got)
  }

  lemma ReadsNone(id: string)
    ensures Reads(id, [ACK(id)], [])
  {
    assert [ACK(id)][1..] == [];
  }

  lemma ReadsOneMore(id: string, r: Response, got: seq<Response>, f: Fill<string>, want: seq<Fill<string>>)
    requires Matches(f, r) && r.orderID == id && Reads(id, got, want)
    ensures Reads(id, [r] + got, [f] + want)
  {
    assert ([r] + got)[1..] == got;
    assert FillsOf([r] + got) == [r] + FillsOf(got);
  }

  lemma CollectFill(id: string, maker: string, taker: string, price: int, qty: int, rest: seq<string>)
    requires Word(id) && Word(maker) && Word(taker) && 0 <= price <= MAX_INT64 && Int64(qty)
    ensures Collect([FillLine(id, maker, taker, price, qty)] + rest) ==
        [FILL(id, maker, taker, price, qty)] + Collect(rest)
  {
    FillReads(id, maker, taker, price, qty);
    hide ReadResponse, FillLine, Word;
    assert ([FillLine(id, maker, taker, price, qty)] + rest)[1..] == rest;
  }

  /** The frames of an accepted order, collected. */
  lemma {:induction false} FramesAreRead(id: string, fills: seq<Fill<nat>>, m: map<nat, string>)
    requires Word(id) && FillsPrint(fills, m)
    ensures Reads(id, Collect(FillFrames(id, fills, m) + [AckLine(id)]), ExtFills(fills, m))
  {
    hide ReadResponse, AckLine, FillLine, Word, Reads;
    var frames := FillFrames(id, fills, m) + [AckLine(id)];
    if fills == [] {
      AckReads(id);
      assert frames == [AckLine(id)];
      ReadsNone(id);
    } else {
      hide Collect;
      var f := fills[0];
      var maker, taker := ExternalID(m, f.maker), ExternalID(m, f.taker);
      var rest := FillFrames(id, fills[1..], m) + [AckLine(id)];
      assert frames == [FillLine(id, maker, taker, f.price, f.qty)] + rest;
      assert FillsPrint(fills[1..], m) by { assert forall i :: 0 <= i < |fills| - 1 ==> fills[1..][i] == fills[i + 1]; }
      FramesAreRead(id, fills[1..], m);
      CollectFill(id, maker, taker, f.price, f.qty, rest);
      ReadsOneMore(id, FILL(id, maker, taker, f.price, f.qty), Collect(rest), ExtFill(f, m), ExtFills(fills[1..], m));
    }
  }

  // ----- the whole run

  /** The contestant's state after a run of frames. */
  function ServedState(ticks: seq<Tick>): SeqState {
    if ticks == [] then INITIAL else Serve(ServedState(ticks[..|ticks| - 1]), RequestOf(ticks[|ticks| - 1])).0
  }

  /** What the runner collects for tick `k`. */
  function Heard(ticks: seq<Tick>, k: nat): seq<Response>
    requires k < |ticks|
  {
    Collect(Serve(ServedState(ticks[..k]), RequestOf(ticks[k])).1)
  }

  function Played(ticks: seq<Tick>): (results: seq<TickResult>)
    ensures |results| == |ticks| && TicksOf(results) == ticks
  {
    seq(|ticks|, k requires 0 <= k < |ticks| => TickResult(ticks[k], Heard(ticks, k)))
  }

  lemma {:induction false} ServedIsReference(ticks: seq<Tick>)
    requires GoodTicks(ticks) && AllSendable(ticks)
    ensures ServedState(ticks) == SeqAfter(Commands(ticks))
  {
    if ticks != [] {
      var n := |ticks| - 1;
      assert Commands(ticks)[..n] == Commands(ticks[..n]);
      ServedIsReference(ticks[..n]);
      ServeIsStep(ServedState(ticks[..n]), ticks[n]);
    }
  }

  lemma PrefixGood(ticks: seq<Tick>, k: nat)
    requires GoodTicks(ticks) && AllSendable(ticks) && k <= |ticks|
    ensures GoodTicks(ticks[..k]) && AllSendable(ticks[..k]) && Commands(ticks[..k]) == Commands(ticks)[..k]
  {
  }

  lemma ReachedState(ticks: seq<Tick>, k: nat)
    requires GoodTicks(ticks) && AllSendable(ticks) && k < |ticks|
    ensures var s := ServedState(ticks[..k]);
      && SeqOk(s) && Printable(s)
      && SeqReply(s, CommandOf(ticks[k])) == ReplyAt(Commands(ticks), k)
  {
    var cmds := Commands(ticks);
    PrefixGood(ticks, k);
    GoodCommands(ticks);
    GoodCommands(ticks[..k]);
    hide SeqOk, Printable, SeqReply, ReplyAt, FreshIds, Admissible, AllSendable, GoodTicks;
    ServedIsReference(ticks[..k]);
    SeqRunOk(cmds[..k]);
    RunPrints(ticks[..k]);
    SeqRepliesAreExternal(cmds, k);
  }

  lemma HeardAdd(ticks: seq<Tick>, k: nat)
    requires GoodTicks(ticks) && AllSendable(ticks) && k < |ticks| && ticks[k].typ == TickAdd
    ensures var ref := ReplyAt(Commands(ticks), k);
      ref.Accepted? && Reads(ticks[k].orderID, Heard(ticks, k), ref.fills)
  {
    hide SeqAdd, SeqOk, Printable, Collect, FillFrames, RequestOf, ReplyAt, Word, ExtFills, Reads;
    var t, s := ticks[k], ServedState(ticks[..k]);
    ReachedState(ticks, k);
    AddFillsPrint(s, t);
    TickIsRead(t);
    var a := SeqAdd(s, t.orderID, SideFromByte(t.side), OrdTypeFromByte(t.ordType), t.price, t.qty);
    FramesAreRead(t.orderID, a.1.fills, a.0.revMap);
  }

  lemma TerminalFrameIsRead(id: string, cancelled: bool)
    requires Word(id)
    ensures Collect([if cancelled then AckLine(id) else RejLine(id, "not_found")]) ==
      [if cancelled then ACK(id) else REJ(id, "not_found")]
  {
    hide ReadResponse, AckLine, RejLine, Word;
    AckReads(id);
    assert Word("not_found") by { ReasonIsWord(); }
    RejReads(id, ["not_found"]);
    RejLineIs(id, "not_found");
  }

  lemma ReasonIsWord()
    ensures Word("not_found")
  {
  }

  lemma HeardCancel(ticks: seq<Tick>, k: nat)
    requires GoodTicks(ticks) && AllSendable(ticks) && k < |ticks| && ticks[k].typ == TickCancel
    ensures FirstTerminalIsACK(Heard(ticks, k)) == Acked(Heard(ticks, k)) ==
        (ReplyAt(Commands(ticks), k) == Answered(true))
    ensures Block(ticks[k].orderID, Heard(ticks, k))
  {
    hide SeqAdd, SeqCancel, RequestOf, ReplyAt, Collect, SeqOk, Printable, Word, AckLine, RejLine, ServedState;
    var t, s := ticks[k], ServedState(ticks[..k]);
    ReachedState(ticks, k);
    TickIsRead(t);
    TerminalFrameIsRead(t.orderID, SeqCancel(s, t.orderID).1);
  }

  /** The reference contestant is judged correct on every tick of every good tick list its arena has room
      for. */
  lemma ContestantAlwaysCorrect(ticks: seq<Tick>, k: nat)
    requires GoodTicks(ticks) && AllSendable(ticks) && Adds(ticks) <= ARENA && k < |ticks|
    ensures VerdictAt(Played(ticks), k).correct
  {
    hide Adds, AllPriced;
    var results := Played(ticks);
    assert results[k] == TickResult(ticks[k], Heard(ticks, k));
    if ticks[k].typ == TickAdd {
      HeardAdd(ticks, k);
      AddVerdictExact(results, k);
    } else {
      assert ticks[k].typ == TickCancel;
      HeardCancel(ticks, k);
      CancelVerdictExact(results, k);
    }
  }

  // ----- the warm-up run, with the real objects

  /** Ticks the reference accepts: every order, and the cancels that found their order. */
  function AcceptedCount(ticks: seq<Tick>): nat {
    if ticks == [] then 0
    else
      AcceptedCount(ticks[..|ticks| - 1])
      + (if ReplyAt(Commands(ticks), |ticks| - 1) == Answered(false) then 0 else 1)
  }

  lemma AckedIsAccepted(ticks: seq<Tick>, k: nat)
    requires GoodTicks(ticks) && AllSendable(ticks) && k < |ticks|
    ensures Acked(Heard(ticks, k)) <==> ReplyAt(Commands(ticks), k) != Answered(false)
    ensures AcceptedCount(ticks[..k + 1]) == AcceptedCount(ticks[..k]) + (if Acked(Heard(ticks, k)) then 1 else 0)
  {
    hide Acked, Heard, Sendable;
    PrefixGood(ticks, k);
    PrefixGood(ticks, k + 1);
    assert ticks[..k + 1][..k] == ticks[..k];
    assert Commands(ticks[..k + 1])[..k] == Commands(ticks)[..k];
    assert Commands(ticks[..k + 1])[k] == Commands(ticks)[k];
    if ticks[k].typ == TickAdd {
      HeardAdd(ticks, k);
    } else {
      HeardCancel(ticks, k);
    }
  }

  lemma NextServed(ticks: seq<Tick>, k: nat)
    requires k < |ticks|
    ensures ServedState(ticks[..k + 1]) == Serve(ServedState(ticks[..k]), RequestOf(ticks[k])).0
  {
    assert ticks[..k + 1][..k] == ticks[..k];
  }

  lemma PlacesPriced(t: Tick)
    requires Sendable(t) && t.typ != OtherTick && Priced(t)
    ensures Decode(WriteTick(t).value) == RequestOf(t)
    ensures var r := RequestOf(t); (r.Place? <==> t.typ == TickAdd) && (r.Place? && r.typ == Limit ==> r.price > 0)
  {
    hide Decode;
    TickIsRead(t);
  }

  /** Closed loop: send a tick, collect its answer, send the next. */
  method RunTicks(conn: Connection, ticks: seq<Tick>) returns (results: seq<TickResult>, sent: nat, acked: nat)
    requires conn.Valid() && conn.sequencer.State() == INITIAL && conn.sequencer.Room() >= Adds(ticks)
    requires GoodTicks(ticks) && AllSendable(ticks)
    modifies conn.sequencer, conn.sequencer.book, conn.sequencer.book.Repr
    ensures results == Played(ticks) && sent == |ticks| && acked == AcceptedCount(ticks)
  {
    hide Connection.Valid, Serve, Acked, Collect, Sendable, Priced, RequestOf, WriteTick, Decode, GoodTicks, Adds,
        Played, Heard, AcceptedCount;
    results, sent, acked := [], 0, 0;
    assert ticks[0..] == ticks;
    assert ticks[..0] == [] && ServedState([]) == INITIAL && AcceptedCount([]) == 0 by { NothingYet(); }
    for k := 0 to |ticks|
      invariant conn.Valid() && conn.sequencer.State() == ServedState(ticks[..k])
      invariant conn.sequencer.Room() >= Adds(ticks[k..])
      invariant old(conn.sequencer.book.Repr) <= conn.sequencer.book.Repr
          && fresh(conn.sequencer.book.Repr - old(conn.sequencer.book.Repr))
      invariant sent == k && acked == AcceptedCount(ticks[..k])
      invariant results == Played(ticks)[..k]
    {
      KnownTick(ticks, k);
      AddsNext(ticks, k);
      PlacesPriced(ticks[k]);
      NextServed(ticks, k);
      AckedIsAccepted(ticks, k);
      var frames := conn.Dispatch(WriteTick(ticks[k]).value);
      var responses := CollectUntilACK(frames);
      sent := sent + 1;
      PlayedNext(ticks, k, responses);
      if Acked(responses) {
        acked := acked + 1;
      }
      results := results + [TickResult(ticks[k], responses)];
    }
    assert ticks[..|ticks|] == ticks;
    assert Played(ticks)[..|ticks|] == Played(ticks);
  }

  lemma AddsNext(ticks: seq<Tick>, k: nat)
    requires k < |ticks|
    ensures Adds(ticks[k..]) == (if ticks[k].typ == TickAdd then 1 else 0) + Adds(ticks[k + 1..])
  {
    assert ticks[k..][1..] == ticks[k + 1..];
  }

  lemma NothingYet()
    ensures ServedState([]) == INITIAL && AcceptedCount([]) == 0
  {
  }

  lemma PlayedNext(ticks: seq<Tick>, k: nat, responses: seq<Response>)
    requires k < |ticks| && responses == Collect(Serve(ServedState(ticks[..k]), RequestOf(ticks[k])).1)
    ensures responses == Heard(ticks, k)
    ensures Played(ticks)[..k + 1] == Played(ticks)[..k] + [TickResult(ticks[k], responses)]
  {
    hide Serve, Collect, RequestOf, ServedState;
    assert Played(ticks)[k] == TickResult(ticks[k], Heard(ticks, k));
  }

  lemma KnownTick(ticks: seq<Tick>, k: nat)
    requires GoodTicks(ticks) && AllSendable(ticks) && k < |ticks|
    ensures ticks[k].typ != OtherTick && Sendable(ticks[k]) && Priced(ticks[k]) && WriteTick(ticks[k]).Some?
  {
    hide Sendable, Priced;
  }

  /** A whole closed-loop run against a fresh connection, judged by a fresh validator: as long as the
      connection's arena has room for the orders, every tick is judged correct. */
  method Score(ticks: seq<Tick>) returns (sent: nat, acked: nat, correct: nat)
    requires GoodTicks(ticks) && AllSendable(ticks) && Adds(ticks) <= ARENA
    ensures sent == correct == |ticks| && acked == AcceptedCount(ticks)
  {
    hide Connection.Valid, Validator.Valid, GoodTicks, AllSendable, AcceptedCount, Adds, Played, VerdictAt, StateAfter;
    var conn := new Connection();
    var v := new Validator.WithCapacity(1_000_000);
    var results;
    results, sent, acked := RunTicks(conn, ticks);
    assert AllPriced(ticks) by { GoodIsPriced(ticks); }
    var verdicts := v.Consume(results);
    correct := 0;
    for k := 0 to |verdicts|
      invariant correct == k
    {
      ContestantAlwaysCorrect(ticks, k);
      if verdicts[k].correct {
        correct := correct + 1;
      }
    }
  }

  lemma GoodIsPriced(ticks: seq<Tick>)
    requires GoodTicks(ticks)
    ensures AllPriced(ticks)
  {
  }

  /** The gate before every run: up to ten thousand ticks, which always fit. */
  method SmokeTest(ticks: seq<Tick>) returns (sent: nat, acked: nat, correct: nat)
    requires GoodTicks(ticks) && AllSendable(ticks)
    ensures sent == Min(|ticks|, 10_000) && correct == sent
    ensures acked == AcceptedCount(ticks[..sent])
  {
    hide GoodTicks, AllSendable, AcceptedCount, Adds;
    var warmup := |ticks|;
    if warmup > 10_000 {
      warmup := 10_000;
    }
    PrefixGood(ticks, warmup);
    AddsBound(ticks[..warmup]);
    sent, acked, correct := Score(ticks[..warmup]);
  }
}
