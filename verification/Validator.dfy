/** The validator: replay every tick through its own reference and judge what the contestant said. */
module Validation {
  import opened PriceTime
  import opened History
  import opened Protocol
  import opened LinkedBook
  import opened Sequencing
  import opened ExternalView
  import opened Contestant

  datatype Violation = NoViolation | Overfill | Underfill | PriceTimePriority | WrongPrice | ZombieFill | CancelMismatch

  datatype Verdict = Verdict(index: nat, orderID: string, correct: bool, violation: Violation)

  datatype TickResult = TickResult(tick: Tick, responses: seq<Response>)

  /** The reference and the ids cancelled so far. */
  datatype ValState = ValState(seq_: SeqState, cancelled: set<string>)

  const START := ValState(INITIAL, {})

  // ----- judging one tick

  function FillsOf(responses: seq<Response>): seq<Response> {
    if responses == [] then []
    else if responses[0].FILL? then [responses[0]] + FillsOf(responses[1..])
    else FillsOf(responses[1..])
  }

  predicate Zombie(got: seq<Response>, cancelled: set<string>) {
    exists i :: 0 <= i < |got| && got[i].FILL? && got[i].maker in cancelled
  }

  /** The first fill that differs decides. */
  function Compare(want: seq<Fill<string>>, got: seq<Response>): Violation
    requires |want| == |got| && forall i :: 0 <= i < |got| ==> got[i].FILL?
  {
    if want == [] then NoViolation
    else if got[0].maker != want[0].maker || got[0].taker != want[0].taker then PriceTimePriority
    else if got[0].price != want[0].price then WrongPrice
    else if got[0].qty != want[0].qty then (if got[0].qty > want[0].qty then Overfill else Underfill)
    else Compare(want[1..], got[1..])
  }

  lemma {:induction false} FillsOfAreFills(responses: seq<Response>)
    ensures forall i :: 0 <= i < |FillsOf(responses)| ==> FillsOf(responses)[i].FILL?
  {
    if responses != [] {
      FillsOfAreFills(responses[1..]);
    }
  }

  function JudgeAdd(want: seq<Fill<string>>, responses: seq<Response>, cancelled: set<string>): Violation {
    FillsOfAreFills(responses);
    var got := FillsOf(responses);
    if Zombie(got, cancelled) then ZombieFill
    else if |got| > |want| then Overfill
    else if |got| < |want| then Underfill
    else Compare(want, got)
  }

  /** Type of the first terminal response, if any: true for an ACK. */
  function FirstTerminalIsACK(responses: seq<Response>): bool {
    if responses == [] then false
    else if responses[0].Terminal() then responses[0].ACK?
    else FirstTerminalIsACK(responses[1..])
  }

  function VerifyTick(v: ValState, idx: nat, r: TickResult): (ValState, Verdict) {
    var t := r.tick;
    match t.typ
    case TickAdd =>
      var a := SeqAdd(v.seq_, t.orderID, SideFromByte(t.side), OrdTypeFromByte(t.ordType), t.price, t.qty);
      var violation := JudgeAdd(ExtFills(a.1.fills, a.0.revMap), r.responses, v.cancelled);
      (v.(seq_ := a.0), Verdict(idx, t.orderID, violation == NoViolation, violation))
    case TickCancel =>
      var c := SeqCancel(v.seq_, t.orderID);
      var agrees := c.1 == FirstTerminalIsACK(r.responses);
      (ValState(c.0, if c.1 then v.cancelled + {t.orderID} else v.cancelled),
       Verdict(idx, t.orderID, agrees, if agrees then NoViolation else CancelMismatch))
    case OtherTick => (v, Verdict(idx, t.orderID, false, NoViolation))
  }

  function StateAfter(results: seq<TickResult>): ValState {
    if results == [] then START
    else VerifyTick(StateAfter(results[..|results| - 1]), |results| - 1, results[|results| - 1]).0
  }

  function VerdictAt(results: seq<TickResult>, k: nat): Verdict
    requires k < |results|
  {
    VerifyTick(StateAfter(results[..k]), k, results[k]).1
  }

  // ----- the replaying class

  class Validator {
    const sequencer: Sequencer

    ghost predicate Valid()
      reads sequencer, sequencer.book, sequencer.book.Repr
    {
      sequencer.Valid()
    }

    constructor WithCapacity(capacity: nat)
      ensures Valid() && fresh(sequencer) && fresh(sequencer.book) && fresh(sequencer.book.Repr)
          && fresh(sequencer.book.arena)
      ensures sequencer.State() == INITIAL && sequencer.Room() == capacity
    {
      hide Sequencer.Valid, SeqOk;
      sequencer := new Sequencer(capacity);
    }

    /** Drain the results, one verdict each. */
    method Consume(results: seq<TickResult>) returns (verdicts: seq<Verdict>)
      requires Valid() && sequencer.State() == INITIAL && sequencer.Room() >= Adds(TicksOf(results))
      requires AllPriced(TicksOf(results))
      modifies sequencer, sequencer.book, sequencer.book.Repr
      ensures Valid() && sequencer.State() == StateAfter(results).seq_
      ensures |verdicts| == |results| && forall k :: 0 <= k < |results| ==> verdicts[k] == VerdictAt(results, k)
    {
      hide Sequencer.Valid, VerifyTick, FillsOf, Charged, ExtFills, SeqAdd;
      var cancelled: set<string> := {};
      verdicts := [];
      assert results[..0] == [];
      for idx := 0 to |results|
        invariant Valid() && ValState(sequencer.State(), cancelled) == StateAfter(results[..idx])
        invariant sequencer.Room() >= Adds(TicksOf(results)[idx..])
        invariant old(sequencer.book.Repr) <= sequencer.book.Repr
            && fresh(sequencer.book.Repr - old(sequencer.book.Repr))
        invariant |verdicts| == idx && forall k :: 0 <= k < idx ==> verdicts[k] == VerdictAt(results, k)
      {
        assert TicksOf(results)[idx..][1..] == TicksOf(results)[idx+1..];
        assert results[..idx+1][..idx] == results[..idx];
        var verdict;
        verdict, cancelled := Verify(idx, results[idx], cancelled);
        verdicts := verdicts + [verdict];
      }
      assert results[..|results|] == results;
    }

    method Verify(idx: nat, r: TickResult, cancelled0: set<string>) returns (verdict: Verdict, cancelled: set<string>)
      requires Valid() && Priced(r.tick) && (r.tick.typ == TickAdd ==> sequencer.Room() > 0)
      modifies sequencer, sequencer.book, sequencer.book.Repr
      ensures Valid()
      ensures old(sequencer.book.Repr) <= sequencer.book.Repr && fresh(sequencer.book.Repr - old(sequencer.book.Repr))
      ensures sequencer.Room() == old(sequencer.Room()) - (if r.tick.typ == TickAdd then 1 else 0)
      ensures (ValState(sequencer.State(), cancelled), verdict) ==
          VerifyTick(ValState(old(sequencer.State()), cancelled0), idx, r)
      ensures verdict.index == idx && verdict.orderID == r.tick.orderID
      ensures r.tick.typ == TickAdd ==>
        var t, got := r.tick, FillsOf(r.responses);
        var a := SeqAdd(old(sequencer.State()), t.orderID, if t.side == 'B' then Buy else Sell,
                        if t.ordType == 'L' then Limit else Market, t.price, t.qty);
        && (verdict.correct <==> verdict.violation == NoViolation)
        && Charged(verdict.violation, ExtFills(a.1.fills, a.0.revMap), got,
                   exists i :: 0 <= i < |got| && got[i].FILL? && got[i].maker in cancelled0)
    {
      hide Sequencer.Valid, SeqAdd, SeqCancel, JudgeAdd, Charged, FillsOf, ExtFills;
      var t := r.tick;
      match t.typ {
        case TickAdd =>
          var fills, rests, _ := sequencer.Add(t.orderID, SideFromByte(t.side), OrdTypeFromByte(t.ordType), t.price,
              t.qty);
          var violation := JudgeAdd(ExtFills(fills, sequencer.revMap), r.responses, cancelled0);
          JudgedExactly(ExtFills(fills, sequencer.revMap), r.responses, cancelled0);
          return Verdict(idx, t.orderID, violation == NoViolation, violation), cancelled0;
        case TickCancel =>
          var ref := sequencer.Cancel(t.orderID);
          cancelled := if ref == CancelOK then cancelled0 + {t.orderID} else cancelled0;
          var gotACK := FirstACK(r.responses);
          if (ref == CancelOK) != gotACK {
            return Verdict(idx, t.orderID, false, CancelMismatch), cancelled;
          }
          return Verdict(idx, t.orderID, true, NoViolation), cancelled;
        case OtherTick =>
          return Verdict(idx, t.orderID, false, NoViolation), cancelled0;
      }
    }
  }

  /** Scan for the contestant's terminal response. */
  method FirstACK(responses: seq<Response>) returns (ack: bool)
    ensures ack == FirstTerminalIsACK(responses)
  {
    for i := 0 to |responses|
      invariant FirstTerminalIsACK(responses) == FirstTerminalIsACK(responses[i..])
    {
      assert responses[i..][1..] == responses[i+1..];
      if responses[i].Terminal() {
        return responses[i].ACK?;
      }
    }
    return false;
  }

  /** The book keeps 0 for an empty side, so limit prices are positive. */
  ghost predicate Priced(t: Tick) {
    t.typ == TickAdd && OrdTypeFromByte(t.ordType) == Limit ==> t.price > 0
  }

  /** Orders a tick list places: each takes one slot of an arena, for good. */
  function Adds(ticks: seq<Tick>): nat {
    if ticks == [] then 0 else (if ticks[0].typ == TickAdd then 1 else 0) + Adds(ticks[1..])
  }

  lemma {:induction false} AddsBound(ticks: seq<Tick>)
    ensures Adds(ticks) <= |ticks|
  {
    if ticks != [] {
      AddsBound(ticks[1..]);
    }
  }

  lemma {:induction false} AddsConcat(a: seq<Tick>, b: seq<Tick>)
    ensures Adds(a + b) == Adds(a) + Adds(b)
  {
    if a == [] {
      assert a + b == b;
    } else {
      assert (a + b)[1..] == a[1..] + b;
      AddsConcat(a[1..], b);
    }
  }

  // ----- what a verdict means

  ghost predicate Matches(f: Fill<string>, r: Response) {
    r.FILL? && r.maker == f.maker && r.taker == f.taker && r.price == f.price && r.qty == f.qty
  }

  /** The responses' fills are the wanted ones, field by field and in order. */
  ghost predicate SameFills(want: seq<Fill<string>>, got: seq<Response>) {
    |want| == |got| && forall i :: 0 <= i < |want| ==> Matches(want[i], got[i])
  }

  lemma {:induction false} CompareExact(want: seq<Fill<string>>, got: seq<Response>)
    requires |want| == |got| && forall i :: 0 <= i < |got| ==> got[i].FILL?
    ensures Compare(want, got) == NoViolation <==> SameFills(want, got)
  {
    if want != [] {
      CompareExact(want[1..], got[1..]);
      assert forall i :: 1 <= i < |want| ==> want[i] == want[1..][i - 1] && got[i] == got[1..][i - 1];
      if SameFills(want, got) {
        assert Matches(want[0], got[0]);
      }
    }
  }

  /** No hypotheses: an ADD passes exactly when its fills are the reference's and none of them names a
      maker recorded as cancelled. */
  lemma AddPassesIff(want: seq<Fill<string>>, responses: seq<Response>, cancelled: set<string>)
    ensures JudgeAdd(want, responses, cancelled) == NoViolation
       <==> SameFills(want, FillsOf(responses)) && forall i :: 0 <= i < |want| ==> want[i].maker !in cancelled
  {
    var got := FillsOf(responses);
    FillsOfAreFills(responses);
    if |got| == |want| {
      CompareExact(want, got);
    }
    if SameFills(want, got) {
      assert forall i :: 0 <= i < |want| ==> Matches(want[i], got[i]);
    }
  }

  /** The fills agree before place `i`, and not there. */
  ghost predicate FirstDiffers(want: seq<Fill<string>>, got: seq<Response>, i: nat) {
    i < |want| == |got| && (forall j :: 0 <= j < i ==> Matches(want[j], got[j])) && !Matches(want[i], got[i])
  }

  /** What is wrong with one fill that is not the wanted one: who trades, then the price, then the quantity. */
  function Difference(want: Fill<string>, got: Response): Violation
    requires got.FILL?
  {
    if got.maker == want.maker && got.taker == want.taker && got.price == want.price then
      if got.qty > want.qty then Overfill else Underfill
    else if got.maker == want.maker && got.taker == want.taker then WrongPrice
    else PriceTimePriority
  }

  lemma DiffersTail(want: seq<Fill<string>>, got: seq<Response>, i: nat)
    requires 0 < i && FirstDiffers(want, got, i)
    ensures Matches(want[0], got[0]) && FirstDiffers(want[1..], got[1..], i - 1)
  {
    assert forall j :: 0 <= j < |want| - 1 ==> want[1..][j] == want[j + 1] && got[1..][j] == got[j + 1];
  }

  lemma {:induction false} CompareKind(want: seq<Fill<string>>, got: seq<Response>, i: nat)
    requires FirstDiffers(want, got, i) && forall j :: 0 <= j < |got| ==> got[j].FILL?
    ensures Compare(want, got) == Difference(want[i], got[i])
  {
    if i > 0 {
      DiffersTail(want, got, i);
      CompareKind(want[1..], got[1..], i - 1);
    }
  }

  lemma {:induction false} SomeDiffers(want: seq<Fill<string>>, got: seq<Response>)
    requires |want| == |got| && !SameFills(want, got)
    ensures exists i: nat :: FirstDiffers(want, got, i)
  {
    if Matches(want[0], got[0]) {
      assert forall j :: 0 <= j < |want| - 1 ==> want[1..][j] == want[j + 1] && got[1..][j] == got[j + 1];
      SomeDiffers(want[1..], got[1..]);
      var i: nat :| FirstDiffers(want[1..], got[1..], i);
      assert FirstDiffers(want, got, i + 1);
    } else {
      assert FirstDiffers(want, got, 0);
    }
  }

  /** Which violation an ADD is charged with, of any fills against any others. */
  ghost predicate Charged(violation: Violation, want: seq<Fill<string>>, got: seq<Response>, zombie: bool) {
    && (violation == ZombieFill <==> zombie)
    && (!zombie && |got| > |want| ==> violation == Overfill)
    && (!zombie && |got| < |want| ==> violation == Underfill)
    && (!zombie && |got| == |want| ==> (violation == NoViolation <==> SameFills(want, got)))
    && (!zombie && |got| == |want| && violation != NoViolation ==> exists i: nat :: FirstDiffers(want, got, i))
    && (!zombie ==> forall i: nat :: FirstDiffers(want, got, i) && got[i].FILL? ==>
          && (got[i].maker != want[i].maker || got[i].taker != want[i].taker ==> violation == PriceTimePriority)
          && (got[i].maker == want[i].maker && got[i].taker == want[i].taker ==>
                && (got[i].price != want[i].price ==> violation == WrongPrice)
                && (got[i].price == want[i].price && got[i].qty > want[i].qty ==> violation == Overfill)
                && (got[i].price == want[i].price && got[i].qty < want[i].qty ==> violation == Underfill)))
  }

  lemma JudgedExactly(want: seq<Fill<string>>, responses: seq<Response>, cancelled: set<string>)
    ensures var got := FillsOf(responses);
      && (forall i :: 0 <= i < |got| ==> got[i].FILL?)
      && Charged(JudgeAdd(want, responses, cancelled), want, got,
                 exists i :: 0 <= i < |got| && got[i].FILL? && got[i].maker in cancelled)
  {
    var got := FillsOf(responses);
    FillsOfAreFills(responses);
    if |got| == |want| {
      CompareExact(want, got);
      CompareNeverZombie(want, got);
      if !SameFills(want, got) {
        SomeDiffers(want, got);
      }
      forall i: nat | FirstDiffers(want, got, i)
        ensures Compare(want, got) == Difference(want[i], got[i])
      {
        CompareKind(want, got, i);
      }
    }
  }

  lemma {:induction false} CompareNeverZombie(want: seq<Fill<string>>, got: seq<Response>)
    requires |want| == |got| && forall i :: 0 <= i < |got| ==> got[i].FILL?
    ensures Compare(want, got) != ZombieFill
  {
    if want != [] {
      CompareNeverZombie(want[1..], got[1..]);
    }
  }

  /** The fills of a run of responses are those of its parts, in order, and nothing but its fills. */
  lemma {:induction false} FillsOfConcat(a: seq<Response>, b: seq<Response>)
    ensures FillsOf(a + b) == FillsOf(a) + FillsOf(b)
    ensures forall r: Response :: FillsOf([r]) == if r.FILL? then [r] else []
  {
    forall r: Response
      ensures FillsOf([r]) == if r.FILL? then [r] else []
    {
      assert [r][1..] == [];
    }
    if a == [] {
      assert a + b == b;
    } else {
      assert (a + b)[1..] == a[1..] + b;
      FillsOfConcat(a[1..], b);
    }
  }

  /** The first terminal response decides: an ACK with nothing but FILLs before it. */
  lemma {:induction false} FirstTerminal(responses: seq<Response>)
    ensures FirstTerminalIsACK(responses)
       <==> exists i :: 0 <= i < |responses| && responses[i].ACK? && forall j :: 0 <= j < i ==> responses[j].FILL?
  {
    if responses != [] {
      var rest := responses[1..];
      FirstTerminal(rest);
      assert forall j :: 0 <= j < |rest| ==> rest[j] == responses[j + 1];
      if responses[0].FILL? && FirstTerminalIsACK(rest) {
        var i :| 0 <= i < |rest| && rest[i].ACK? && forall j :: 0 <= j < i ==> rest[j].FILL?;
        assert responses[i + 1].ACK? && forall j :: 0 <= j < i + 1 ==> responses[j].FILL?;
      }
      if i :| 0 <= i < |responses| && responses[i].ACK? && forall j :: 0 <= j < i ==> responses[j].FILL? {
        if i > 0 {
          assert rest[i - 1].ACK? && forall j :: 0 <= j < i - 1 ==> rest[j].FILL?;
        }
      }
    }
  }

  // ----- verdicts over a run

  function CommandOf(t: Tick): Cmd<string> {
    if t.typ == TickAdd then
        Submit(Order(t.orderID, if t.side == 'B' then Buy else Sell, if t.ordType == 'L' then Limit else Market,
                     t.price, t.qty, 0))
    else Cmd.Cancel(t.orderID)
  }

  function Commands(ticks: seq<Tick>): (cmds: seq<Cmd<string>>)
    ensures |cmds| == |ticks| && forall i :: 0 <= i < |ticks| ==> cmds[i] == CommandOf(ticks[i])
  {
    seq(|ticks|, i requires 0 <= i < |ticks| => CommandOf(ticks[i]))
  }

  function TicksOf(results: seq<TickResult>): (ticks: seq<Tick>)
    ensures |ticks| == |results| && forall i :: 0 <= i < |results| ==> ticks[i] == results[i].tick
  {
    seq(|results|, i requires 0 <= i < |results| => results[i].tick)
  }

  ghost predicate AllPriced(ticks: seq<Tick>) {
    forall i :: 0 <= i < |ticks| ==> Priced(ticks[i])
  }

  /** Known tick types, positive limit prices, and no order id added twice. */
  ghost predicate GoodTicks(ticks: seq<Tick>) {
    && AllPriced(ticks)
    && (forall i :: 0 <= i < |ticks| ==> ticks[i].typ != OtherTick)
    && (forall i, j :: 0 <= i < j < |ticks| && ticks[i].typ == TickAdd && ticks[j].typ == TickAdd ==>
        ticks[i].orderID != ticks[j].orderID)
  }

  lemma GoodCommands(ticks: seq<Tick>)
    requires GoodTicks(ticks)
    ensures FreshIds(Commands(ticks)) && Admissible(Commands(ticks))
  {
  }

  /** The ids whose cancel the reference has accepted. */
  ghost predicate CancelledBy(cmds: seq<Cmd<string>>, id: string) {
    exists k :: 0 <= k < |cmds| && cmds[k] == Cmd.Cancel(id) && ReplyAt(cmds, k) == Answered(true)
  }

  lemma CancelledNext(past: seq<Cmd<string>>, c: Cmd<string>, id: string)
    ensures CancelledBy(past + [c], id)
       <==> CancelledBy(past, id) || (c == Cmd.Cancel(id) && ReplyAt(past + [c], |past|) == Answered(true))
  {
    var cmds := past + [c];
    assert forall k :: 0 <= k < |past| ==> cmds[k] == past[k] && cmds[..k] == past[..k];
    if CancelledBy(past, id) {
      var k :| 0 <= k < |past| && past[k] == Cmd.Cancel(id) && ReplyAt(past, k) == Answered(true);
      assert cmds[k] == Cmd.Cancel(id) && ReplyAt(cmds, k) == Answered(true);
    }
    if CancelledBy(cmds, id) {
      var k :| 0 <= k < |cmds| && cmds[k] == Cmd.Cancel(id) && ReplyAt(cmds, k) == Answered(true);
      if k < |past| {
        assert past[k] == Cmd.Cancel(id) && ReplyAt(past, k) == Answered(true);
      }
    }
  }

  /** One more tick moves the reference by its command, and records its id if that cancelled. */
  lemma TickMoves(past: seq<TickResult>, r: TickResult)
    requires r.tick.typ != OtherTick
    ensures var v := StateAfter(past);
      StateAfter(past + [r]) ==
        ValState(SeqStep(v.seq_, CommandOf(r.tick)),
          if r.tick.typ == TickCancel && SeqCancel(v.seq_, r.tick.orderID).1
          then v.cancelled + {r.tick.orderID} else v.cancelled)
  {
    hide SeqAdd, SeqCancel, JudgeAdd;
    assert (past + [r])[..|past|] == past;
  }

  lemma CancelIsAnswered(s: SeqState, t: Tick)
    requires t.typ != OtherTick
    ensures SeqReply(s, CommandOf(t)) == Answered(true) <==> t.typ == TickCancel && SeqCancel(s, t.orderID).1
    ensures CommandOf(t).Cancel? <==> t.typ == TickCancel
    ensures CommandOf(t).Cancel? ==> CommandOf(t).id == t.orderID
  {
    hide SeqAdd, SeqCancel;
  }

  lemma LastTick(results: seq<TickResult>)
    requires results != [] && GoodTicks(TicksOf(results))
    ensures var n := |results| - 1; var cmds := Commands(TicksOf(results));
      && results == results[..n] + [results[n]] && results[n].tick.typ != OtherTick
      && GoodTicks(TicksOf(results[..n])) && Commands(TicksOf(results[..n])) == cmds[..n]
      && cmds == cmds[..n] + [CommandOf(results[n].tick)]
      && SeqReply(SeqAfter(cmds[..n]), CommandOf(results[n].tick)) == ReplyAt(cmds, n)
  {
    var n := |results| - 1;
    PrefixTicks(results, n);
    GoodCommands(TicksOf(results));
    assert TicksOf(results)[n].typ != OtherTick;
    hide GoodTicks, SeqReply, ReplyAt, FreshIds, Admissible;
    SeqRepliesAreExternal(Commands(TicksOf(results)), n);
  }

  /** The validator's state is the sequenced reference after the ticks, whatever was answered. */
  lemma {:induction false} StateIsReference(results: seq<TickResult>)
    requires GoodTicks(TicksOf(results))
    ensures StateAfter(results).seq_ == SeqAfter(Commands(TicksOf(results)))
    ensures forall id :: id in StateAfter(results).cancelled <==> CancelledBy(Commands(TicksOf(results)), id)
  {
    if results != [] {
      hide GoodTicks, SeqStep, SeqCancel, SeqReply, ReplyAt, CancelledBy, StateAfter, CommandOf;
      var n := |results| - 1;
      var past, r := results[..n], results[n];
      var cmds := Commands(TicksOf(results));
      LastTick(results);
      StateIsReference(past);
      TickMoves(past, r);
      CancelIsAnswered(StateAfter(past).seq_, r.tick);
      forall id
        ensures id in StateAfter(results).cancelled <==> CancelledBy(cmds, id)
      {
        CancelledNext(cmds[..n], CommandOf(r.tick), id);
      }
    }
  }

  lemma PrefixTicks(results: seq<TickResult>, k: nat)
    requires k <= |results|
    ensures TicksOf(results[..k]) == TicksOf(results)[..k]
    ensures Commands(TicksOf(results[..k])) == Commands(TicksOf(results))[..k]
    ensures GoodTicks(TicksOf(results)) ==> GoodTicks(TicksOf(results[..k]))
  {
    assert forall i :: 0 <= i < k ==> TicksOf(results[..k])[i] == TicksOf(results)[i];
  }

  /** With every id added once, no fill the reference makes names an order recorded as cancelled. */
  lemma NoReferenceZombie(cmds: seq<Cmd<string>>, k: nat, i: nat)
    requires FreshIds(cmds) && k < |cmds| && ReplyAt(cmds, k).Accepted? && i < |ReplyAt(cmds, k).fills|
    ensures !CancelledBy(cmds[..k], ReplyAt(cmds, k).fills[i].maker)
  {
    var maker := ReplyAt(cmds, k).fills[i].maker;
    if CancelledBy(cmds[..k], maker) {
      var j :| 0 <= j < k && cmds[..k][j] == Cmd.Cancel(maker) && ReplyAt(cmds[..k], j) == Answered(true);
      assert cmds[..k][..j] == cmds[..j];
      NoFillAfterCancel(cmds, j, k);
    }
  }

  /** An ADD is judged correct if and only if the FILL responses are the reference's fills. */
  lemma AddVerdictExact(results: seq<TickResult>, k: nat)
    requires GoodTicks(TicksOf(results)) && k < |results| && results[k].tick.typ == TickAdd
    ensures var ref := ReplyAt(Commands(TicksOf(results)), k);
      ref.Accepted? && (VerdictAt(results, k).correct <==> SameFills(ref.fills, FillsOf(results[k].responses)))
  {
    var cmds := Commands(TicksOf(results));
    var r, v := results[k], StateAfter(results[..k]);
    PrefixTicks(results, k);
    StateIsReference(results[..k]);
    GoodCommands(TicksOf(results));
    SeqRepliesAreExternal(cmds, k);
    var ref := ReplyAt(cmds, k);
    AddPassesIff(ref.fills, r.responses, v.cancelled);
    forall i | 0 <= i < |ref.fills|
      ensures ref.fills[i].maker !in v.cancelled
    {
      NoReferenceZombie(cmds, k, i);
    }
  }

  /** A cancel is judged correct if and only if the first terminal response is an ACK exactly when the
      reference cancelled. */
  lemma CancelVerdictExact(results: seq<TickResult>, k: nat)
    requires GoodTicks(TicksOf(results)) && k < |results| && results[k].tick.typ == TickCancel
    ensures VerdictAt(results, k).correct
       <==> FirstTerminalIsACK(results[k].responses) == (ReplyAt(Commands(TicksOf(results)), k) == Answered(true))
  {
    var cmds := Commands(TicksOf(results));
    PrefixTicks(results, k);
    StateIsReference(results[..k]);
    GoodCommands(TicksOf(results));
    SeqRepliesAreExternal(cmds, k);
  }

  /** The whole verdict on an ADD: what it is about, whether it is correct, and which violation it names in
      terms of the reference's fills, the FILL responses and the ids whose cancel the reference accepted. */
  lemma AddVerdictKind(results: seq<TickResult>, k: nat)
    requires GoodTicks(TicksOf(results)) && k < |results| && results[k].tick.typ == TickAdd
    ensures var cmds := Commands(TicksOf(results));
      var v, ref, got := VerdictAt(results, k), ReplyAt(cmds, k), FillsOf(results[k].responses);
      && v.index == k && v.orderID == results[k].tick.orderID && (v.correct <==> v.violation == NoViolation)
      && (forall i :: 0 <= i < |got| ==> got[i].FILL?)
      && ref.Accepted?
      && Charged(v.violation, ref.fills, got, exists i :: 0 <= i < |got| && CancelledBy(cmds[..k], got[i].maker))
  {
    var cmds := Commands(TicksOf(results));
    var r, v := results[k], StateAfter(results[..k]);
    PrefixTicks(results, k);
    StateIsReference(results[..k]);
    GoodCommands(TicksOf(results));
    SeqRepliesAreExternal(cmds, k);
    JudgedExactly(ReplyAt(cmds, k).fills, r.responses, v.cancelled);
    hide Charged, JudgeAdd, CancelledBy, GoodTicks, FreshIds, Admissible, SeqAdd, ReplyAt;
  }

  /** The whole verdict on a cancel. */
  lemma CancelVerdictKind(results: seq<TickResult>, k: nat)
    requires GoodTicks(TicksOf(results)) && k < |results| && results[k].tick.typ == TickCancel
    ensures var v, rs := VerdictAt(results, k), results[k].responses;
      var acked := exists i :: 0 <= i < |rs| && rs[i].ACK? && forall j :: 0 <= j < i ==> rs[j].FILL?;
      && v.index == k && v.orderID == results[k].tick.orderID
      && v.correct == (acked == (ReplyAt(Commands(TicksOf(results)), k) == Answered(true)))
      && v.violation == if v.correct then NoViolation else CancelMismatch
  {
    CancelVerdictExact(results, k);
    FirstTerminal(results[k].responses);
    hide FirstTerminalIsACK, ReplyAt, SeqCancel, StateAfter;
  }

  /** A tick of unknown type is never correct, is charged with nothing and changes nothing. */
  lemma OtherVerdict(results: seq<TickResult>, k: nat)
    requires k < |results| && results[k].tick.typ == OtherTick
    ensures VerdictAt(results, k) == Verdict(k, results[k].tick.orderID, false, NoViolation)
    ensures StateAfter(results[..k + 1]) == StateAfter(results[..k])
  {
    assert results[..k + 1][..k] == results[..k];
  }

  // ----- verdicts are local

  lemma StateSnoc(results: seq<TickResult>)
    requires results != []
    ensures var n := |results| - 1;
      StateAfter(results) == VerifyTick(StateAfter(results[..n]), n, results[n]).0
  {
    hide VerifyTick;
  }

  lemma MoveIgnoresResponses(v: ValState, idx: nat, a: TickResult, b: TickResult)
    requires a.tick == b.tick
    ensures VerifyTick(v, idx, a).0 == VerifyTick(v, idx, b).0
  {
    hide SeqAdd, SeqCancel, JudgeAdd, FirstTerminalIsACK;
  }

  lemma {:induction false} StateIgnoresResponses(a: seq<TickResult>, b: seq<TickResult>)
    requires TicksOf(a) == TicksOf(b)
    ensures StateAfter(a) == StateAfter(b)
  {
    hide *;
    var n := |TicksOf(a)|;
    assert |a| == n && |b| == n;
    if n == 0 {
      assert a == [] && b == [];
    } else {
      assert a[n - 1].tick == TicksOf(a)[n - 1] && b[n - 1].tick == TicksOf(b)[n - 1];
      PrefixTicks(a, n - 1);
      PrefixTicks(b, n - 1);
      StateIgnoresResponses(a[..n - 1], b[..n - 1]);
      StateSnoc(a);
      StateSnoc(b);
      MoveIgnoresResponses(StateAfter(a[..n - 1]), n - 1, a[n - 1], b[n - 1]);
    }
  }

  /** Two runs over the same ticks agree on every tick whose own responses agree. */
  lemma VerdictsAreLocal(a: seq<TickResult>, b: seq<TickResult>, k: nat)
    requires TicksOf(a) == TicksOf(b) && AllPriced(TicksOf(a)) && k < |a| && a[k].responses == b[k].responses
    ensures VerdictAt(a, k) == VerdictAt(b, k)
  {
    assert TicksOf(a)[k] == TicksOf(b)[k];
    assert TicksOf(a[..k]) == TicksOf(a)[..k] && TicksOf(b[..k]) == TicksOf(b)[..k];
    StateIgnoresResponses(a[..k], b[..k]);
  }

  // ----- where the zombie check goes wrong

  function BuyA(): Tick {
    Tick(TickAdd, "a", 'B', 'L', 1, 1)
  }

  function SellB(): Tick {
    Tick(TickAdd, "b", 'S', 'L', 1, 1)
  }

  function CancelA(): Tick {
    Tick(TickCancel, "a", 'B', 'L', 0, 0)
  }

  /** Buy under an id, cancel it, buy under the same id again, sell. */
  function Readding(last: seq<Response>): seq<TickResult> {
    [TickResult(BuyA(), []), TickResult(CancelA(), []), TickResult(BuyA(), []), TickResult(SellB(), last)]
  }

  function BidBook(id: nat): View<nat> {
    View([Entry(id, 1, 1)], [])
  }

  lemma BuyRests(id: nat)
    ensures var o: Order<nat> := Order(id, Buy, Limit, 1, 1, 0);
      AddOrder(View([], []), o) == Added(BidBook(id), [], true)
  {
    var e: Entry<nat> := Entry(id, 1, 1);
    assert Insert<nat>([], e, Buy) == [e];
  }

  lemma BuyCancels()
    ensures CancelOrder(BidBook(1), 1) == (View([], []), true)
  {
    var v := BidBook(1);
    assert v.bids[0].id == 1;
    assert RemoveId(v.bids, 1) == [];
  }

  lemma ReaddSteps()
    ensures var first := SeqState(2, map["a" := 1], map[1 := "a"], BidBook(1));
      && SeqStep(INITIAL, CommandOf(BuyA())) == first
      && SeqCancel(first, "a") == (first.(view := View([], [])), true)
    ensures var gone := SeqState(2, map["a" := 1], map[1 := "a"], View([], []));
      SeqStep(gone, CommandOf(BuyA())) == SeqState(3, map["a" := 2], map[1 := "a", 2 := "a"], BidBook(2))
  {
    hide AddOrder, CancelOrder, BidBook;
    BuyRests(1);
    BuyRests(2);
    BuyCancels();
    assert map["a" := 1]["a" := 2] == map["a" := 2];
  }

  lemma ReaddSell()
    ensures var second := SeqState(3, map["a" := 2], map[1 := "a", 2 := "a"], BidBook(2));
      SeqReply(second, CommandOf(SellB())) == Accepted([Fill("a", "b", 1, 1)], false)
  {
    var o: Order<nat> := Order(3, Sell, Limit, 1, 1, 0);
    var makers := BidBook(2).bids;
    assert Walk(makers[1..], o, 0) == Walked([], [], 0);
    var f: seq<Fill<nat>> := [Fill(2, 3, 1, 1)];
    assert Walk(makers, o, 1) == Walked(f, [], 0);
    var m: map<nat, string> := map[1 := "a", 2 := "a", 3 := "b"];
    assert ExtFills(f[1..], m) == [];
    assert ExtFills(f, m) == [Fill("a", "b", 1, 1)];
  }

  lemma ReaddState(last: seq<Response>)
    ensures StateAfter(Readding(last)[..3]) ==
      ValState(SeqState(3, map["a" := 2], map[1 := "a", 2 := "a"], BidBook(2)), {"a"})
  {
    var buy, cancel := TickResult(BuyA(), []), TickResult(CancelA(), []);
    ReaddSteps();
    assert Readding(last)[..3] == [] + [buy] + [cancel] + [buy];
    hide SeqAdd, SeqCancel, JudgeAdd, VerifyTick, StateAfter;
    TickMoves([], buy);
    TickMoves([] + [buy], cancel);
    TickMoves([] + [buy] + [cancel], buy);
    EmptyState();
  }

  lemma EmptyState()
    ensures StateAfter([]) == START
  {
  }

  /** Adding an id again after its cancel: whatever is answered, the last tick either misses the
      reference's fill or is called a zombie. */
  lemma ReaddedIdIsCalledZombie(last: seq<Response>)
    ensures SeqReply(StateAfter(Readding(last)[..3]).seq_, CommandOf(SellB())) ==
        Accepted([Fill("a", "b", 1, 1)], false)
    ensures !VerdictAt(Readding(last), 3).correct
  {
    ReaddState(last);
    ReaddSell();
    var v := StateAfter(Readding(last)[..3]);
    var want := [Fill("a", "b", 1, 1)];
    AddPassesIff(want, last, v.cancelled);
    assert want[0].maker in v.cancelled;
    hide SeqAdd, JudgeAdd, StateAfter;
  }
}
