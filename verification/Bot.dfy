/** One bot: a write loop and a read loop sharing the in-flight map, the network in between. */
module BotWorker {
  import opened Protocol

  datatype InFlight = InFlight(intendedAt: nat, tick: Tick)

  datatype BotEvent = BotEvent(orderID: string, intendedAt: nat, tick: Tick, acked: bool, responses: seq<Response>)

  /** The write loop is before a store, between a store and its write, or has returned. */
  datatype Phase = Before | Stored | Stopped

  /** The two loops' variables. `received` is what the read loop has read, `from[i]` the response that
      completed event `i`, and `overwritten` the stores that found their id still in flight. */
  datatype BotState = BotState(
    phase: Phase, stores: nat, sent: nat, inFlight: map<string, InFlight>,
    fills: map<string, seq<Response>>, events: seq<BotEvent>, acked: nat,
    received: seq<Response>, from: seq<nat>, overwritten: nat)

  const START := BotState(Before, 0, 0, map[], map[], [], 0, [], [], 0)

  datatype Action =
    | Store(at: nat)
    | Write(ok: bool)
    | Read(r: Response)
    | Garbled

  /** Wall-clock stamps are positive: zero is how the read loop recognises a missing entry. */
  predicate Enabled(ticks: seq<Tick>, s: BotState, a: Action) {
    match a
    case Store(at) => s.phase == Before && s.stores < |ticks| && at > 0
    case Write(_) => s.phase == Stored
    case _ => true
  }

  function FillsFor(fills: map<string, seq<Response>>, id: string): seq<Response> {
    if id in fills then fills[id] else []
  }

  function HandleResponse(s: BotState, r: Response): BotState {
    var read := s.(received := s.received + [r]);
    if r.FILL? then read.(fills := s.fills[r.orderID := FillsFor(s.fills, r.orderID) + [r]])
    else
      var left, fills := s.inFlight - {r.orderID}, s.fills - {r.orderID};
      if r.orderID !in s.inFlight || s.inFlight[r.orderID].intendedAt == 0 then read.(inFlight := left, fills := fills)
      else
        var e := s.inFlight[r.orderID];
        read.(inFlight := left, fills := fills, acked := s.acked + (if r.ACK? then 1 else 0),
          events := s.events + [BotEvent(r.orderID, e.intendedAt, e.tick, r.ACK?, FillsFor(s.fills, r.orderID) + [r])],
          from := s.from + [|s.received|])
  }

  function Next(ticks: seq<Tick>, s: BotState, a: Action): BotState {
    if !Enabled(ticks, s, a) then s
    else
      match a
      case Store(at) =>
        var t := ticks[s.stores];
        s.(phase := Stored, stores := s.stores + 1, inFlight := s.inFlight[t.orderID := InFlight(at, t)],
          overwritten := s.overwritten + (if t.orderID in s.inFlight then 1 else 0))
      case Write(ok) => if ok then s.(phase := Before, sent := s.sent + 1) else s.(phase := Stopped)
      case Read(r) => HandleResponse(s, r)
      case Garbled => s
  }

  function Run(ticks: seq<Tick>, acts: seq<Action>): BotState {
    if acts == [] then START else Next(ticks, Run(ticks, acts[..|acts| - 1]), acts[|acts| - 1])
  }

  // ----- grouping: every schedule, every network

  /** The FILLs of `id` received since its last terminal response. */
  function Since(received: seq<Response>, id: string): seq<Response> {
    if received == [] then []
    else
      var past, r := received[..|received| - 1], received[|received| - 1];
      if r.orderID != id then Since(past, id) else if r.FILL? then Since(past, id) + [r] else []
  }

  ghost predicate FillsOk(fills: map<string, seq<Response>>, received: seq<Response>) {
    forall id :: FillsFor(fills, id) == Since(received, id)
  }

  ghost predicate EventsOk(received: seq<Response>, from: seq<nat>, events: seq<BotEvent>) {
    && |events| == |from|
    && (forall i :: 0 <= i < |events| ==> Complete(received, from[i], events[i]))
    && (forall i, j :: 0 <= i < j < |from| ==> from[i] < from[j])
  }

  ghost predicate Grouped(s: BotState) {
    FillsOk(s.fills, s.received) && EventsOk(s.received, s.from, s.events)
  }

  /** The event is exactly the FILLs of its id since that id's previous terminal, then its terminal. */
  ghost predicate Complete(received: seq<Response>, at: nat, e: BotEvent) {
    && at < |received| && received[at].Terminal() && e.orderID == received[at].orderID
    && e.responses == Since(received[..at], e.orderID) + [received[at]]
    && e.acked == received[at].ACK?
  }

  lemma SinceSnoc(past: seq<Response>, r: Response, id: string)
    ensures Since(past + [r], id) ==
      if r.orderID != id then Since(past, id) else if r.FILL? then Since(past, id) + [r] else []
  {
    assert (past + [r])[..|past|] == past;
  }

  lemma FillsNext(fills: map<string, seq<Response>>, received: seq<Response>, r: Response)
    requires FillsOk(fills, received)
    ensures r.FILL? ==> FillsOk(fills[r.orderID := FillsFor(fills, r.orderID) + [r]], received + [r])
    ensures r.Terminal() ==> FillsOk(fills - {r.orderID}, received + [r])
  {
    hide Since;
    forall id
      ensures Since(received + [r], id) ==
        if r.orderID != id then FillsFor(fills, id) else if r.FILL? then FillsFor(fills, id) + [r] else []
    {
      SinceSnoc(received, r, id);
    }
  }

  lemma EventsGrow(received: seq<Response>, r: Response, from: seq<nat>, events: seq<BotEvent>)
    requires EventsOk(received, from, events)
    ensures EventsOk(received + [r], from, events)
  {
    hide Since;
    assert forall i :: 0 <= i < |events| ==> (received + [r])[..from[i]] == received[..from[i]];
  }

  lemma NewComplete(received: seq<Response>, r: Response, e: BotEvent)
    requires r.Terminal() && e.orderID == r.orderID && e.acked == r.ACK?
        && e.responses == Since(received, r.orderID) + [r]
    ensures Complete(received + [r], |received|, e)
  {
    hide Since;
    assert (received + [r])[..|received|] == received;
  }

  lemma FromBound(received: seq<Response>, from: seq<nat>, events: seq<BotEvent>)
    requires EventsOk(received, from, events)
    ensures forall i :: 0 <= i < |from| ==> from[i] < |received|
  {
    hide Since;
    assert forall i :: 0 <= i < |events| ==> Complete(received, from[i], events[i]);
  }

  lemma EventsAppend(received: seq<Response>, r: Response, from: seq<nat>, events: seq<BotEvent>, e: BotEvent)
    requires EventsOk(received, from, events) && r.Terminal() && e.orderID == r.orderID && e.acked == r.ACK?
    requires e.responses == Since(received, r.orderID) + [r]
    ensures EventsOk(received + [r], from + [|received|], events + [e])
  {
    hide Complete;
    EventsGrow(received, r, from, events);
    FromBound(received, from, events);
    NewComplete(received, r, e);
  }

  lemma NextGrouped(ticks: seq<Tick>, s: BotState, a: Action)
    requires Grouped(s)
    ensures Grouped(Next(ticks, s, a))
  {
    if a.Read? {
      var id := a.r.orderID;
      FillsNext(s.fills, s.received, a.r);
      EventsGrow(s.received, a.r, s.from, s.events);
      assert FillsFor(s.fills, id) == Since(s.received, id);
      if id in s.inFlight && a.r.Terminal() {
        var e := s.inFlight[id];
        EventsAppend(s.received, a.r, s.from, s.events,
            BotEvent(id, e.intendedAt, e.tick, a.r.ACK?, FillsFor(s.fills, id) + [a.r]));
      }
      hide FillsOk, EventsOk, Since, FillsFor;
    }
  }

  lemma {:induction false} AlwaysGrouped(ticks: seq<Tick>, acts: seq<Action>)
    ensures Grouped(Run(ticks, acts))
  {
    if acts != [] {
      AlwaysGrouped(ticks, acts[..|acts| - 1]);
      NextGrouped(ticks, Run(ticks, acts[..|acts| - 1]), acts[|acts| - 1]);
    }
  }

  // ----- counting: every schedule, every network

  /** Entries and events are filed under their own ticks' ids. */
  ghost predicate Tagged(ticks: seq<Tick>, inFlight: map<string, InFlight>, events: seq<BotEvent>) {
    && (forall id :: id in inFlight ==>
          inFlight[id].intendedAt > 0 && inFlight[id].tick.orderID == id && inFlight[id].tick in ticks)
    && (forall i :: 0 <= i < |events| ==> events[i].tick.orderID == events[i].orderID && events[i].tick in ticks)
  }

  /** Events completed by an ACK. */
  ghost function Accepted(events: seq<BotEvent>): nat {
    if events == [] then 0
    else Accepted(events[..|events| - 1]) + (if events[|events| - 1].acked then 1 else 0)
  }

  lemma AcceptedSnoc(events: seq<BotEvent>, e: BotEvent)
    ensures Accepted(events + [e]) == Accepted(events) + (if e.acked then 1 else 0)
  {
    assert (events + [e])[..|events|] == events;
  }

  ghost predicate Counted(ticks: seq<Tick>, s: BotState) {
    && |s.events| + |s.inFlight| + s.overwritten == s.stores <= |ticks|
    && s.stores == s.sent + (if s.phase == Before then 0 else 1)
    && s.acked == Accepted(s.events) <= |s.events|
    && Tagged(ticks, s.inFlight, s.events)
  }

  lemma SizeStore(m: map<string, InFlight>, id: string, e: InFlight)
    ensures |m[id := e]| == |m| + (if id in m then 0 else 1)
  {
    assert m[id := e].Keys == m.Keys + {id};
  }

  lemma SizeDelete(m: map<string, InFlight>, id: string)
    ensures |m - {id}| == |m| - (if id in m then 1 else 0)
  {
    assert (m - {id}).Keys == m.Keys - {id};
  }

  lemma StoreCounted(ticks: seq<Tick>, s: BotState, at: nat)
    requires Counted(ticks, s) && Enabled(ticks, s, Store(at))
    ensures Counted(ticks, Next(ticks, s, Store(at)))
  {
    SizeStore(s.inFlight, ticks[s.stores].orderID, InFlight(at, ticks[s.stores]));
  }

  lemma TaggedLess(ticks: seq<Tick>, inFlight: map<string, InFlight>, events: seq<BotEvent>, id: string, e: BotEvent)
    requires Tagged(ticks, inFlight, events)
    ensures Tagged(ticks, inFlight - {id}, events)
    ensures id in inFlight && e.orderID == id && e.tick == inFlight[id].tick ==>
        Tagged(ticks, inFlight - {id}, events + [e])
  {
  }

  lemma ReadCounted(ticks: seq<Tick>, s: BotState, r: Response)
    requires Counted(ticks, s)
    ensures Counted(ticks, Next(ticks, s, Read(r)))
  {
    var id := r.orderID;
    SizeDelete(s.inFlight, id);
    if id in s.inFlight {
      var e := s.inFlight[id];
      var event := BotEvent(id, e.intendedAt, e.tick, r.ACK?, FillsFor(s.fills, id) + [r]);
      assert e.intendedAt > 0;
      TaggedLess(ticks, s.inFlight, s.events, id, event);
      AcceptedSnoc(s.events, event);
    } else {
      assert s.inFlight - {id} == s.inFlight;
    }
    hide FillsFor, Tagged, Accepted;
  }

  lemma NextCounted(ticks: seq<Tick>, s: BotState, a: Action)
    requires Counted(ticks, s)
    ensures Counted(ticks, Next(ticks, s, a))
  {
    match a {
      case Store(at) =>
        if Enabled(ticks, s, a) {
          hide Counted;
          StoreCounted(ticks, s, at);
        }
      case Read(r) =>
        hide Counted;
        ReadCounted(ticks, s, r);
      case Write(_) =>
      case Garbled =>
    }
  }

  /** Every store ends as one event, one entry still in flight, or one entry overwritten by a later
      store of the same id; and at most one store is not yet a written tick. */
  lemma {:induction false} AlwaysCounted(ticks: seq<Tick>, acts: seq<Action>)
    ensures Counted(ticks, Run(ticks, acts))
  {
    if acts != [] {
      hide Counted, Next;
      AlwaysCounted(ticks, acts[..|acts| - 1]);
      NextCounted(ticks, Run(ticks, acts[..|acts| - 1]), acts[|acts| - 1]);
    } else {
      assert Counted(ticks, START) by { StartCounted(ticks); }
    }
  }

  lemma StartCounted(ticks: seq<Tick>)
    ensures Counted(ticks, START)
  {
  }

  // ----- the loops' own code

  class Bot {
    const ticks: seq<Tick>
    var phase: Phase
    var stores: nat
    var ticksSent: nat
    var inFlight: map<string, InFlight>
    var fills: map<string, seq<Response>>
    var events: seq<BotEvent>
    var ticksAcked: nat
    ghost var received: seq<Response>
    ghost var from: seq<nat>
    ghost var overwritten: nat

    ghost function State(): BotState
      reads this
    {
      BotState(phase, stores, ticksSent, inFlight, fills, events, ticksAcked, received, from, overwritten)
    }

    /** Every event so far carries its own fills, and every store is accounted for. */
    ghost predicate Valid()
      reads this
    {
      Grouped(State()) && Counted(ticks, State())
    }

    constructor (ticks: seq<Tick>)
      ensures this.ticks == ticks && State() == START && Valid()
    {
      this.ticks := ticks;
      phase, stores, ticksSent, inFlight, fills, events, ticksAcked := Before, 0, 0, map[], map[], [], 0;
      received, from, overwritten := [], [], 0;
    }

    /** First half of a write-loop iteration: the next tick is in flight, whatever was there under its id. */
    method StoreNext(at: nat)
      requires Valid() && phase == Before && stores < |ticks| && at > 0
      modifies this
      ensures Valid() && State() == Next(ticks, old(State()), Store(at))
      ensures stores == old(stores) + 1 && events == old(events) && received == old(received) && phase == Stored
      ensures ticksSent == old(ticksSent) && ticksAcked == old(ticksAcked)
      ensures var t := ticks[old(stores)]; t.orderID in inFlight && inFlight[t.orderID] == InFlight(at, t)
    {
      hide Grouped, Counted;
      ghost var was := State();
      var tick := ticks[stores];
      overwritten := overwritten + if tick.orderID in inFlight then 1 else 0;
      inFlight := inFlight[tick.orderID := InFlight(at, tick)];
      stores := stores + 1;
      phase := Stored;
      NextGrouped(ticks, was, Store(at));
      NextCounted(ticks, was, Store(at));
    }

    /** Second half: the write went through, or the loop returns. */
    method WriteNext(ok: bool)
      requires Valid() && phase == Stored
      modifies this
      ensures Valid() && State() == Next(ticks, old(State()), Write(ok))
      ensures ticksSent == old(ticksSent) + (if ok then 1 else 0) && phase == if ok then Before else Stopped
      ensures State() == old(State()).(phase := phase, sent := ticksSent)
    {
      hide Grouped, Counted;
      ghost var was := State();
      if ok {
        ticksSent := ticksSent + 1;
        phase := Before;
      } else {
        phase := Stopped;
      }
      NextGrouped(ticks, was, Write(ok));
      NextCounted(ticks, was, Write(ok));
    }

    /** One read-loop iteration. A terminal response to a tick in flight becomes one event, which carries the
        FILLs of its id since that id's previous terminal and then the response; nothing else makes one. */
    method ReadNext(resp: Response)
      requires Valid()
      modifies this
      ensures Valid() && State() == Next(ticks, old(State()), Read(resp))
      ensures received == old(received) + [resp] && stores == old(stores)
      ensures inFlight == if resp.Terminal() then old(inFlight) - {resp.orderID} else old(inFlight)
      ensures resp.Terminal() && resp.orderID in old(inFlight) ==>
        var e := old(inFlight)[resp.orderID];
        events == old(events) + [BotEvent(resp.orderID, e.intendedAt, e.tick, resp.ACK?,
                                          Since(old(received), resp.orderID) + [resp])]
      ensures !(resp.Terminal() && resp.orderID in old(inFlight)) ==> events == old(events)
      ensures ticksAcked == old(ticksAcked) + (if resp.ACK? && resp.orderID in old(inFlight) then 1 else 0)
      ensures phase == old(phase) && ticksSent == old(ticksSent)
    {
      hide Grouped, Counted, FillsFor, Since;
      ghost var was := State();
      GroupedFills(was, resp.orderID);
      CountedStamps(ticks, was);
      NextGrouped(ticks, was, Read(resp));
      NextCounted(ticks, was, Read(resp));
      received := received + [resp];
      if resp.FILL? {
        fills := fills[resp.orderID := FillsFor(fills, resp.orderID) + [resp]];
        return;
      }
      var intendedAt: nat := 0;
      var tick := Tick(OtherTick, "", ' ', ' ', 0, 0);
      if resp.orderID in inFlight {
        var e := inFlight[resp.orderID];
        intendedAt, tick := e.intendedAt, e.tick;
      }
      inFlight := inFlight - {resp.orderID};
      if intendedAt == 0 {
        fills := fills - {resp.orderID};
        return;
      }
      var acked := resp.ACK?;
      if acked {
        ticksAcked := ticksAcked + 1;
      }
      var allResponses := FillsFor(fills, resp.orderID) + [resp];
      fills := fills - {resp.orderID};
      events := events + [BotEvent(resp.orderID, intendedAt, tick, acked, allResponses)];
      from := from + [|received| - 1];
    }
  }

  lemma GroupedFills(s: BotState, id: string)
    requires Grouped(s)
    ensures FillsFor(s.fills, id) == Since(s.received, id)
  {
  }

  lemma CountedStamps(ticks: seq<Tick>, s: BotState)
    requires Counted(ticks, s)
    ensures forall id :: id in s.inFlight ==> s.inFlight[id].intendedAt > 0
  {
  }

  /** Drive a bot through any interleaving of its two loops and the network. */
  method Drive(ticks: seq<Tick>, acts: seq<Action>) returns (bot: Bot)
    ensures fresh(bot) && bot.ticks == ticks && bot.State() == Run(ticks, acts) && bot.Valid()
  {
    hide Next, Grouped, Counted, Run;
    bot := new Bot(ticks);
    assert Run(ticks, acts[..0]) == START by { NothingRun(ticks, acts[..0]); }
    for i := 0 to |acts|
      invariant fresh(bot) && bot.ticks == ticks && bot.State() == Run(ticks, acts[..i]) && bot.Valid()
    {
      RunSnoc(ticks, acts[..i], acts[i]);
      assert acts[..i + 1] == acts[..i] + [acts[i]];
      match acts[i] {
        case Store(at) =>
          if bot.phase == Before && bot.stores < |ticks| && at > 0 {
            bot.StoreNext(at);
          } else {
            Stutters(ticks, bot.State(), acts[i]);
          }
        case Write(ok) =>
          if bot.phase == Stored {
            bot.WriteNext(ok);
          } else {
            Stutters(ticks, bot.State(), acts[i]);
          }
        case Read(r) =>
          bot.ReadNext(r);
        case Garbled =>
          Stutters(ticks, bot.State(), acts[i]);
      }
    }
    assert acts[..|acts|] == acts;
  }

  lemma NothingRun(ticks: seq<Tick>, acts: seq<Action>)
    requires acts == []
    ensures Run(ticks, acts) == START
  {
  }

  lemma Stutters(ticks: seq<Tick>, s: BotState, a: Action)
    requires !Enabled(ticks, s, a) || a.Garbled?
    ensures Next(ticks, s, a) == s
  {
  }

  lemma RunSnoc(ticks: seq<Tick>, past: seq<Action>, a: Action)
    ensures Run(ticks, past + [a]) == Next(ticks, Run(ticks, past), a)
  {
    assert (past + [a])[..|past|] == past;
  }

  /** Once a write has failed no schedule stores or writes another tick. */
  lemma {:induction false} StoppedForGood(ticks: seq<Tick>, acts: seq<Action>, more: seq<Action>)
    requires Run(ticks, acts).phase == Stopped
    ensures var s, t := Run(ticks, acts), Run(ticks, acts + more);
      t.phase == Stopped && t.stores == s.stores && t.sent == s.sent
  {
    if more == [] {
      assert acts + more == acts;
    } else {
      var past, a := more[..|more| - 1], more[|more| - 1];
      StoppedForGood(ticks, acts, past);
      RunSnoc(ticks, acts + past, a);
      assert acts + more == acts + past + [a];
      hide Run;
    }
  }

  // ----- ids in flight twice

  /** No two ticks carry the same id. */
  ghost predicate OwnIds(ticks: seq<Tick>) {
    forall i, j :: 0 <= i < j < |ticks| ==> ticks[i].orderID != ticks[j].orderID
  }

  ghost predicate StoredBefore(ticks: seq<Tick>, n: nat, id: string) {
    exists i :: 0 <= i < n && i < |ticks| && ticks[i].orderID == id
  }

  lemma StoredIs(ticks: seq<Tick>, n: nat, m: nat)
    requires n <= m
    ensures forall id :: StoredBefore(ticks, n, id) ==> StoredBefore(ticks, m, id)
    ensures n < m && n < |ticks| ==> StoredBefore(ticks, m, ticks[n].orderID)
  {
    forall id | StoredBefore(ticks, n, id)
      ensures StoredBefore(ticks, m, id)
    {
      var i :| 0 <= i < n && i < |ticks| && ticks[i].orderID == id;
      assert 0 <= i < m;
    }
    if n < m && n < |ticks| {
      assert 0 <= n < m && ticks[n].orderID == ticks[n].orderID;
    }
  }

  ghost predicate FromStores(ticks: seq<Tick>, s: BotState) {
    forall id :: id in s.inFlight ==> StoredBefore(ticks, s.stores, id)
  }

  lemma NextFromStores(ticks: seq<Tick>, s: BotState, a: Action)
    requires FromStores(ticks, s)
    ensures FromStores(ticks, Next(ticks, s, a))
  {
    var t := Next(ticks, s, a);
    StoredIs(ticks, s.stores, s.stores + 1);
    hide FillsFor, StoredBefore;
    forall id | id in t.inFlight
      ensures StoredBefore(ticks, t.stores, id)
    {
      if t.stores != s.stores && id == ticks[s.stores].orderID {
      } else {
        assert id in s.inFlight;
      }
    }
  }

  lemma {:induction false} InFlightWasStored(ticks: seq<Tick>, acts: seq<Action>)
    ensures FromStores(ticks, Run(ticks, acts))
  {
    if acts != [] {
      InFlightWasStored(ticks, acts[..|acts| - 1]);
      NextFromStores(ticks, Run(ticks, acts[..|acts| - 1]), acts[|acts| - 1]);
    }
  }

  lemma {:induction false} OwnIdsNeverOverwrite(ticks: seq<Tick>, acts: seq<Action>)
    requires OwnIds(ticks)
    ensures Run(ticks, acts).overwritten == 0
  {
    if acts != [] {
      OwnIdsNeverOverwrite(ticks, acts[..|acts| - 1]);
      InFlightWasStored(ticks, acts[..|acts| - 1]);
      hide FillsFor;
    }
  }

  /** Write `m` ticks and read nothing. */
  function StoreAll(m: nat): seq<Action> {
    if m == 0 then [] else StoreAll(m - 1) + [Store(1)] + [Write(true)]
  }

  /** The first `m` ticks are stored and written, and an entry is in flight under the id of each. */
  ghost predicate FirstStored(ticks: seq<Tick>, s: BotState, m: nat) {
    m <= |ticks| && s.stores == m && s.phase == Before && forall i :: 0 <= i < m ==> ticks[i].orderID in s.inFlight
  }

  lemma {:induction false} StoreAllStores(ticks: seq<Tick>, m: nat)
    requires m <= |ticks|
    ensures FirstStored(ticks, Run(ticks, StoreAll(m)), m)
  {
    if m > 0 {
      StoreAllStores(ticks, m - 1);
      RunSnoc(ticks, StoreAll(m - 1), Store(1));
      RunSnoc(ticks, StoreAll(m - 1) + [Store(1)], Write(true));
      hide Run, Next, FirstStored;
      OneMoreStored(ticks, Run(ticks, StoreAll(m - 1)), m - 1);
    }
  }

  lemma StoreAllHolds(ticks: seq<Tick>, m: nat)
    requires m <= |ticks|
    ensures var s := Run(ticks, StoreAll(m));
      s.stores == m && s.phase == Before && forall i :: 0 <= i < m ==> ticks[i].orderID in s.inFlight
  {
    hide Run, StoreAll;
    StoreAllStores(ticks, m);
  }

  lemma OneMoreStored(ticks: seq<Tick>, s: BotState, m: nat)
    requires FirstStored(ticks, s, m) && m < |ticks|
    ensures FirstStored(ticks, Next(ticks, Next(ticks, s, Store(1)), Write(true)), m + 1)
  {
    hide HandleResponse;
  }

  lemma RepeatedIdOverwrites(ticks: seq<Tick>, i: nat, j: nat)
    requires i < j < |ticks| && ticks[i].orderID == ticks[j].orderID
    ensures Run(ticks, StoreAll(j) + [Store(1)]).overwritten > 0
  {
    StoreAllHolds(ticks, j);
    RunSnoc(ticks, StoreAll(j), Store(1));
    hide Run;
  }

  /** No schedule and no network can put an id in flight twice if and only if no two ticks share one. */
  lemma NeverOverwritesIff(ticks: seq<Tick>)
    ensures (forall acts: seq<Action> :: Run(ticks, acts).overwritten == 0) <==> OwnIds(ticks)
  {
    hide Run;
    if OwnIds(ticks) {
      forall acts: seq<Action>
        ensures Run(ticks, acts).overwritten == 0
      {
        OwnIdsNeverOverwrite(ticks, acts);
      }
    } else {
      var i, j :| 0 <= i < j < |ticks| && ticks[i].orderID == ticks[j].orderID;
      RepeatedIdOverwrites(ticks, i, j);
    }
  }

  /** Every stored tick has become an event exactly when none is in flight and no id was in flight twice. */
  lemma AllReportedIff(ticks: seq<Tick>, acts: seq<Action>)
    ensures var s := Run(ticks, acts); |s.events| == s.stores <==> s.inFlight == map[] && s.overwritten == 0
  {
    AlwaysCounted(ticks, acts);
  }

  // ----- one event a tick, in tick order

  function Answers(received: seq<Response>): nat {
    if received == [] then 0
    else Answers(received[..|received| - 1]) + (if received[|received| - 1].Terminal() then 1 else 0)
  }

  /** Terminal responses come in tick order, each after its tick was stored. */
  ghost predicate InOrder(ticks: seq<Tick>, acts: seq<Action>) {
    forall i :: 0 <= i < |acts| && acts[i].Read? && acts[i].r.Terminal() ==>
      var s := Run(ticks, acts[..i]);
      var k := Answers(s.received);
      k < s.stores && k < |ticks| && acts[i].r.orderID == ticks[k].orderID
  }

  /** In flight are exactly the stored ticks that have no event yet, each under its own id. */
  ghost predicate Window(ticks: seq<Tick>, s: BotState) {
    && |s.events| <= s.stores <= |ticks|
    && (forall j :: |s.events| <= j < s.stores ==>
          ticks[j].orderID in s.inFlight && s.inFlight[ticks[j].orderID].tick == ticks[j])
    && (forall i, j :: |s.events| <= i < j < s.stores ==> ticks[i].orderID != ticks[j].orderID)
  }

  ghost predicate OneEach(ticks: seq<Tick>, s: BotState) {
    && |s.events| == Answers(s.received) <= |ticks|
    && (forall k :: 0 <= k < |s.events| ==> s.events[k].tick == ticks[k])
    && |s.from| == |s.events|
    && (forall k :: 0 <= k < |s.from| ==> s.from[k] < |s.received| && Answers(s.received[..s.from[k]]) == k)
  }

  lemma StoreWindow(ticks: seq<Tick>, s: BotState, at: nat)
    requires Counted(ticks, s) && Window(ticks, s) && OneEach(ticks, s)
    requires Enabled(ticks, s, Store(at)) && ticks[s.stores].orderID !in s.inFlight
    ensures Window(ticks, Next(ticks, s, Store(at))) && OneEach(ticks, Next(ticks, s, Store(at)))
  {
    hide HandleResponse, Answers, Tagged, Accepted, Complete;
  }

  lemma ReadFill(ticks: seq<Tick>, s: BotState, r: Response)
    requires Window(ticks, s) && OneEach(ticks, s) && r.FILL?
    ensures Window(ticks, Next(ticks, s, Read(r))) && OneEach(ticks, Next(ticks, s, Read(r)))
  {
    var t := Next(ticks, s, Read(r));
    assert t.received[..|s.received|] == s.received;
    assert forall k :: 0 <= k < |s.from| ==> t.received[..s.from[k]] == s.received[..s.from[k]];
    hide FillsFor;
  }

  /** The terminal response is the oldest unanswered tick's. */
  ghost predicate AnswersOldest(ticks: seq<Tick>, s: BotState, r: Response) {
    && r.Terminal() && |s.events| < s.stores && |s.events| < |ticks| && r.orderID == ticks[|s.events|].orderID
    && r.orderID in s.inFlight && s.inFlight[r.orderID].intendedAt > 0
  }

  lemma TerminalWindow(ticks: seq<Tick>, s: BotState, r: Response)
    requires Window(ticks, s) && AnswersOldest(ticks, s, r)
    ensures Window(ticks, Next(ticks, s, Read(r)))
  {
    hide FillsFor;
  }

  lemma TerminalOneEach(ticks: seq<Tick>, s: BotState, r: Response)
    requires OneEach(ticks, s) && AnswersOldest(ticks, s, r) && s.inFlight[r.orderID].tick == ticks[|s.events|]
    ensures OneEach(ticks, Next(ticks, s, Read(r)))
  {
    hide FillsFor;
    var t := Next(ticks, s, Read(r));
    assert t.received[..|s.received|] == s.received;
    assert forall k :: 0 <= k < |s.from| ==> t.received[..s.from[k]] == s.received[..s.from[k]];
  }

  lemma ReadWindow(ticks: seq<Tick>, s: BotState, r: Response)
    requires Counted(ticks, s) && Window(ticks, s) && OneEach(ticks, s)
    requires r.Terminal() ==>
      |s.events| < s.stores && |s.events| < |ticks| && r.orderID == ticks[|s.events|].orderID
    ensures Window(ticks, Next(ticks, s, Read(r))) && OneEach(ticks, Next(ticks, s, Read(r)))
  {
    if r.FILL? {
      ReadFill(ticks, s, r);
    } else {
      TerminalWindow(ticks, s, r);
      TerminalOneEach(ticks, s, r);
    }
    hide Next, OneEach;
  }

  lemma InOrderPrefix(ticks: seq<Tick>, acts: seq<Action>, n: nat)
    requires InOrder(ticks, acts) && n <= |acts|
    ensures InOrder(ticks, acts[..n])
  {
    hide Run, Answers;
    assert forall i :: 0 <= i < n ==> acts[..n][i] == acts[i] && acts[..n][..i] == acts[..i];
  }

  /** Overwrites are never undone; a store that adds none found its id free. */
  lemma OverwritesGrow(ticks: seq<Tick>, s: BotState, a: Action)
    ensures Next(ticks, s, a).overwritten >= s.overwritten
    ensures a.Store? && Enabled(ticks, s, a) && Next(ticks, s, a).overwritten == s.overwritten ==>
      ticks[s.stores].orderID !in s.inFlight
  {
  }

  /** If no id was in flight twice and the answers come in order, event `k` is tick `k`'s. */
  lemma {:induction false} OneEventPerTick(ticks: seq<Tick>, acts: seq<Action>)
    requires InOrder(ticks, acts) && Run(ticks, acts).overwritten == 0
    ensures Window(ticks, Run(ticks, acts)) && OneEach(ticks, Run(ticks, acts))
  {
    if acts != [] {
      hide Window, OneEach, Counted, HandleResponse;
      var n := |acts| - 1;
      var s, a := Run(ticks, acts[..n]), acts[n];
      InOrderPrefix(ticks, acts, n);
      OverwritesGrow(ticks, s, a);
      OneEventPerTick(ticks, acts[..n]);
      AlwaysCounted(ticks, acts[..n]);
      match a {
        case Store(at) =>
          if Enabled(ticks, s, a) {
            StoreWindow(ticks, s, at);
          }
        case Read(r) =>
          OldestUnanswered(ticks, acts, n);
          ReadWindow(ticks, s, r);
        case Write(_) => WriteWindow(ticks, s, a);
        case Garbled =>
      }
    } else {
      assert Run(ticks, acts) == START;
    }
  }

  lemma OldestUnanswered(ticks: seq<Tick>, acts: seq<Action>, n: nat)
    requires InOrder(ticks, acts) && n < |acts| && acts[n].Read? && OneEach(ticks, Run(ticks, acts[..n]))
    ensures var s := Run(ticks, acts[..n]);
      acts[n].r.Terminal() ==>
        |s.events| < s.stores && |s.events| < |ticks| && acts[n].r.orderID == ticks[|s.events|].orderID
  {
    hide Run, Answers;
  }

  lemma WriteWindow(ticks: seq<Tick>, s: BotState, a: Action)
    requires Window(ticks, s) && OneEach(ticks, s) && a.Write?
    ensures Window(ticks, Next(ticks, s, a)) && OneEach(ticks, Next(ticks, s, a))
  {
  }

  /** With ids of their own, answers in order alone make event `k` tick `k`'s. */
  lemma OwnIdsOneEventPerTick(ticks: seq<Tick>, acts: seq<Action>)
    requires OwnIds(ticks) && InOrder(ticks, acts)
    ensures OneEach(ticks, Run(ticks, acts))
  {
    OwnIdsNeverOverwrite(ticks, acts);
    OneEventPerTick(ticks, acts);
  }

  // ----- when one event a tick can be relied on

  /** Acknowledge the first `n` ticks, in order. */
  function ReadAcks(ticks: seq<Tick>, n: nat): seq<Action>
    requires n <= |ticks|
  {
    if n == 0 then [] else ReadAcks(ticks, n - 1) + [Read(ACK(ticks[n - 1].orderID))]
  }

  lemma {:induction false} StoreAllSilent(ticks: seq<Tick>, m: nat)
    ensures Run(ticks, StoreAll(m)).received == []
    ensures forall i :: 0 <= i < |StoreAll(m)| ==> !StoreAll(m)[i].Read?
  {
    if m > 0 {
      StoreAllSilent(ticks, m - 1);
      RunSnoc(ticks, StoreAll(m - 1), Store(1));
      RunSnoc(ticks, StoreAll(m - 1) + [Store(1)], Write(true));
      hide Run;
    }
  }

  lemma InOrderSnoc(ticks: seq<Tick>, acts: seq<Action>, a: Action)
    requires InOrder(ticks, acts)
    requires a.Read? && a.r.Terminal() ==>
      var s := Run(ticks, acts);
      Answers(s.received) < s.stores && Answers(s.received) < |ticks|
      && a.r.orderID == ticks[Answers(s.received)].orderID
    ensures InOrder(ticks, acts + [a])
  {
    hide Run, Answers;
    var more := acts + [a];
    assert more[..|acts|] == acts;
    assert forall i :: 0 <= i < |acts| ==> more[i] == acts[i] && more[..i] == acts[..i];
  }

  /** Reading leaves what was stored and overwritten as it is; a terminal response is one more answer. */
  lemma ReadAnswers(ticks: seq<Tick>, s: BotState, r: Response)
    ensures var t := Next(ticks, s, Read(r));
      && t.stores == s.stores && t.overwritten == s.overwritten
      && Answers(t.received) == Answers(s.received) + (if r.Terminal() then 1 else 0)
  {
    hide FillsFor;
    assert (s.received + [r])[..|s.received|] == s.received;
  }

  lemma NoAnswers(received: seq<Response>)
    requires received == []
    ensures Answers(received) == 0
  {
  }

  lemma SilentInOrder(ticks: seq<Tick>, acts: seq<Action>)
    requires forall i :: 0 <= i < |acts| ==> !acts[i].Read?
    ensures InOrder(ticks, acts)
  {
  }

  /** Stored up to and including tick `j`, nothing read, an id in flight twice. */
  lemma StoredTwice(ticks: seq<Tick>, i: nat, j: nat)
    requires i < j < |ticks| && ticks[i].orderID == ticks[j].orderID
    ensures var base := StoreAll(j) + [Store(1)];
      var s := Run(ticks, base);
      InOrder(ticks, base) && s.received == [] && s.stores == j + 1 && s.overwritten > 0
  {
    StoreAllHolds(ticks, j);
    StoreAllSilent(ticks, j);
    RunSnoc(ticks, StoreAll(j), Store(1));
    RepeatedIdOverwrites(ticks, i, j);
    hide Run, InOrder;
    SilentInOrder(ticks, StoreAll(j) + [Store(1)]);
  }

  lemma MissesOne(ticks: seq<Tick>, s: BotState)
    requires |s.events| != Answers(s.received)
    ensures !OneEach(ticks, s)
  {
  }

  lemma {:induction false} AcksInOrder(ticks: seq<Tick>, base: seq<Action>, n: nat)
    requires InOrder(ticks, base) && Run(ticks, base).received == [] && n <= Run(ticks, base).stores <= |ticks|
    ensures var acts := base + ReadAcks(ticks, n); var s := Run(ticks, acts);
      && InOrder(ticks, acts) && Answers(s.received) == n
      && s.stores == Run(ticks, base).stores && s.overwritten == Run(ticks, base).overwritten
  {
    hide Run, InOrder, Answers, Next;
    if n == 0 {
      assert base + [] == base;
      assert Answers(Run(ticks, base).received) == 0 by { NoAnswers(Run(ticks, base).received); }
    } else {
      var past, r := base + ReadAcks(ticks, n - 1), ACK(ticks[n - 1].orderID);
      assert base + ReadAcks(ticks, n) == past + [Read(r)];
      AcksInOrder(ticks, base, n - 1);
      InOrderSnoc(ticks, past, Read(r));
      RunSnoc(ticks, past, Read(r));
      ReadAnswers(ticks, Run(ticks, past), r);
    }
  }

  /** Store everything up to a repeated id, then answer it all in order: an event is missing. */
  lemma RepeatedIdLosesAnEvent(ticks: seq<Tick>, i: nat, j: nat)
    requires i < j < |ticks| && ticks[i].orderID == ticks[j].orderID
    ensures var acts := StoreAll(j) + [Store(1)] + ReadAcks(ticks, j + 1);
      InOrder(ticks, acts) && !OneEach(ticks, Run(ticks, acts))
  {
    hide Run, InOrder, Answers, OneEach, StoreAll, ReadAcks;
    var base := StoreAll(j) + [Store(1)];
    StoredTwice(ticks, i, j);
    AcksInOrder(ticks, base, j + 1);
    AllReportedIff(ticks, base + ReadAcks(ticks, j + 1));
    MissesOne(ticks, Run(ticks, base + ReadAcks(ticks, j + 1)));
  }

  /** Answers in order give every tick its own event, in every interleaving, if and only if no two ticks
      share an id. */
  lemma OneEventPerTickIff(ticks: seq<Tick>)
    ensures (forall acts: seq<Action> :: InOrder(ticks, acts) ==> OneEach(ticks, Run(ticks, acts)))
       <==> OwnIds(ticks)
  {
    hide Run, InOrder, OneEach;
    if OwnIds(ticks) {
      forall acts: seq<Action> | InOrder(ticks, acts)
        ensures OneEach(ticks, Run(ticks, acts))
      {
        OwnIdsOneEventPerTick(ticks, acts);
      }
    } else {
      var i, j :| 0 <= i < j < |ticks| && ticks[i].orderID == ticks[j].orderID;
      RepeatedIdLosesAnEvent(ticks, i, j);
    }
  }

  // ----- an ADD and its CAN in flight together

  function ExampleBuy(id: string): Tick {
    Tick(TickAdd, id, 'B', 'L', 1, 1)
  }

  function ExampleCancel(id: string): Tick {
    Tick(TickCancel, id, ' ', ' ', 0, 0)
  }

  /** Both answers arrive, in order, and only one event comes out: the cancel's, with the add's answer. */
  lemma CollidingIdsLoseAnEvent(id: string, at: nat)
    requires at > 0
    ensures var ticks := [ExampleBuy(id), ExampleCancel(id)];
      var acts := [] + [Store(at)] + [Write(true)] + [Store(at)] + [Write(true)] + [Read(ACK(id))] +
          [Read(REJ(id, "x"))];
      Run(ticks, acts).events == [BotEvent(id, at, ExampleCancel(id), true, [ACK(id)])]
  {
    var ticks := [ExampleBuy(id), ExampleCancel(id)];
    var a1 := [] + [Store(at)];
    var a2 := a1 + [Write(true)];
    var a3 := a2 + [Store(at)];
    var a4 := a3 + [Write(true)];
    var a5 := a4 + [Read(ACK(id))];
    RunSnoc(ticks, [], Store(at));
    RunSnoc(ticks, a1, Write(true));
    RunSnoc(ticks, a2, Store(at));
    RunSnoc(ticks, a3, Write(true));
    RunSnoc(ticks, a4, Read(ACK(id)));
    RunSnoc(ticks, a5, Read(REJ(id, "x")));
    assert Run(ticks, []) == START;
    hide Run, Since;
    var fly := Run(ticks, a4).inFlight;
    assert Run(ticks, a4).fills == map[] && Run(ticks, a4).events == [] && Run(ticks, a4).received == [];
    assert id !in fly - {id};
    var e := BotEvent(id, at, ExampleCancel(id), true, [ACK(id)]);
    assert [] + [ACK(id)] == [ACK(id)];
    assert Run(ticks, a5).events == [e] && id !in Run(ticks, a5).inFlight;
    assert id in Run(ticks, a4).inFlight && Run(ticks, a4).inFlight[id] == InFlight(at, ExampleCancel(id));
  }
}
