/** Any number of goroutines calling the sequencer at once, in front of one engine goroutine. Every
    atomic action of the code is one event; a schedule is any sequence of events. An add that finds the
    engine's arena full ends the process. */
module Concurrent {
  import opened PriceTime
  import opened History
  import opened ExternalView

  const QUEUE_CAPACITY := 4096

  datatype Call =
    | AddCall(ext: string, side: Side, typ: OrderType, price: int, qty: int)
    | CancelCall(ext: string)

  /** The call as a command over external ids. */
  function Outer(call: Call): Cmd<string> {
    match call
    case AddCall(ext, side, typ, price, qty) => Submit(Order(ext, side, typ, price, qty, 0))
    case CancelCall(ext) => Cmd.Cancel(ext)
  }

  /** The call as the engine sees it. */
  function Inner(call: Call, id: nat): Cmd<nat> {
    match call
    case AddCall(_, side, typ, price, qty) => Submit(Order(id, side, typ, price, qty, 0))
    case CancelCall(_) => Cmd.Cancel(id)
  }

  /** The book keeps 0 for an empty side: callers give limit orders positive prices. */
  predicate Callable(call: Call) {
    call.AddCall? && call.typ == Limit ==> call.price > 0
  }

  /** Where a goroutine is inside its current call, which it made at time `since`. */
  datatype Client =
    | Idle
    | Called(call: Call, since: nat)
    | Claimed(call: Call, since: nat, id: nat)
    | Ready(call: Call, since: nat, id: nat)
    | Waiting(call: Call, since: nat, id: nat)
    | Served(call: Call, since: nat, reply: Reply<nat>, k: nat)

  datatype Queued = Queued(client: nat, cmd: Cmd<nat>)

  /** The moment a call took effect. */
  datatype Mark = Mark(client: nat, cmd: Cmd<string>, time: nat)

  datatype Return = Return(client: nat, call: Call, reply: Reply<string>, since: nat, at: nat, k: nat)

  /** The shared state of the code, the goroutines, and what has happened so far: `inner[k]` is the
      command that took effect at `marks[k]`. A lookup that finds nothing also takes effect; it is
      entered as a cancel of id 0, which no order has. */
  datatype Sys = Sys(
    capacity: nat, used: nat, crashed: bool, clock: nat, nextID: nat, idMap: map<string, nat>, revMap: map<nat, string>,
    queue: seq<Queued>, view: View<nat>, clients: map<nat, Client>,
    inner: seq<Cmd<nat>>, marks: seq<Mark>, done: seq<Return>, started: seq<string>)

  function IdleSystem(capacity: nat): Sys {
    Sys(capacity, 0, false, 0, 1, map[], map[], [], View([], []), map[], [], [], [], [])
  }

  datatype Event =
    | Invoke(client: nat, call: Call)
    | Claim(client: nat)
    | WriteMaps(client: nat)
    | Lookup(client: nat)
    | Enqueue(client: nat)
    | Dispatch
    | Receive(client: nat)

  function At(s: Sys, c: nat): Client {
    if c in s.clients then s.clients[c] else Idle
  }

  function Move(s: Sys, c: nat, cl: Client): Sys {
    s.(clients := s.clients[c := cl])
  }

  function ExtReply(r: Reply<nat>, m: map<nat, string>): Reply<string> {
    match r
    case Accepted(fills, rests) => Accepted(ExtFills(fills, m), rests)
    case Answered(b) => Answered(b)
  }

  predicate Enabled(s: Sys, e: Event) {
    !s.crashed &&
    match e
    case Invoke(c, call) => At(s, c).Idle? && Callable(call)
    case Claim(c) => At(s, c).Called? && At(s, c).call.AddCall?
    case WriteMaps(c) => At(s, c).Claimed?
    case Lookup(c) => At(s, c).Called? && At(s, c).call.CancelCall?
    case Enqueue(c) => At(s, c).Ready? && |s.queue| < QUEUE_CAPACITY
    case Dispatch => s.queue != [] && At(s, s.queue[0].client).Waiting?
    case Receive(c) => At(s, c).Served?
  }

  function Act(s: Sys, e: Event): Sys
    requires Enabled(s, e)
  {
    match e
    case Invoke(c, call) =>
      Move(s, c, Called(call, s.clock)).(started := if call.AddCall? then s.started + [call.ext] else s.started)
    case Claim(c) =>
      var cl := At(s, c);
      Move(s, c, Claimed(cl.call, cl.since, s.nextID)).(nextID := s.nextID + 1)
    case WriteMaps(c) =>
      var cl := At(s, c);
      Move(s, c, Ready(cl.call, cl.since, cl.id))
      .(idMap := s.idMap[cl.call.ext := cl.id], revMap := s.revMap[cl.id := cl.call.ext])
    case Lookup(c) =>
      var cl := At(s, c);
      if cl.call.ext in s.idMap then Move(s, c, Ready(cl.call, cl.since, s.idMap[cl.call.ext]))
      else TakesEffect(s, c, Cmd.Cancel(0), Answered(false))
    case Enqueue(c) =>
      var cl := At(s, c);
      Move(s, c, Waiting(cl.call, cl.since, cl.id)).(queue := s.queue + [Queued(c, Inner(cl.call, cl.id))])
    case Dispatch =>
      var cmd := s.queue[0].cmd;
      if cmd.Submit? && s.used >= s.capacity then s.(crashed := true)
      else
        var r := Step(s.view, cmd);
        TakesEffect(s, s.queue[0].client, cmd, r.1)
        .(view := r.0, queue := s.queue[1..], used := s.used + (if cmd.Submit? then 1 else 0))
    case Receive(c) =>
      var cl := At(s, c);
      Move(s, c, Idle).(done := s.done + [Return(c, cl.call, ExtReply(cl.reply, s.revMap), cl.since, s.clock, cl.k)])
  }

  function TakesEffect(s: Sys, c: nat, cmd: Cmd<nat>, reply: Reply<nat>): Sys
    requires At(s, c).Called? || At(s, c).Waiting?
  {
    var cl := At(s, c);
    Move(s, c, Served(cl.call, cl.since, reply, |s.marks|))
    .(inner := s.inner + [cmd], marks := s.marks + [Mark(c, Outer(cl.call), s.clock)])
  }

  /** An event that cannot happen leaves everything as it is. */
  function Next(s: Sys, e: Event): Sys {
    (if Enabled(s, e) then Act(s, e) else s).(clock := s.clock + 1)
  }

  function Exec(capacity: nat, events: seq<Event>): Sys {
    if events == [] then IdleSystem(capacity) else Next(Exec(capacity, events[..|events| - 1]), events[|events| - 1])
  }

  // ----- what every schedule keeps

  ghost predicate Known(r: Reply<nat>, m: map<nat, string>) {
    r.Accepted? ==> forall i :: 0 <= i < |r.fills| ==> r.fills[i].maker in m && r.fills[i].taker in m
  }

  ghost predicate MapsOk(s: Sys) {
    && s.nextID > 0
    && (forall id: nat :: id in s.revMap ==> 0 < id < s.nextID)
    && (forall ext :: ext in s.idMap ==> s.idMap[ext] in s.revMap && s.revMap[s.idMap[ext]] == ext)
  }

  /** The internal id an unfinished add holds. */
  predicate Holds(cl: Client, id: nat) {
    (cl.Claimed? || cl.Ready? || cl.Waiting?) && cl.call.AddCall? && cl.id == id
  }

  ghost predicate ClientOk(s: Sys, c: nat, cl: Client) {
    && (cl.Idle? || cl.since <= s.clock)
    && (cl.Claimed? ==> cl.call.AddCall? && 0 < cl.id < s.nextID && cl.id !in s.revMap)
    && (cl.Ready? || cl.Waiting? ==>
          && cl.id in s.revMap && s.revMap[cl.id] == cl.call.ext
          && (cl.call.AddCall? ==> !Submitted(s.inner, cl.id)))
    && (cl.Served? ==>
          && cl.k < |s.marks| == |s.inner|
          && s.marks[cl.k].client == c && s.marks[cl.k].cmd == Outer(cl.call) && cl.since <= s.marks[cl.k].time
          && cl.reply == ReplyAt(s.inner, cl.k))
  }

  ghost predicate ClientsOk(s: Sys) {
    && (forall c :: c in s.clients ==> ClientOk(s, c, s.clients[c]))
    && (forall c, d, id: nat :: c in s.clients && d in s.clients && c != d && Holds(s.clients[c], id) ==>
        !Holds(s.clients[d], id))
  }

  ghost predicate LogOk(s: Sys) {
    && |s.inner| == |s.marks|
    && FreshIds(s.inner)
    && (forall id :: Submitted(s.inner, id) ==> id in s.revMap)
    && s.view == After(s.inner)
    && (forall k :: 0 <= k < |s.inner| ==> Known(ReplyAt(s.inner, k), s.revMap))
    && (forall k :: 0 <= k < |s.marks| ==> s.marks[k].time < s.clock)
    && (forall j, k :: 0 <= j < k < |s.marks| ==> s.marks[j].time < s.marks[k].time)
  }

  ghost predicate InQueue(queue: seq<Queued>, c: nat) {
    exists i :: 0 <= i < |queue| && queue[i].client == c
  }

  ghost predicate QueueOk(s: Sys) {
    && |s.queue| <= QUEUE_CAPACITY
    && (forall i :: 0 <= i < |s.queue| ==>
          var cl := At(s, s.queue[i].client); cl.Waiting? && s.queue[i].cmd == Inner(cl.call, cl.id))
    && (forall i, j :: 0 <= i < j < |s.queue| ==> s.queue[i].client != s.queue[j].client)
    && (forall c :: c in s.clients && s.clients[c].Waiting? ==> InQueue(s.queue, c))
  }

  ghost predicate ReturnOk(s: Sys, r: Return) {
    && r.k < |s.marks| == |s.inner|
    && s.marks[r.k].client == r.client && s.marks[r.k].cmd == Outer(r.call)
    && r.since <= s.marks[r.k].time < r.at <= s.clock
    && r.reply == ExtReply(ReplyAt(s.inner, r.k), s.revMap)
  }

  ghost predicate ReturnsOk(s: Sys) {
    && (forall i :: 0 <= i < |s.done| ==> ReturnOk(s, s.done[i]))
    && (forall i, j :: 0 <= i < j < |s.done| && s.done[i].client == s.done[j].client ==>
        s.done[i].at <= s.done[j].since)
    && (forall i :: 0 <= i < |s.done| && !At(s, s.done[i].client).Idle? ==>
        s.done[i].at <= At(s, s.done[i].client).since)
  }

  ghost predicate Inv(s: Sys) {
    MapsOk(s) && ClientsOk(s) && LogOk(s) && QueueOk(s) && ReturnsOk(s)
  }

  /** The reply reads the same through either map, and stays known. */
  ghost predicate SameReading(r: Reply<nat>, m: map<nat, string>, more: map<nat, string>) {
    ExtReply(r, more) == ExtReply(r, m) && (Known(r, m) ==> Known(r, more))
  }

  /** An event inside one call that does not take effect: client `c` moves to `cl`, the maps may gain
      the id it held, and nothing is written to the log. */
  ghost predicate Quiet(s: Sys, t: Sys, c: nat, cl: Client) {
    && t.clients == s.clients[c := cl] && t.clock == s.clock + 1 && t.nextID >= s.nextID
    && t.inner == s.inner && t.marks == s.marks && t.view == s.view
    && (forall id: nat :: id in s.revMap ==> id in t.revMap && t.revMap[id] == s.revMap[id])
    && (forall id: nat :: id in t.revMap && id !in s.revMap ==> Holds(At(s, c), id))
    && (forall k :: 0 <= k < |s.inner| ==>
          SameReading(ReplyAt(s.inner, k), s.revMap, t.revMap))
  }

  lemma QuietClients(s: Sys, t: Sys, c: nat, cl: Client)
    requires MapsOk(s) && ClientsOk(s) && Quiet(s, t, c, cl) && ClientOk(t, c, cl)
    requires forall id: nat :: Holds(cl, id) ==> Holds(At(s, c), id) || id >= s.nextID
    ensures ClientsOk(t)
  {
    hide ReplyAt, After, FreshIds, Submitted, Known, ExtReply, Outer, Inner;
    forall d | d in t.clients
      ensures ClientOk(t, d, t.clients[d])
    {
      if d != c {
        assert d in s.clients && t.clients[d] == s.clients[d] && ClientOk(s, d, s.clients[d]);
        assert s.clients[d].Claimed? && Holds(At(s, c), s.clients[d].id) ==>
            c in s.clients && Holds(s.clients[d], s.clients[d].id);
      }
    }
    forall d, id: nat | d in s.clients && Holds(s.clients[d], id)
      ensures id < s.nextID
    {
      assert ClientOk(s, d, s.clients[d]);
    }
  }

  lemma QuietLog(s: Sys, t: Sys, c: nat, cl: Client)
    requires LogOk(s) && Quiet(s, t, c, cl)
    ensures LogOk(t)
  {
    hide ReplyAt, After, FreshIds, Submitted, Known, ExtReply, Outer, Inner;
  }

  lemma QuietQueue(s: Sys, t: Sys, c: nat, cl: Client)
    requires QueueOk(s) && t.queue == s.queue && t.clients == s.clients[c := cl] && !At(s, c).Waiting? && !cl.Waiting?
    ensures QueueOk(t)
  {
    hide Inner, InQueue;
  }

  lemma QuietReturns(s: Sys, t: Sys, c: nat, cl: Client)
    requires ReturnsOk(s) && Quiet(s, t, c, cl) && t.done == s.done
    requires cl.Idle? || (At(s, c).Idle? && cl.since == s.clock) || (!At(s, c).Idle? && cl.since == At(s, c).since)
    ensures ReturnsOk(t)
  {
    hide ReplyAt, After, FreshIds, Submitted, Known, ExtReply, Outer, Inner;
    assert forall i :: 0 <= i < |s.done| ==> ReturnOk(s, s.done[i]);
  }

  lemma QuietKeeps(s: Sys, t: Sys, c: nat, cl: Client)
    requires Inv(s) && Quiet(s, t, c, cl) && ClientOk(t, c, cl) && MapsOk(t) && t.done == s.done && t.queue == s.queue
    requires forall id: nat :: Holds(cl, id) ==> Holds(At(s, c), id) || id >= s.nextID
    requires !At(s, c).Waiting? && !cl.Waiting?
    requires cl.Idle? || (At(s, c).Idle? && cl.since == s.clock) || (!At(s, c).Idle? && cl.since == At(s, c).since)
    ensures Inv(t)
  {
    hide MapsOk, ClientsOk, LogOk, QueueOk, ReturnsOk, Quiet, ClientOk;
    QuietClients(s, t, c, cl);
    QuietLog(s, t, c, cl);
    QuietReturns(s, t, c, cl);
    assert t.clients == s.clients[c := cl] by { QuietMoves(s, t, c, cl); }
    QuietQueue(s, t, c, cl);
  }

  lemma QuietMoves(s: Sys, t: Sys, c: nat, cl: Client)
    requires Quiet(s, t, c, cl)
    ensures t.clients == s.clients[c := cl]
  {
  }

  lemma InvokeKeeps(s: Sys, c: nat, call: Call)
    requires Inv(s) && Enabled(s, Invoke(c, call))
    ensures Inv(Next(s, Invoke(c, call)))
  {
    hide ClientsOk, LogOk, QueueOk, ReturnsOk, ReplyAt, Submitted, Known, ExtReply;
    QuietKeeps(s, Next(s, Invoke(c, call)), c, Called(call, s.clock));
  }

  lemma ClaimKeeps(s: Sys, c: nat)
    requires Inv(s) && Enabled(s, Claim(c))
    ensures Inv(Next(s, Claim(c)))
  {
    hide LogOk, QueueOk, ReturnsOk, ReplyAt, Submitted, Known, ExtReply;
    var cl := s.clients[c];
    assert ClientOk(s, c, cl);
    QuietKeeps(s, Next(s, Claim(c)), c, Claimed(cl.call, cl.since, s.nextID));
  }

  lemma QueueGrows(queue: seq<Queued>, q: Queued)
    ensures forall c :: InQueue(queue + [q], c) <==> InQueue(queue, c) || c == q.client
  {
    var more := queue + [q];
    assert more[|queue|] == q;
    assert forall i :: 0 <= i < |queue| ==> more[i] == queue[i];
    forall c | InQueue(queue, c)
      ensures InQueue(more, c)
    {
      var i :| 0 <= i < |queue| && queue[i].client == c;
      assert more[i].client == c;
    }
  }

  lemma EnqueueKeeps(s: Sys, c: nat)
    requires Inv(s) && Enabled(s, Enqueue(c))
    ensures Inv(Next(s, Enqueue(c)))
  {
    hide LogOk, QueueOk, ReturnsOk, ReplyAt, Submitted, Known, ExtReply, Inner;
    var cl := s.clients[c];
    assert ClientOk(s, c, cl);
    var t, next := Next(s, Enqueue(c)), Waiting(cl.call, cl.since, cl.id);
    QuietClients(s, t, c, next);
    QuietLog(s, t, c, next);
    QuietReturns(s, t, c, next);
    EnqueueQueue(s, c);
  }

  lemma EnqueueQueue(s: Sys, c: nat)
    requires QueueOk(s) && Enabled(s, Enqueue(c))
    ensures QueueOk(Next(s, Enqueue(c)))
  {
    hide Inner, InQueue;
    QueueGrows(s.queue, Queued(c, Inner(s.clients[c].call, s.clients[c].id)));
  }

  lemma ReceiveKeeps(s: Sys, c: nat)
    requires Inv(s) && Enabled(s, Receive(c))
    ensures Inv(Next(s, Receive(c)))
  {
    hide LogOk, QueueOk, ReturnsOk, ReplyAt, Submitted, Known, ExtReply, Inner;
    var t := Next(s, Receive(c));
    QuietClients(s, t, c, Idle);
    QuietLog(s, t, c, Idle);
    QuietQueue(s, t, c, Idle);
    ReceiveReturns(s, c);
  }

  lemma ReceiveReturns(s: Sys, c: nat)
    requires ReturnsOk(s) && LogOk(s) && ClientsOk(s) && Enabled(s, Receive(c))
    ensures ReturnsOk(Next(s, Receive(c)))
  {
    hide ReplyAt, After, FreshIds, Submitted, Known, ExtReply, Outer, Inner;
    assert ClientOk(s, c, s.clients[c]);
    assert forall i :: 0 <= i < |s.done| ==> ReturnOk(s, s.done[i]);
  }

  lemma {:induction false} ExtFillsGrow(fills: seq<Fill<nat>>, m: map<nat, string>, id: nat, ext: string)
    requires id !in m && forall i :: 0 <= i < |fills| ==> fills[i].maker in m && fills[i].taker in m
    ensures ExtFills(fills, m[id := ext]) == ExtFills(fills, m)
  {
    if fills != [] {
      assert forall i :: 0 <= i < |fills| - 1 ==> fills[1..][i] == fills[i + 1];
      ExtFillsGrow(fills[1..], m, id, ext);
    }
  }

  lemma ExtReplyGrows(r: Reply<nat>, m: map<nat, string>, id: nat, ext: string)
    requires id !in m && Known(r, m)
    ensures ExtReply(r, m[id := ext]) == ExtReply(r, m) && Known(r, m[id := ext])
  {
    if r.Accepted? {
      ExtFillsGrow(r.fills, m, id, ext);
    }
  }

  lemma WriteMapsKeeps(s: Sys, c: nat)
    requires Inv(s) && Enabled(s, WriteMaps(c))
    ensures Inv(Next(s, WriteMaps(c)))
  {
    hide QueueOk, ReturnsOk, ReplyAt, After, FreshIds, Submitted, Known, ExtReply;
    var cl := s.clients[c];
    assert ClientOk(s, c, cl);
    var t := Next(s, WriteMaps(c));
    forall k | 0 <= k < |s.inner|
      ensures var r := ReplyAt(s.inner, k); ExtReply(r, t.revMap) == ExtReply(r, s.revMap) && Known(r, t.revMap)
    {
      ExtReplyGrows(ReplyAt(s.inner, k), s.revMap, cl.id, cl.call.ext);
    }
    assert !Submitted(s.inner, cl.id);
    hide LogOk, ClientsOk;
    QuietKeeps(s, t, c, Ready(cl.call, cl.since, cl.id));
  }

  lemma LogGrows(inner: seq<Cmd<nat>>, cmd: Cmd<nat>)
    ensures var more := inner + [cmd];
      && (forall k :: 0 <= k < |inner| ==> ReplyAt(more, k) == ReplyAt(inner, k))
      && ReplyAt(more, |inner|) == Step(After(inner), cmd).1
      && After(more) == Step(After(inner), cmd).0
  {
    var more := inner + [cmd];
    assert more[..|inner|] == inner;
    assert forall k :: 0 <= k < |inner| ==> more[..k] == inner[..k] && more[k] == inner[k];
    hide Step;
  }

  lemma IdsGrow(inner: seq<Cmd<nat>>, cmd: Cmd<nat>)
    requires FreshIds(inner) && (cmd.Submit? ==> !Submitted(inner, cmd.o.id))
    ensures FreshIds(inner + [cmd])
    ensures forall id :: Submitted(inner + [cmd], id) <==> Submitted(inner, id) || (cmd.Submit? && cmd.o.id == id)
  {
    var more := inner + [cmd];
    assert forall k :: 0 <= k < |inner| ==> more[k] == inner[k];
    assert more[|inner|] == cmd;
    forall id | Submitted(inner, id)
      ensures Submitted(more, id)
    {
      var k :| 0 <= k < |inner| && inner[k].Submit? && inner[k].o.id == id;
      assert more[k].Submit? && more[k].o.id == id;
    }
  }

  /** Every id a fill names has been entered in the reverse map. */
  lemma ReplyKnown(inner: seq<Cmd<nat>>, cmd: Cmd<nat>, m: map<nat, string>)
    requires FreshIds(inner) && (forall id :: Submitted(inner, id) ==> id in m)
    requires cmd.Submit? ==> cmd.o.id in m
    ensures Known(Step(After(inner), cmd).1, m)
  {
    RunKeepsOk(inner);
    var v := After(inner);
    if cmd.Submit? && cmd.o.typ != Unknown {
      var makers := v.On(cmd.o.side.Opposite());
      var fills := Walk(makers, cmd.o, cmd.o.Remaining()).fills;
      forall i | 0 <= i < |fills|
        ensures fills[i].maker in m && fills[i].taker in m
      {
        WalkFillsRest(makers, cmd.o, cmd.o.Remaining(), i);
        assert v.Rests(fills[i].maker);
      }
    }
  }

  /** The state once client `c`'s command has taken effect and `queue` is what still waits. */
  function Effect(s: Sys, c: nat, cmd: Cmd<nat>, queue: seq<Queued>): Sys
    requires At(s, c).Called? || At(s, c).Waiting?
  {
    var r := Step(s.view, cmd);
    TakesEffect(s, c, cmd, r.1)
    .(view := r.0, queue := queue, clock := s.clock + 1, used := s.used + (if cmd.Submit? then 1 else 0))
  }

  lemma EffectLog(s: Sys, c: nat, cmd: Cmd<nat>, queue: seq<Queued>)
    requires Inv(s) && (At(s, c).Called? || At(s, c).Waiting?)
    requires cmd.Submit? ==> cmd.o.id in s.revMap && !Submitted(s.inner, cmd.o.id)
    ensures LogOk(Effect(s, c, cmd, queue))
  {
    hide ReplyAt, After, FreshIds, Submitted, Known, ExtReply, Outer, Inner, InQueue, Step, ClientsOk, QueueOk,
        ReturnsOk;
    LogGrows(s.inner, cmd);
    IdsGrow(s.inner, cmd);
    ReplyKnown(s.inner, cmd, s.revMap);
  }

  lemma EffectClients(s: Sys, c: nat, cmd: Cmd<nat>, queue: seq<Queued>)
    requires Inv(s) && (At(s, c).Called? || At(s, c).Waiting?)
    requires cmd.Submit? ==> Holds(At(s, c), cmd.o.id) && !Submitted(s.inner, cmd.o.id)
    ensures ClientsOk(Effect(s, c, cmd, queue))
  {
    hide ReplyAt, After, FreshIds, Submitted, Known, ExtReply, Outer, Inner, InQueue, Step, QueueOk, ReturnsOk;
    assert c in s.clients && ClientOk(s, c, s.clients[c]);
    LogGrows(s.inner, cmd);
    IdsGrow(s.inner, cmd);
    var t := Effect(s, c, cmd, queue);
    forall d | d in t.clients
      ensures ClientOk(t, d, t.clients[d])
    {
      if d != c {
        assert d in s.clients && t.clients[d] == s.clients[d] && ClientOk(s, d, s.clients[d]);
      }
    }
  }

  lemma EffectReturns(s: Sys, c: nat, cmd: Cmd<nat>, queue: seq<Queued>)
    requires Inv(s) && (At(s, c).Called? || At(s, c).Waiting?)
    ensures ReturnsOk(Effect(s, c, cmd, queue))
  {
    hide ReplyAt, After, FreshIds, Submitted, Known, ExtReply, Outer, Inner, InQueue, Step, QueueOk;
    assert c in s.clients && ClientOk(s, c, s.clients[c]);
    LogGrows(s.inner, cmd);
    var t := Effect(s, c, cmd, queue);
    forall i | 0 <= i < |t.done|
      ensures ReturnOk(t, t.done[i])
    {
      assert ReturnOk(s, s.done[i]);
    }
  }

  lemma DispatchKeeps(s: Sys)
    requires Inv(s) && Enabled(s, Dispatch)
    ensures Inv(Next(s, Dispatch))
  {
    hide ReplyAt, After, FreshIds, Submitted, Known, ExtReply, Outer, Step, LogOk, ReturnsOk, ReturnOk;
    var c, cmd := s.queue[0].client, s.queue[0].cmd;
    assert ClientOk(s, c, s.clients[c]);
    if cmd.Submit? && s.used >= s.capacity {
      TickKeeps(s, true);
    } else {
      assert Next(s, Dispatch) == Effect(s, c, cmd, s.queue[1..]);
      EffectLog(s, c, cmd, s.queue[1..]);
      EffectClients(s, c, cmd, s.queue[1..]);
      EffectReturns(s, c, cmd, s.queue[1..]);
      DispatchQueue(s);
    }
  }

  lemma DispatchQueue(s: Sys)
    requires QueueOk(s) && Enabled(s, Dispatch) && (s.queue[0].cmd.Submit? ==> s.used < s.capacity)
    ensures QueueOk(Next(s, Dispatch))
  {
    hide Step, Inner, Outer;
    var t := Next(s, Dispatch);
    assert forall i :: 0 <= i < |t.queue| ==> t.queue[i] == s.queue[i + 1];
    forall c | c in t.clients && t.clients[c].Waiting?
      ensures InQueue(t.queue, c)
    {
      assert InQueue(s.queue, c);
      var i :| 0 <= i < |s.queue| && s.queue[i].client == c;
      assert t.queue[i - 1].client == c;
    }
  }

  lemma NotResting(s: Sys, id: nat)
    requires LogOk(s) && id !in s.revMap
    ensures !s.view.Rests(id)
  {
    hide Known, ReplyAt;
    RunKeepsOk(s.inner);
  }

  /** Id 0 is never assigned. */
  lemma CancelNobody(s: Sys)
    requires MapsOk(s) && LogOk(s)
    ensures Step(s.view, Cmd.Cancel(0)) == (s.view, Answered(false))
  {
    hide Known, ReplyAt;
    RunKeepsOk(s.inner);
    NotResting(s, 0);
  }

  lemma LookupKeeps(s: Sys, c: nat)
    requires Inv(s) && Enabled(s, Lookup(c))
    ensures Inv(Next(s, Lookup(c)))
  {
    hide ReplyAt, After, FreshIds, Submitted, Known, ExtReply, Outer, Inner, InQueue, Step, ReturnsOk, QueueOk;
    var cl := s.clients[c];
    assert ClientOk(s, c, cl);
    if cl.call.ext in s.idMap {
      hide LogOk, ClientsOk;
      QuietKeeps(s, Next(s, Lookup(c)), c, Ready(cl.call, cl.since, s.idMap[cl.call.ext]));
    } else {
      CancelNobody(s);
      var cmd: Cmd<nat> := Cmd.Cancel(0);
      var t := Effect(s, c, cmd, s.queue);
      assert Next(s, Lookup(c)) == t;
      EffectLog(s, c, cmd, s.queue);
      EffectClients(s, c, cmd, s.queue);
      EffectReturns(s, c, cmd, s.queue);
      hide LogOk, ClientsOk;
      QuietQueue(s, t, c, t.clients[c]);
    }
  }

  lemma {:induction false} ExecKeeps(capacity: nat, events: seq<Event>)
    ensures Inv(Exec(capacity, events))
  {
    hide Inv, Act, Enabled;
    if events == [] {
      StartOk(capacity);
    } else {
      var s, e := Exec(capacity, events[..|events| - 1]), events[|events| - 1];
      ExecKeeps(capacity, events[..|events| - 1]);
      NextKeeps(s, e);
    }
  }

  lemma StartOk(capacity: nat)
    ensures Inv(IdleSystem(capacity))
  {
  }

  lemma NextKeeps(s: Sys, e: Event)
    requires Inv(s)
    ensures Inv(Next(s, e))
  {
    hide Act, MapsOk, ClientsOk, LogOk, QueueOk, ReturnsOk;
    if Enabled(s, e) {
      match e {
        case Invoke(c, call) => InvokeKeeps(s, c, call);
        case Claim(c) => ClaimKeeps(s, c);
        case WriteMaps(c) => WriteMapsKeeps(s, c);
        case Lookup(c) => LookupKeeps(s, c);
        case Enqueue(c) => EnqueueKeeps(s, c);
        case Dispatch => DispatchKeeps(s);
        case Receive(c) => ReceiveKeeps(s, c);
      }
    } else {
      TickKeeps(s, s.crashed);
    }
  }

  lemma TickKeeps(s: Sys, crashed: bool)
    requires Inv(s)
    ensures Inv(s.(clock := s.clock + 1, crashed := crashed))
  {
    hide ReplyAt, After, FreshIds, Submitted, Known, ExtReply, Outer, Inner, InQueue;
  }

  // ----- linearizability over internal ids, for every schedule

  /** Every finished call got the answer of one sequential run of the book, at a moment between its call
      and its return, in the name of its caller; and no fill names an unknown id. */
  lemma EveryReplyIsSequential(capacity: nat, events: seq<Event>, i: nat)
    requires i < |Exec(capacity, events).done|
    ensures var s := Exec(capacity, events); var r := s.done[i];
      && FreshIds(s.inner) && s.view == After(s.inner)
      && r.k < |s.inner|
      && r.reply == ExtReply(ReplyAt(s.inner, r.k), s.revMap) && Known(ReplyAt(s.inner, r.k), s.revMap)
      && r.k < |s.marks| && s.marks[r.k].client == r.client && s.marks[r.k].cmd == Outer(r.call)
      && r.since <= s.marks[r.k].time < r.at
  {
    ExecKeeps(capacity, events);
    hide ReplyAt, After, FreshIds, Submitted, Known, ExtReply, Outer, Inner, Exec;
    assert ReturnOk(Exec(capacity, events), Exec(capacity, events).done[i]);
  }

  /** A call that returned before another was made took effect before it. */
  lemma RealTimeOrder(capacity: nat, events: seq<Event>, i: nat, j: nat)
    requires i < |Exec(capacity, events).done| && j < |Exec(capacity, events).done|
    requires Exec(capacity, events).done[i].at <= Exec(capacity, events).done[j].since
    ensures Exec(capacity, events).done[i].k < Exec(capacity, events).done[j].k
  {
    ExecKeeps(capacity, events);
    hide ReplyAt, After, FreshIds, Submitted, Known, ExtReply, Outer, Inner, Exec;
    var s := Exec(capacity, events);
    assert ReturnOk(s, s.done[i]) && ReturnOk(s, s.done[j]);
    assert s.marks[s.done[i].k].time < s.marks[s.done[j].k].time;
  }

  /** Each client's own calls take effect in the order it made them. */
  lemma CallOrder(capacity: nat, events: seq<Event>, i: nat, j: nat)
    requires i < j < |Exec(capacity, events).done|
        && Exec(capacity, events).done[i].client == Exec(capacity, events).done[j].client
    ensures Exec(capacity, events).done[i].k < Exec(capacity, events).done[j].k
  {
    ExecKeeps(capacity, events);
    RealTimeOrder(capacity, events, i, j);
  }

  /** No two finished calls share a moment of effect. */
  lemma OneEffectEach(capacity: nat, events: seq<Event>, i: nat, j: nat)
    requires i < j < |Exec(capacity, events).done|
    ensures Exec(capacity, events).done[i].k != Exec(capacity, events).done[j].k
  {
    ExecKeeps(capacity, events);
    hide Exec;
    var s := Exec(capacity, events);
    assert ReturnOk(s, s.done[i]) && ReturnOk(s, s.done[j]);
    if s.done[i].client == s.done[j].client {
      CallOrder(capacity, events, i, j);
    }
  }

  /** Ids waiting in the queue are new to the book and different from each other. */
  lemma QueuedIdsDistinct(capacity: nat, events: seq<Event>, i: nat, j: nat)
    requires i < j < |Exec(capacity, events).queue| && Exec(capacity, events).queue[i].cmd.Submit?
        && Exec(capacity, events).queue[j].cmd.Submit?
    ensures var s := Exec(capacity, events);
      && s.queue[i].cmd.o.id != s.queue[j].cmd.o.id
      && !Submitted(s.inner, s.queue[i].cmd.o.id) && !s.view.Rests(s.queue[i].cmd.o.id)
  {
    ExecKeeps(capacity, events);
    var s := Exec(capacity, events);
    QueuedIsNew(s, i);
    hide ReplyAt, After, FreshIds, Submitted, Known, ExtReply, Exec, View<nat>.Rests;
    var c, d := s.queue[i].client, s.queue[j].client;
    assert ClientOk(s, c, s.clients[c]) && ClientOk(s, d, s.clients[d]);
    assert Holds(s.clients[c], s.queue[i].cmd.o.id) && Holds(s.clients[d], s.queue[j].cmd.o.id);
  }

  /** As long as some call is unfinished and the process lives, something other than a new call can happen. */
  lemma NeverStuck(capacity: nat, events: seq<Event>, c: nat)
    requires !Exec(capacity, events).crashed && !At(Exec(capacity, events), c).Idle?
    ensures exists e: Event :: !e.Invoke? && Enabled(Exec(capacity, events), e)
  {
    ExecKeeps(capacity, events);
    var s := Exec(capacity, events);
    hide Exec, LogOk, ReturnsOk;
    var cl := s.clients[c];
    assert ClientOk(s, c, cl);
    match cl {
      case Called(call, _) =>
        if call.AddCall? {
          assert Enabled(s, Claim(c));
        } else {
          assert Enabled(s, Lookup(c));
        }
      case Claimed(_, _, _) => assert Enabled(s, WriteMaps(c));
      case Ready(_, _, _) =>
        if |s.queue| < QUEUE_CAPACITY {
          assert Enabled(s, Enqueue(c));
        } else {
          assert Enabled(s, Dispatch);
        }
      case Waiting(_, _, _) =>
        assert InQueue(s.queue, c);
        assert Enabled(s, Dispatch);
      case Served(_, _, _, _) => assert Enabled(s, Receive(c));
    }
  }

  /** The engine is never handed a cancel of id 0, and what it applies a command to is the run so far. */
  lemma NextIsAnswered(capacity: nat, events: seq<Event>)
    requires Enabled(Exec(capacity, events), Event.Dispatch)
    ensures var s := Exec(capacity, events); s.queue[0].cmd != Cmd.Cancel(0) && s.view == After(s.inner)
  {
    ExecKeeps(capacity, events);
    hide Exec, ReplyAt, Known, ReturnsOk, After;
    var s := Exec(capacity, events);
    assert ClientOk(s, s.queue[0].client, s.clients[s.queue[0].client]);
  }

  // ----- the queue is first in, first out

  /** What an event puts on the queue. */
  function PutBy(s: Sys, e: Event): seq<Queued> {
    if e.Enqueue? && Enabled(s, e) then [Queued(e.client, Inner(At(s, e.client).call, At(s, e.client).id))] else []
  }

  /** Everything a schedule has put on the queue, in order. */
  function Put(capacity: nat, events: seq<Event>): seq<Queued> {
    if events == [] then []
    else Put(capacity, events[..|events| - 1]) + PutBy(Exec(capacity, events[..|events| - 1]), events[|events| - 1])
  }

  /** What has taken effect, but for the failed lookups: the engine has served it. */
  function Taken(inner: seq<Cmd<nat>>, marks: seq<Mark>): seq<Queued>
    requires |inner| == |marks|
  {
    if inner == [] then []
    else
      var n := |inner| - 1;
      Taken(inner[..n], marks[..n]) + (if inner[n] == Cmd.Cancel(0) then [] else [Queued(marks[n].client, inner[n])])
  }

  lemma TakenSnoc(inner: seq<Cmd<nat>>, marks: seq<Mark>, cmd: Cmd<nat>, mark: Mark)
    requires |inner| == |marks|
    ensures Taken(inner + [cmd], marks + [mark]) ==
      Taken(inner, marks) + (if cmd == Cmd.Cancel(0) then [] else [Queued(mark.client, cmd)])
  {
    assert (inner + [cmd])[..|inner|] == inner && (marks + [mark])[..|marks|] == marks;
  }

  lemma DispatchFifo(s: Sys)
    requires Inv(s) && Enabled(s, Dispatch)
    ensures var t := Next(s, Dispatch);
      |t.inner| == |t.marks| && Taken(t.inner, t.marks) + t.queue == Taken(s.inner, s.marks) + s.queue
  {
    hide ReturnsOk, Step, ExtReply, After, FreshIds, Submitted, Known, ReplyAt, InQueue, Taken;
    var q, done := s.queue[0], Taken(s.inner, s.marks);
    assert ClientOk(s, q.client, s.clients[q.client]);
    TakenSnoc(s.inner, s.marks, q.cmd, Mark(q.client, Outer(At(s, q.client).call), s.clock));
    assert done + [q] + s.queue[1..] == done + s.queue;
  }

  lemma LookupFifo(s: Sys, c: nat)
    requires |s.inner| == |s.marks| && Enabled(s, Lookup(c))
    ensures var t := Next(s, Lookup(c));
      |t.inner| == |t.marks| && Taken(t.inner, t.marks) == Taken(s.inner, s.marks) && t.queue == s.queue
  {
    hide Taken;
    TakenSnoc(s.inner, s.marks, Cmd.Cancel(0), Mark(c, Outer(At(s, c).call), s.clock));
  }

  lemma NextFifo(s: Sys, e: Event)
    requires Inv(s)
    ensures var t := Next(s, e);
      |t.inner| == |t.marks| && Taken(t.inner, t.marks) + t.queue == Taken(s.inner, s.marks) + s.queue + PutBy(s, e)
  {
    LogLengths(s);
    hide Inv, Step, ExtReply, Callable, Taken, Inner, Outer;
    var done := Taken(s.inner, s.marks);
    assert done + s.queue + [] == done + s.queue;
    if Enabled(s, e) && e.Dispatch? {
      DispatchFifo(s);
    } else if Enabled(s, e) && e.Lookup? {
      LookupFifo(s, e.client);
    } else {
      assert done + (s.queue + PutBy(s, e)) == done + s.queue + PutBy(s, e);
    }
  }

  lemma LogLengths(s: Sys)
    requires Inv(s)
    ensures |s.inner| == |s.marks| && |s.queue| <= 4096
  {
  }

  lemma PutSnoc(capacity: nat, events: seq<Event>)
    requires events != []
    ensures var past, e := events[..|events| - 1], events[|events| - 1];
      && Exec(capacity, events) == Next(Exec(capacity, past), e)
      && Put(capacity, events) == Put(capacity, past) + PutBy(Exec(capacity, past), e)
  {
    hide Next, PutBy;
  }

  /** Never more than 4096 commands wait, and a ready call has to wait only while that many do. */
  lemma QueueBound(capacity: nat, events: seq<Event>, c: nat)
    ensures var s := Exec(capacity, events);
      |s.queue| <= 4096 && (At(s, c).Ready? && !s.crashed ==> (Enabled(s, Enqueue(c)) <==> |s.queue| < 4096))
  {
    ExecKeeps(capacity, events);
    hide Exec, Inv;
    LogLengths(Exec(capacity, events));
  }

  /** In every schedule the engine serves exactly what was put on the queue, in the order it was put there, and
      the rest still waits. */
  lemma {:induction false} QueueIsFifo(capacity: nat, events: seq<Event>)
    ensures var s := Exec(capacity, events);
      |s.inner| == |s.marks| && Taken(s.inner, s.marks) + s.queue == Put(capacity, events)
  {
    hide Taken, PutBy, Next, Inv;
    if events != [] {
      hide Exec, Put;
      var past, e := events[..|events| - 1], events[|events| - 1];
      ExecKeeps(capacity, past);
      QueueIsFifo(capacity, past);
      PutSnoc(capacity, events);
      NextFifo(Exec(capacity, past), e);
    } else {
      NothingTaken(capacity);
    }
  }

  lemma NothingTaken(capacity: nat)
    ensures Exec(capacity, []) == IdleSystem(capacity) && Put(capacity, []) == [] && Taken([], []) == []
  {
  }

  // ----- the arena

  /** An add somewhere between its call and its dispatch. */
  predicate AddPending(cl: Client) {
    (cl.Called? || cl.Claimed? || cl.Ready? || cl.Waiting?) && cl.call.AddCall?
  }

  function Unserved(clients: map<nat, Client>): set<nat> {
    set c | c in clients && AddPending(clients[c])
  }

  /** Every add called is in a slot of the arena or still under way; and what is under way, or was served,
      has a positive limit price. */
  ghost predicate Stocked(s: Sys) {
    && s.used <= s.capacity
    && s.used + |Unserved(s.clients)| == |s.started|
    && (s.crashed ==> |s.started| > s.capacity)
    && (forall c :: c in s.clients && !s.clients[c].Idle? ==> Callable(s.clients[c].call))
    && (forall k :: 0 <= k < |s.inner| ==> PositivePrice(s.inner[k]))
  }

  lemma UnservedMoves(clients: map<nat, Client>, c: nat, cl: Client)
    ensures var was := c in clients && AddPending(clients[c]);
      |Unserved(clients[c := cl])| == |Unserved(clients)| - (if was then 1 else 0) + (if AddPending(cl) then 1 else 0)
  {
    hide AddPending;
    var a, b := Unserved(clients), Unserved(clients[c := cl]);
    assert c in a <==> c in clients && AddPending(clients[c]);
    assert b - {c} == a - {c};
    if AddPending(cl) {
      assert b == (a - {c}) + {c};
    } else {
      assert b == a - {c};
    }
  }

  lemma InnerPositive(call: Call, id: nat)
    requires Callable(call)
    ensures PositivePrice(Inner(call, id)) && (Inner(call, id).Submit? <==> call.AddCall?)
  {
  }

  lemma NextStocked(s: Sys, e: Event)
    requires Inv(s) && Stocked(s)
    ensures Stocked(Next(s, e))
  {
    hide MapsOk, ClientsOk, LogOk, ReturnsOk, Step, ExtReply, Outer, InQueue, Inner, Callable, Unserved;
    if Enabled(s, e) {
      var c := if e.Dispatch? then s.queue[0].client else e.client;
      var t := Next(s, e);
      UnservedMoves(s.clients, c, t.clients[c]);
      if e.Dispatch? {
        var cl := s.clients[c];
        InnerPositive(cl.call, cl.id);
        if s.crashed != t.crashed {
          SomeUnserved(s.clients, c);
        }
      }
    }
  }

  lemma SomeUnserved(clients: map<nat, Client>, c: nat)
    requires c in clients && AddPending(clients[c])
    ensures |Unserved(clients)| > 0
  {
    assert c in Unserved(clients);
  }

  lemma {:induction false} ExecStocked(capacity: nat, events: seq<Event>)
    ensures Stocked(Exec(capacity, events))
  {
    if events != [] {
      hide Stocked, Next;
      ExecStocked(capacity, events[..|events| - 1]);
      ExecKeeps(capacity, events[..|events| - 1]);
      NextStocked(Exec(capacity, events[..|events| - 1]), events[|events| - 1]);
    } else {
      StartStocked(capacity);
    }
  }

  lemma StartStocked(capacity: nat)
    ensures Stocked(IdleSystem(capacity))
  {
    assert Unserved(map[]) == {};
  }

  lemma NextCapacity(s: Sys, e: Event)
    ensures Next(s, e).capacity == s.capacity
  {
    hide Step, ExtReply, Outer, Inner;
  }

  lemma {:induction false} CapacityKept(capacity: nat, events: seq<Event>)
    ensures Exec(capacity, events).capacity == capacity
  {
    if events != [] {
      hide Next;
      CapacityKept(capacity, events[..|events| - 1]);
      NextCapacity(Exec(capacity, events[..|events| - 1]), events[|events| - 1]);
    }
  }

  /** The process dies only after more adds were called than the arena has room for. */
  lemma CrashNeedsMoreAdds(capacity: nat, events: seq<Event>)
    ensures Exec(capacity, events).crashed ==> |Exec(capacity, events).started| > capacity
  {
    ExecStocked(capacity, events);
    CapacityKept(capacity, events);
    hide Exec, Unserved;
  }

  lemma QueuedIsNew(s: Sys, i: nat)
    requires QueueOk(s) && ClientsOk(s) && LogOk(s) && i < |s.queue| && s.queue[i].cmd.Submit?
    ensures !Submitted(s.inner, s.queue[i].cmd.o.id) && !s.view.Rests(s.queue[i].cmd.o.id)
  {
    hide ReplyAt, Known, ExtReply, FreshIds, Submitted, After;
    var c := s.queue[i].client;
    assert ClientOk(s, c, s.clients[c]);
    assert s.clients[c].call.AddCall? && s.queue[i].cmd.o.id == s.clients[c].id;
    if s.view.Rests(s.queue[i].cmd.o.id) {
      RestingWasSubmitted(s, s.queue[i].cmd.o.id);
    }
  }

  lemma RestingWasSubmitted(s: Sys, id: nat)
    requires LogOk(s) && s.view.Rests(id)
    ensures Submitted(s.inner, id)
  {
    hide ReplyAt, Known;
    RunKeepsOk(s.inner);
  }

  /** What the engine is handed next meets the demands of the book: a new id, a positive limit price. */
  lemma NextIsServable(capacity: nat, events: seq<Event>)
    requires Enabled(Exec(capacity, events), Dispatch)
    ensures var s := Exec(capacity, events);
      PositivePrice(s.queue[0].cmd) && (s.queue[0].cmd.Submit? ==> !s.view.Rests(s.queue[0].cmd.o.id))
  {
    ExecKeeps(capacity, events);
    ExecStocked(capacity, events);
    hide Exec, Unserved, MapsOk, LogOk, ReturnsOk, ClientOk, Inner, Callable, PositivePrice, View<nat>.Rests;
    var s := Exec(capacity, events);
    var c := s.queue[0].client;
    InnerPositive(s.clients[c].call, s.clients[c].id);
    if s.queue[0].cmd.Submit? {
      QueuedIsNew(s, 0);
    }
  }
}
