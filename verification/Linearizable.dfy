/** With every external id added at most once, concurrent clients see one sequential book over those ids. */
module Linearizable {
  import opened PriceTime
  import opened Sequences
  import opened History
  import opened Sequencing
  import opened ExternalView
  import opened Concurrent

  function Cmds(marks: seq<Mark>): (cmds: seq<Cmd<string>>)
    ensures |cmds| == |marks| && forall k :: 0 <= k < |marks| ==> cmds[k] == marks[k].cmd
  {
    seq(|marks|, k requires 0 <= k < |marks| => marks[k].cmd)
  }

  /** An add that has not written the maps yet. */
  predicate Pending(cl: Client) {
    (cl.Called? || cl.Claimed?) && cl.call.AddCall?
  }

  ghost predicate IdsOnce(s: Sys) {
    && (forall ext :: ext in s.idMap ==> ext in s.started)
    && (forall id :: id in s.revMap ==> s.revMap[id] in s.idMap && s.idMap[s.revMap[id]] == id)
    && (forall c :: c in s.clients && Pending(s.clients[c]) ==>
        s.clients[c].call.ext in s.started && s.clients[c].call.ext !in s.idMap)
    && (forall c, d :: c in s.clients && d in s.clients && c != d && Pending(s.clients[c]) && Pending(s.clients[d]) ==>
          s.clients[c].call.ext != s.clients[d].call.ext)
  }

  /** The internal command and the external one are the same command. */
  ghost predicate SameCommand(inner: Cmd<nat>, outer: Cmd<string>, m: map<nat, string>) {
    match inner
    case Submit(o) => o.id in m && o.filled == 0 && outer == Submit(ExtOrder(o, m))
    case Cancel(_) => outer.Cancel?
  }

  ghost predicate RunOnce(s: Sys) {
    && |s.inner| == |s.marks|
    && (forall k :: 0 <= k < |s.inner| ==> SameCommand(s.inner[k], s.marks[k].cmd, s.revMap))
    && (forall k :: 0 <= k < |s.inner| ==> ExtReply(ReplyAt(s.inner, k), s.revMap) == ReplyAt(Cmds(s.marks), k))
    && ExtView(s.view, s.revMap) == After(Cmds(s.marks))
  }

  ghost predicate Once(s: Sys) {
    IdsOnce(s) && RunOnce(s)
  }

  lemma DistinctPrefix(s: Sys, e: Event)
    requires Distinct(Next(s, e).started)
    ensures Distinct(s.started)
    ensures e.Invoke? && e.call.AddCall? && Enabled(s, e) ==> e.call.ext !in s.started
  {
    hide Step, ExtReply;
    var t := Next(s, e);
    assert forall i :: 0 <= i < |s.started| ==> t.started[i] == s.started[i];
    if e.Invoke? && e.call.AddCall? && Enabled(s, e) {
      assert t.started[|s.started|] == e.call.ext;
    }
  }

  // ----- the maps

  lemma IdsOnceMove(s: Sys, t: Sys, c: nat, cl: Client)
    requires IdsOnce(s) && t.idMap == s.idMap && t.revMap == s.revMap && t.clients == s.clients[c := cl]
    requires t.started == s.started + (if cl.Called? && cl.call.AddCall? then [cl.call.ext] else [])
    requires Pending(cl) ==>
        || (Pending(At(s, c)) && At(s, c).call == cl.call && t.started == s.started)
        || (cl.Called? && cl.call.ext !in s.started)
    ensures IdsOnce(t)
  {
  }

  lemma IdsOnceNext(s: Sys, e: Event)
    requires Inv(s) && IdsOnce(s) && Enabled(s, e) && (e.Invoke? && e.call.AddCall? ==> e.call.ext !in s.started)
    ensures IdsOnce(Next(s, e))
  {
    hide Step, ExtReply, LogOk, QueueOk, ReturnsOk, ClientsOk, MapsOk, Outer, Inner, ReplyAt, After, IdsOnce;
    if e.WriteMaps? {
      WriteOnce(s, e.client);
    } else {
      var c := if e.Dispatch? then s.queue[0].client else e.client;
      var t := Next(s, e);
      IdsOnceMove(s, t, c, t.clients[c]);
    }
  }

  lemma WriteOnce(s: Sys, c: nat)
    requires Inv(s) && IdsOnce(s) && Enabled(s, WriteMaps(c))
    ensures IdsOnce(Next(s, WriteMaps(c)))
  {
    hide Step, ExtReply, LogOk, QueueOk, ReturnsOk, Outer, Inner, ReplyAt, After;
    var cl := s.clients[c];
    assert ClientOk(s, c, cl) && Pending(cl);
    var t := Next(s, WriteMaps(c));
    assert forall d :: d in t.clients && Pending(t.clients[d]) ==> d != c && t.clients[d] == s.clients[d];
  }

  // ----- the run

  lemma SameCommandGrows(inner: Cmd<nat>, outer: Cmd<string>, m: map<nat, string>, id: nat, ext: string)
    requires SameCommand(inner, outer, m) && id !in m
    ensures SameCommand(inner, outer, m[id := ext])
  {
  }

  lemma RunOnceWrite(s: Sys, c: nat)
    requires Inv(s) && RunOnce(s) && Enabled(s, WriteMaps(c))
    ensures RunOnce(Next(s, WriteMaps(c)))
  {
    hide Step, ExtReply, QueueOk, ReturnsOk, Outer, Inner, ReplyAt, After, SameCommand, Known, FreshIds, Submitted;
    var cl := s.clients[c];
    assert ClientOk(s, c, cl);
    var m := s.revMap[cl.id := cl.call.ext];
    forall k | 0 <= k < |s.inner|
      ensures ExtReply(ReplyAt(s.inner, k), m) == ExtReply(ReplyAt(s.inner, k), s.revMap)
      ensures SameCommand(s.inner[k], s.marks[k].cmd, m)
    {
      ExtReplyGrows(ReplyAt(s.inner, k), s.revMap, cl.id, cl.call.ext);
      SameCommandGrows(s.inner[k], s.marks[k].cmd, s.revMap, cl.id, cl.call.ext);
    }
    NotResting(s, cl.id);
    ViewGrows(s.view, s.revMap, cl.id, cl.call.ext);
  }

  lemma ViewGrows(v: View<nat>, m: map<nat, string>, id: nat, ext: string)
    requires !v.Rests(id)
    ensures ExtView(v, m[id := ext]) == ExtView(v, m)
  {
    ExtGrows(v.bids, m, id, ext);
    ExtGrows(v.asks, m, id, ext);
  }

  /** One more command on both sides, with equal outcomes. */
  lemma RunOnceEffect(s: Sys, c: nat, cmd: Cmd<nat>, queue: seq<Queued>)
    requires RunOnce(s) && LogOk(s) && (At(s, c).Called? || At(s, c).Waiting?)
    requires SameCommand(cmd, Outer(At(s, c).call), s.revMap)
    requires var r, x := Step(s.view, cmd), Step(ExtView(s.view, s.revMap), Outer(At(s, c).call));
      x.0 == ExtView(r.0, s.revMap) && x.1 == ExtReply(r.1, s.revMap)
    ensures RunOnce(Effect(s, c, cmd, queue))
  {
    hide Step, ExtReply, Outer, Inner, ReplyAt, After, SameCommand, Known, FreshIds, Submitted, ExtView;
    LogGrows(s.inner, cmd);
    var outer := Outer(At(s, c).call);
    var mark := Mark(c, outer, s.clock);
    assert Cmds(s.marks + [mark]) == Cmds(s.marks) + [outer];
    OuterGrows(Cmds(s.marks), outer);
  }

  lemma OuterGrows(cmds: seq<Cmd<string>>, cmd: Cmd<string>)
    ensures var more := cmds + [cmd];
      && (forall k :: 0 <= k < |cmds| ==> ReplyAt(more, k) == ReplyAt(cmds, k))
      && ReplyAt(more, |cmds|) == Step(After(cmds), cmd).1
      && After(more) == Step(After(cmds), cmd).0
  {
    var more := cmds + [cmd];
    assert more[..|cmds|] == cmds;
    assert forall k :: 0 <= k < |cmds| ==> more[..k] == cmds[..k] && more[k] == cmds[k];
    hide Step;
  }

  lemma OnlyOneRests(s: Sys, id: nat, entries: seq<Entry<nat>>)
    requires IdsOnce(s) && LogOk(s) && id in s.revMap
    requires forall i :: 0 <= i < |entries| ==> s.view.Rests(entries[i].id)
    ensures OnlyOne(entries, s.revMap, id, s.revMap[id])
  {
    hide ReplyAt, Known;
    RunKeepsOk(s.inner);
    hide FreshIds;
    forall i | 0 <= i < |entries|
      ensures entries[i].id in s.revMap
    {
      assert s.view.Rests(entries[i].id);
    }
  }

  lemma StepThroughIds(s: Sys, c: nat)
    requires Inv(s) && IdsOnce(s) && At(s, c).Waiting?
    ensures var cl := s.clients[c]; var cmd := Inner(cl.call, cl.id);
      && SameCommand(cmd, Outer(cl.call), s.revMap)
      && var r, x := Step(s.view, cmd), Step(ExtView(s.view, s.revMap), Outer(cl.call));
        x.0 == ExtView(r.0, s.revMap) && x.1 == ExtReply(r.1, s.revMap)
  {
    hide QueueOk, ReturnsOk, AddOrder, CancelOrder, ExtView, ExtFills, LogOk, View<nat>.Rests, OnlyOne;
    var cl := s.clients[c];
    assert ClientOk(s, c, cl);
    match cl.call {
      case AddCall(ext, side, typ, price, qty) =>
        ExtAdd(s.view, Order(cl.id, side, typ, price, qty, 0), s.revMap);
      case CancelCall(ext) =>
        SidesRest(s.view);
        OnlyOneRests(s, cl.id, s.view.bids);
        OnlyOneRests(s, cl.id, s.view.asks);
        ExtCancel(s.view, cl.id, ext, s.revMap);
    }
  }

  lemma SidesRest(v: View<nat>)
    ensures forall i :: 0 <= i < |v.bids| ==> v.Rests(v.bids[i].id)
    ensures forall i :: 0 <= i < |v.asks| ==> v.Rests(v.asks[i].id)
  {
  }

  /** A failed lookup is a cancel of an order the book does not hold. */
  lemma MissThroughIds(s: Sys, ext: string)
    requires Inv(s) && IdsOnce(s) && ext !in s.idMap
    ensures Step(ExtView(s.view, s.revMap), Cmd.Cancel(ext)) == (ExtView(s.view, s.revMap), Answered(false))
  {
    hide QueueOk, ReturnsOk, ClientsOk, ReplyAt, Known;
    RunKeepsOk(s.inner);
    hide FreshIds, Ok;
    SidesRest(s.view);
    forall id | s.view.Rests(id)
      ensures ExternalID(s.revMap, id) != ext
    {
      assert id in s.revMap;
    }
    hide IdsOnce, Step, MapsOk, LogOk;
    var v, m := s.view, s.revMap;
    assert forall i :: 0 <= i < |v.bids| ==> ExternalID(m, v.bids[i].id) != ext;
    assert forall i :: 0 <= i < |v.asks| ==> ExternalID(m, v.asks[i].id) != ext;
    ExtAbsent(v.bids, m, ext);
    ExtAbsent(v.asks, m, ext);
    CancelAbsent(ExtView(v, m), ext);
  }

  lemma CancelAbsent(v: View<string>, ext: string)
    requires !HasId(v.bids, ext) && !HasId(v.asks, ext)
    ensures Step(v, Cmd.Cancel(ext)) == (v, Answered(false))
  {
  }

  lemma RunOnceNext(s: Sys, e: Event)
    requires Inv(s) && IdsOnce(s) && RunOnce(s) && Enabled(s, e)
    ensures RunOnce(Next(s, e))
  {
    hide Step, ExtReply, ReturnsOk, Outer, ReplyAt, After, SameCommand, Known, FreshIds, Submitted, IdsOnce, RunOnce,
        ExtView;
    match e {
      case WriteMaps(c) => RunOnceWrite(s, c);
      case Dispatch =>
        var c := s.queue[0].client;
        if s.queue[0].cmd.Submit? && s.used >= s.capacity {
          SameRun(s, Next(s, e));
        } else {
          StepThroughIds(s, c);
          RunOnceEffect(s, c, s.queue[0].cmd, s.queue[1..]);
          assert Next(s, Dispatch) == Effect(s, c, s.queue[0].cmd, s.queue[1..]);
        }
      case Lookup(c) =>
        var cl := s.clients[c];
        if cl.call.ext in s.idMap {
          SameRun(s, Next(s, e));
        } else {
          var cmd: Cmd<nat> := Cmd.Cancel(0);
          CancelNobody(s);
          MissThroughIds(s, cl.call.ext);
          MissCommand(cl.call, s.revMap);
          RunOnceEffect(s, c, cmd, s.queue);
          assert Next(s, e) == Effect(s, c, cmd, s.queue);
        }
      case _ => SameRun(s, Next(s, e));
    }
  }

  lemma MissCommand(call: Call, m: map<nat, string>)
    requires call.CancelCall?
    ensures Outer(call) == Cmd.Cancel(call.ext) && SameCommand(Cmd.Cancel(0), Outer(call), m)
    ensures ExtReply(Answered(false), m) == Answered(false)
  {
  }

  lemma SameRun(s: Sys, t: Sys)
    requires RunOnce(s) && t.inner == s.inner && t.marks == s.marks && t.revMap == s.revMap && t.view == s.view
    ensures RunOnce(t)
  {
    hide Step, ExtReply, ReplyAt, After, SameCommand, ExtView;
  }

  lemma {:induction false} ExecOnce(capacity: nat, events: seq<Event>)
    requires Distinct(Exec(capacity, events).started)
    ensures Once(Exec(capacity, events))
  {
    hide IdsOnce, RunOnce, Inv, Act, Enabled, Distinct;
    if events == [] {
      StartOnce(capacity);
    } else {
      var s, e := Exec(capacity, events[..|events| - 1]), events[|events| - 1];
      DistinctPrefix(s, e);
      ExecKeeps(capacity, events[..|events| - 1]);
      ExecOnce(capacity, events[..|events| - 1]);
      if Enabled(s, e) {
        IdsOnceNext(s, e);
        RunOnceNext(s, e);
      } else {
        TickOnce(s);
      }
    }
  }

  lemma StartOnce(capacity: nat)
    ensures Once(IdleSystem(capacity))
  {
  }

  lemma TickOnce(s: Sys)
    requires Once(s)
    ensures Once(s.(clock := s.clock + 1))
  {
    hide Step, ExtReply, ReplyAt, After, SameCommand, ExtView;
  }

  // ----- what the clients may rely on

  lemma FreshOutside(s: Sys)
    requires Inv(s) && Once(s)
    ensures FreshIds(Cmds(s.marks))
  {
    hide ReplyAt, After, Known, ClientsOk, QueueOk, ReturnsOk, ExtReply, ExtView;
    var cmds := Cmds(s.marks);
    forall i, j | 0 <= i < j < |cmds| && cmds[i].Submit? && cmds[j].Submit?
      ensures cmds[i].o.id != cmds[j].o.id
    {
      assert SameCommand(s.inner[i], s.marks[i].cmd, s.revMap) && SameCommand(s.inner[j], s.marks[j].cmd, s.revMap);
    }
  }

  /** Every finished call, failed lookups included, got the answer of one sequential run over external
      ids, in which no id is added twice. With the order of effects proved for every schedule, this is
      linearizability of the sequencer against the price-time book. */
  lemma Linearizable(capacity: nat, events: seq<Event>, i: nat)
    requires Distinct(Exec(capacity, events).started) && i < |Exec(capacity, events).done|
    ensures var s := Exec(capacity, events); var r, cmds := s.done[i], Cmds(s.marks);
      && FreshIds(cmds)
      && r.k < |cmds| && cmds[r.k] == Outer(r.call) && r.reply == ReplyAt(cmds, r.k)
      && r.since <= s.marks[r.k].time < r.at
  {
    hide ReplyAt, After, FreshIds, ExtReply, Outer, Exec, Inv;
    ExecKeeps(capacity, events);
    ExecOnce(capacity, events);
    EveryReplyIsSequential(capacity, events, i);
    FreshOutside(Exec(capacity, events));
  }

  /** Once a cancel has returned OK to anybody, no add made later by anybody is filled against it. */
  lemma NoZombieAcrossClients(capacity: nat, events: seq<Event>, i: nat, j: nat)
    requires Distinct(Exec(capacity, events).started) && i < |Exec(capacity, events).done|
        && j < |Exec(capacity, events).done|
    requires var r := Exec(capacity, events).done[i]; r.call.CancelCall? && r.reply == Answered(true)
    requires Exec(capacity, events).done[i].at <= Exec(capacity, events).done[j].since
    ensures !Names(Exec(capacity, events).done[j].reply, Exec(capacity, events).done[i].call.ext)
  {
    hide ReplyAt, After, FreshIds, ExtReply, Exec, Names;
    Linearizable(capacity, events, i);
    Linearizable(capacity, events, j);
    RealTimeOrder(capacity, events, i, j);
    var s := Exec(capacity, events);
    NoFillAfterCancel(Cmds(s.marks), s.done[i].k, s.done[j].k);
  }
}
