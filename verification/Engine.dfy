/** The engine goroutine with the real book: what the schedules of `Concurrent` compute on views is what the
    pointer-based book computes on the heap. */
module Engine {
  import opened PriceTime
  import opened History
  import opened PriceLevel
  import opened LinkedBook
  import opened Concurrent

  /** One command off the queue. */
  method Dispatch(book: Book, cmd: Cmd<nat>) returns (reply: Reply<nat>)
    requires book.Valid() && PositivePrice(cmd)
    requires cmd.Submit? ==> book.arena.cursor < |book.arena.slab| && !book.Contents().Rests(cmd.o.id)
    modifies book, book.Repr
    ensures book.Valid() && old(book.Repr) <= book.Repr && fresh(book.Repr - old(book.Repr))
    ensures book.arena.cursor == old(book.arena.cursor) + (if cmd.Submit? then 1 else 0)
    ensures (book.Contents(), reply) == Step(old(book.Contents()), cmd)
  {
    hide Book.Valid, Book.Contents, AddOrder, CancelOrder, View<nat>.Rests;
    match cmd {
      case Submit(o) =>
        book.IndexExact(o.id);
        var fills, rests := book.Add(o);
        reply := Accepted(fills, rests);
      case Cancel(id) =>
        var r := book.Cancel(id);
        reply := Answered(r == CancelOK);
    }
  }

  // ----- a run of the book by itself

  lemma NextOfRun(cmds: seq<Cmd<nat>>, k: nat)
    requires k < |cmds|
    ensures After(cmds[..k + 1]) == Step(After(cmds[..k]), cmds[k]).0
        && ReplyAt(cmds, k) == Step(After(cmds[..k]), cmds[k]).1
  {
    assert cmds[..k + 1][..k] == cmds[..k];
  }

  function Submits(cmds: seq<Cmd<nat>>): nat {
    if cmds == [] then 0 else (if cmds[0].Submit? then 1 else 0) + Submits(cmds[1..])
  }

  lemma NewToRun(cmds: seq<Cmd<nat>>, k: nat)
    requires FreshIds(cmds) && k < |cmds| && cmds[k].Submit?
    ensures !After(cmds[..k]).Rests(cmds[k].o.id)
  {
    assert forall i :: 0 <= i < k ==> cmds[..k][i] == cmds[i];
    RunKeepsOk(cmds[..k]);
  }

  lemma SubmitsNext(cmds: seq<Cmd<nat>>, k: nat)
    requires k < |cmds|
    ensures Submits(cmds[k..]) == (if cmds[k].Submit? then 1 else 0) + Submits(cmds[k + 1..])
  {
    assert cmds[k..][1..] == cmds[k + 1..];
  }

  lemma NothingRun(cmds: seq<Cmd<nat>>)
    requires cmds == []
    ensures After(cmds) == View([], [])
  {
  }

  /** Any stream of new ids and positive limit prices that fits the arena: the real book answers as the flat
      commands do, ends in their view, is nowhere crossed and caches the true best prices. */
  method RunBook(capacity: nat, cmds: seq<Cmd<nat>>) returns (book: Book, replies: seq<Reply<nat>>)
    requires FreshIds(cmds) && Submits(cmds) <= capacity && forall k :: 0 <= k < |cmds| ==> PositivePrice(cmds[k])
    ensures fresh(book) && book.Valid() && book.Contents() == After(cmds)
    ensures |replies| == |cmds| && forall k :: 0 <= k < |cmds| ==> replies[k] == ReplyAt(cmds, k)
    ensures Ok(book.Contents()) && (book.bestBid != 0 && book.bestAsk != 0 ==> book.bestBid < book.bestAsk)
  {
    hide Book.Valid, Book.Contents, After, ReplyAt, Step, Ok, FreshIds, View<nat>.Rests, Submits;
    book := new Book(capacity);
    replies := [];
    NothingRun(cmds[..0]);
    assert cmds[0..] == cmds;
    for k := 0 to |cmds|
      invariant fresh(book) && fresh(book.Repr) && book.Valid() && book.Contents() == After(cmds[..k])
      invariant book.arena.cursor + Submits(cmds[k..]) <= |book.arena.slab|
      invariant |replies| == k && forall j :: 0 <= j < k ==> replies[j] == ReplyAt(cmds, j)
    {
      NextOfRun(cmds, k);
      SubmitsNext(cmds, k);
      if cmds[k].Submit? {
        NewToRun(cmds, k);
      }
      var reply := Dispatch(book, cmds[k]);
      replies := replies + [reply];
    }
    assert cmds[..|cmds|] == cmds;
    RunKeepsOk(cmds);
    book.BestPricesTrue();
  }

  // ----- the book inside a schedule

  /** What the book answered, keyed by the log entry answered: every entry but the failed lookups, which
      the log has as cancels of id 0 and of which the book hears nothing. */
  ghost predicate Answering(inner: seq<Cmd<nat>>, answers: map<nat, Reply<nat>>) {
    && (forall k :: k in answers ==> k < |inner| && answers[k] == ReplyAt(inner, k))
    && (forall k :: 0 <= k < |inner| ==> (k in answers <==> inner[k] != Cmd.Cancel(0)))
  }

  /** Carry out a schedule with the real book behind the queue: it is never asked for what it does not
      accept, its arena fills as the schedule says, and every client is told what the book answered it, or
      that there is no such order if its lookup failed. */
  method RunSchedule(capacity: nat, events: seq<Event>)
    returns (s: Sys, book: Book, answers: map<nat, Reply<nat>>)
    ensures s == Exec(capacity, events)
    ensures fresh(book) && book.Valid() && book.Contents() == s.view
    ensures book.arena.cursor == s.used && |book.arena.slab| == capacity
    ensures forall k :: k in answers ==> k < |s.inner| && answers[k] == ReplyAt(s.inner, k)
    ensures forall k :: 0 <= k < |s.inner| ==> (k in answers <==> s.inner[k] != Cmd.Cancel(0))
    ensures forall i :: 0 <= i < |s.done| ==>
        s.done[i].reply == if s.done[i].k in answers then ExtReply(answers[s.done[i].k], s.revMap) else Answered(false)
  {
    hide Book.Valid, Book.Contents, Exec, Act, Step, Enabled, View<nat>.Rests, Answering;
    book := new Book(capacity);
    s := IdleSystem(capacity);
    answers := map[];
    NothingYet(capacity, events[..0]);
    NothingAnswered();
    for i := 0 to |events|
      invariant s == Exec(capacity, events[..i]) && s.capacity == capacity
      invariant fresh(book) && fresh(book.Repr) && book.Valid() && book.Contents() == s.view
      invariant book.arena.cursor == s.used && |book.arena.slab| == capacity
      invariant Answering(s.inner, answers)
    {
      ExecNext(capacity, events, i);
      var e := events[i];
      if e.Dispatch? && Enabled(s, e) && !Full(s) {
        NextIsServable(capacity, events[..i]);
        NextIsAnswered(capacity, events[..i]);
        DispatchActs(s);
        var cmd, k := s.queue[0].cmd, |s.inner|;
        var reply := Dispatch(book, cmd);
        AnswersGrow(s.inner, cmd, answers, reply);
        s, answers := Next(s, e), answers[k := reply];
      } else {
        BookIdle(s, e);
        LookupsGrow(s.inner, answers);
        s := Next(s, e);
      }
    }
    assert events[..|events|] == events;
    AnswersReachClients(capacity, events, answers);
    AnswersAre(s.inner, answers);
  }

  lemma NothingAnswered()
    ensures Answering([], map[])
  {
  }

  lemma AnswersAre(inner: seq<Cmd<nat>>, answers: map<nat, Reply<nat>>)
    requires Answering(inner, answers)
    ensures forall k :: k in answers ==> k < |inner| && answers[k] == ReplyAt(inner, k)
    ensures forall k :: 0 <= k < |inner| ==> (k in answers <==> inner[k] != Cmd.Cancel(0))
  {
  }

  lemma AnswersGrow(inner: seq<Cmd<nat>>, cmd: Cmd<nat>, answers: map<nat, Reply<nat>>, reply: Reply<nat>)
    requires Answering(inner, answers) && cmd != Cmd.Cancel(0) && reply == Step(After(inner), cmd).1
    ensures Answering(inner + [cmd], answers[|inner| := reply])
  {
    LogGrows(inner, cmd);
    hide Step, ReplyAt, After;
  }

  lemma LookupsGrow(inner: seq<Cmd<nat>>, answers: map<nat, Reply<nat>>)
    requires Answering(inner, answers)
    ensures Answering(inner + [Cmd.Cancel(0)], answers)
  {
    LogGrows(inner, Cmd.Cancel(0));
    hide Step, ReplyAt, After;
  }

  lemma AnswersReachClients(capacity: nat, events: seq<Event>, answers: map<nat, Reply<nat>>)
    requires Answering(Exec(capacity, events).inner, answers)
    ensures var s := Exec(capacity, events);
      forall i :: 0 <= i < |s.done| ==>
        s.done[i].reply == if s.done[i].k in answers then ExtReply(answers[s.done[i].k], s.revMap) else Answered(false)
  {
    hide Exec, ReplyAt, After, FreshIds, Known, Outer;
    var s := Exec(capacity, events);
    forall i | 0 <= i < |s.done|
      ensures s.done[i].reply ==
        if s.done[i].k in answers then ExtReply(answers[s.done[i].k], s.revMap) else Answered(false)
    {
      EveryReplyIsSequential(capacity, events, i);
      if s.done[i].k !in answers {
        ZeroIsRefused(capacity, events, s.done[i].k);
      }
    }
  }

  lemma ZeroIsRefused(capacity: nat, events: seq<Event>, k: nat)
    requires var s := Exec(capacity, events); k < |s.inner| && s.inner[k] == Cmd.Cancel(0)
    ensures ReplyAt(Exec(capacity, events).inner, k) == Answered(false)
  {
    ExecKeeps(capacity, events);
    hide Exec, Known, ReturnsOk, ClientsOk, QueueOk;
    var inner := Exec(capacity, events).inner;
    NextOfRun(inner, k);
    ZeroNeverSubmitted(inner, k, Exec(capacity, events).revMap);
  }

  lemma CancelOfNone(v: View<nat>)
    requires !v.Rests(0)
    ensures Step(v, Cmd.Cancel(0)) == (v, Answered(false))
  {
    assert !HasId(v.bids, 0) && !HasId(v.asks, 0);
  }

  lemma ZeroNeverSubmitted(inner: seq<Cmd<nat>>, k: nat, m: map<nat, string>)
    requires FreshIds(inner) && k < |inner| && 0 !in m
    requires forall id :: Submitted(inner, id) ==> id in m
    ensures Step(After(inner[..k]), Cmd.Cancel(0)) == (After(inner[..k]), Answered(false))
  {
    var done := inner[..k];
    assert forall i :: 0 <= i < k ==> done[i] == inner[i];
    RunKeepsOk(done);
    hide After, ReplyAt;
    forall i | 0 <= i < |done| && done[i].Submit?
      ensures done[i].o.id != 0
    {
      assert inner[i] == done[i] && Submitted(inner, inner[i].o.id);
    }
    assert !Submitted(done, 0);
    assert !After(done).Rests(0);
    CancelOfNone(After(done));
  }

  /** The engine is about to serve an add and has no slot left. */
  predicate Full(s: Sys) {
    s.queue != [] && s.queue[0].cmd.Submit? && s.used >= s.capacity
  }

  lemma NothingYet(capacity: nat, events: seq<Event>)
    requires events == []
    ensures Exec(capacity, events) == IdleSystem(capacity)
  {
  }

  lemma ExecNext(capacity: nat, events: seq<Event>, i: nat)
    requires i < |events|
    ensures Exec(capacity, events[..i + 1]) == Next(Exec(capacity, events[..i]), events[i])
  {
    assert events[..i + 1][..i] == events[..i];
  }

  lemma DispatchActs(s: Sys)
    requires Enabled(s, Event.Dispatch) && !Full(s)
    ensures s.queue != []
    ensures var cmd, t := s.queue[0].cmd, Next(s, Event.Dispatch);
      && (cmd.Submit? ==> s.used < s.capacity)
      && t.view == Step(s.view, cmd).0 && t.capacity == s.capacity && t.inner == s.inner + [cmd]
      && t.used == s.used + (if cmd.Submit? then 1 else 0)
  {
    hide Step;
  }

  lemma BookIdle(s: Sys, e: Event)
    requires !(e.Dispatch? && Enabled(s, e) && !Full(s))
    ensures Next(s, e).view == s.view && Next(s, e).used == s.used && Next(s, e).capacity == s.capacity
    ensures Next(s, e).inner == s.inner || Next(s, e).inner == s.inner + [Cmd.Cancel(0)]
  {
    hide Step, ExtReply;
  }

  // ----- why prices are positive

  /** A buy and a sell at price 0. */
  function ZeroPrices(): seq<Cmd<nat>> {
    [Submit(Order(1, Buy, Limit, 0, 1, 0)), Submit(Order(2, Sell, Limit, 0, 1, 0))]
  }

  lemma BuyRestsAtZero()
    ensures var o: Order<nat> := Order(1, Buy, Limit, 0, 1, 0);
      AddOrder(View([], []), o) == Added(View([Entry(1, 0, 1)], []), [], true)
  {
    var e: Entry<nat> := Entry(1, 0, 1);
    assert Insert([], e, Buy) == [e];
  }

  lemma SellTradesAtZero()
    ensures var o: Order<nat> := Order(2, Sell, Limit, 0, 1, 0);
      AddOrder(View([Entry(1, 0, 1)], []), o) == Added(View([], []), [Fill(1, 2, 0, 1)], false)
  {
    var o: Order<nat> := Order(2, Sell, Limit, 0, 1, 0);
    var e: Entry<nat> := Entry(1, 0, 1);
    assert Walk([e][1..], o, 0) == Walked([], [], 0);
    assert Walk([e], o, 1) == Walked([Fill(1, 2, 0, 1)], [], 0);
  }

  /** The flat commands trade them. */
  lemma ZeroPricesTrade()
    ensures var cmds := ZeroPrices();
      && FreshIds(cmds) && !PositivePrice(cmds[0])
      && After(cmds[..1]) == View([Entry(1, 0, 1)], [])
      && ReplyAt(cmds, 1) == Accepted([Fill(1, 2, 0, 1)], false)
  {
    var cmds := ZeroPrices();
    BuyRestsAtZero();
    SellTradesAtZero();
    hide AddOrder;
    assert cmds[..0] == [];
    NothingRun(cmds[..0]);
    NextOfRun(cmds, 0);
    NextOfRun(cmds, 1);
  }

  /** The code does not trade them: once the buy rests, the sell is told there is no bid. */
  method BidAtZeroIsMissed() returns (book: Book, lvl: Level?)
    ensures fresh(book) && 0 in book.bids && book.bids[0].queue == [Entry(1, 0, 1)] && lvl == null
  {
    hide Book.Valid, Book.Contents;
    book := new Book(1);
    lvl := book.FirstOrder(ZeroPrices()[0].o);
  }
}
