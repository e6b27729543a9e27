/** A bot in front of the reference contestant, its events handed to a validator of its own. */
module Fleet {
  import opened Protocol
  import opened Contestant
  import opened Validation
  import opened EndToEnd
  import opened BotWorker

  /** Everything the contestant says to the first `n` ticks. */
  function Spoken(ticks: seq<Tick>, n: nat): seq<Response>
    requires n <= |ticks|
  {
    if n == 0 then [] else Spoken(ticks, n - 1) + Heard(ticks, n - 1)
  }

  /** The correlator hands each event on as the result of one tick. */
  function Correlated(events: seq<BotEvent>): (results: seq<TickResult>)
    ensures |results| == |events|
    ensures forall k :: 0 <= k < |events| ==> results[k] == TickResult(events[k].tick, events[k].responses)
  {
    seq(|events|, k requires 0 <= k < |events| => TickResult(events[k].tick, events[k].responses))
  }

  lemma HeardBlock(ticks: seq<Tick>, k: nat)
    requires GoodTicks(ticks) && AllSendable(ticks) && k < |ticks|
    ensures Block(ticks[k].orderID, Heard(ticks, k))
  {
    hide Heard, Sendable, Block;
    if ticks[k].typ == TickAdd {
      HeardAdd(ticks, k);
    } else {
      assert ticks[k].typ == TickCancel;
      HeardCancel(ticks, k);
    }
  }

  lemma AnswersSnoc(past: seq<Response>, r: Response)
    ensures Answers(past + [r]) == Answers(past) + (if r.Terminal() then 1 else 0)
  {
    assert (past + [r])[..|past|] == past;
  }

  lemma {:induction false} FillsAdd(past: seq<Response>, fills: seq<Response>, id: string)
    requires forall i :: 0 <= i < |fills| ==> fills[i].FILL? && fills[i].orderID == id
    ensures Since(past + fills, id) == Since(past, id) + fills
    ensures forall x :: x != id ==> Since(past + fills, x) == Since(past, x)
    ensures Answers(past + fills) == Answers(past)
  {
    hide Since, Answers;
    if fills == [] {
      assert past + fills == past;
      assert Since(past, id) + [] == Since(past, id);
    } else {
      var most, last := fills[..|fills| - 1], fills[|fills| - 1];
      FillsAdd(past, most, id);
      assert past + fills == past + most + [last];
      AnswersSnoc(past + most, last);
      SinceSnoc(past + most, last, id);
      assert Since(past, id) + fills == Since(past, id) + most + [last];
      forall x | x != id
        ensures Since(past + fills, x) == Since(past, x)
      {
        SinceSnoc(past + most, last, x);
      }
    }
  }

  /** After a whole block nothing is pending under its id, and the rest is as before. */
  lemma BlockSettles(past: seq<Response>, block: seq<Response>, id: string)
    requires Block(id, block)
    ensures Since(past + block, id) == []
    ensures forall x :: x != id ==> Since(past + block, x) == Since(past, x)
    ensures Answers(past + block) == Answers(past) + 1
  {
    hide Since, Answers;
    var fills, last := block[..|block| - 1], block[|block| - 1];
    FillsAdd(past, fills, id);
    assert past + block == past + fills + [last];
    AnswersSnoc(past + fills, last);
    forall x
      ensures Since(past + block, x) == if x == id then [] else Since(past, x)
    {
      SinceSnoc(past + fills, last, x);
    }
  }

  /** After whole blocks nothing is pending under any id. */
  lemma {:induction false} SpokenSettles(ticks: seq<Tick>, n: nat)
    requires GoodTicks(ticks) && AllSendable(ticks) && n <= |ticks|
    ensures forall id :: Since(Spoken(ticks, n), id) == []
    ensures Answers(Spoken(ticks, n)) == n
  {
    if n > 0 {
      hide Heard, Sendable, GoodTicks, AllSendable, Since, Answers, Block;
      SpokenSettles(ticks, n - 1);
      HeardBlock(ticks, n - 1);
      BlockSettles(Spoken(ticks, n - 1), Heard(ticks, n - 1), ticks[n - 1].orderID);
    }
  }

  /** Position `at` holds the last response of `block`, which began where `prior` ended. */
  ghost predicate Closes(said: seq<Response>, at: nat, prior: seq<Response>, block: seq<Response>) {
    && at < |said| && block != []
    && said[..at] == prior + block[..|block| - 1] && said[at] == block[|block| - 1]
  }

  lemma ClosesEarlier(past: seq<Response>, more: seq<Response>, at: nat, prior: seq<Response>, block: seq<Response>)
    requires Closes(past, at, prior, block)
    ensures Closes(past + more, at, prior, block)
  {
    assert (past + more)[..at] == past[..at];
  }

  lemma ClosesHere(past: seq<Response>, block: seq<Response>, at: nat, id: string)
    requires Block(id, block) && |past| <= at < |past + block| && (past + block)[at].Terminal()
    ensures Closes(past + block, at, past, block) && Answers((past + block)[..at]) == Answers(past)
  {
    assert (past + block)[at] == block[at - |past|];
    assert at - |past| == |block| - 1;
    assert (past + block)[..at] == past + block[..|block| - 1];
    FillsAdd(past, block[..|block| - 1], id);
  }

  /** The terminal response with `k` others before it closes tick `k`'s block. */
  lemma {:induction false} ClosesBlock(ticks: seq<Tick>, n: nat, said: seq<Response>, at: nat, k: nat)
    requires GoodTicks(ticks) && AllSendable(ticks) && n <= |ticks| && said == Spoken(ticks, n)
    requires at < |said| && said[at].Terminal() && Answers(said[..at]) == k
    ensures k < n && Closes(said, at, Spoken(ticks, k), Heard(ticks, k))
    decreases n
  {
    hide Heard, Sendable, GoodTicks, AllSendable, Since, Answers, Block, Closes;
    var past, block := Spoken(ticks, n - 1), Heard(ticks, n - 1);
    if at < |past| {
      assert said[..at] == past[..at];
      ClosesBlock(ticks, n - 1, past, at, k);
      ClosesEarlier(past, block, at, Spoken(ticks, k), Heard(ticks, k));
    } else {
      HeardBlock(ticks, n - 1);
      ClosesHere(past, block, at, ticks[n - 1].orderID);
      SpokenSettles(ticks, n - 1);
    }
  }

  /** What an event carries is exactly what the contestant said to its tick. */
  lemma EventCarriesBlock(ticks: seq<Tick>, acts: seq<Action>, k: nat)
    requires GoodTicks(ticks) && AllSendable(ticks)
    requires InOrder(ticks, acts) && Run(ticks, acts).overwritten == 0
    requires Run(ticks, acts).received <= Spoken(ticks, |ticks|)
    requires k < |Run(ticks, acts).events|
    ensures k < |ticks|
    ensures var e := Run(ticks, acts).events[k]; e.tick == ticks[k] && e.responses == Heard(ticks, k)
  {
    hide Heard, Sendable, GoodTicks, AllSendable, Since, InOrder, Run, Answers, Window, Block, Closes, FillsOk, Tagged;
    var s, n := Run(ticks, acts), |ticks|;
    AlwaysGrouped(ticks, acts);
    AlwaysCounted(ticks, acts);
    OneEventPerTick(ticks, acts);
    var at, said := s.from[k], Spoken(ticks, n);
    assert Complete(s.received, at, s.events[k]);
    assert said[..at] == s.received[..at] && said[at] == s.received[at];
    ClosesBlock(ticks, n, said, at, k);
    assert s.events[k].orderID == ticks[k].orderID by { CountedIds(ticks, s, k); }
    HeardBlock(ticks, k);
    SpokenSettles(ticks, k);
    CarriesBlock(said, at, Spoken(ticks, k), Heard(ticks, k), ticks[k].orderID);
  }

  lemma CountedIds(ticks: seq<Tick>, s: BotState, k: nat)
    requires Counted(ticks, s) && OneEach(ticks, s) && k < |s.events|
    ensures s.events[k].orderID == ticks[k].orderID
  {
  }

  lemma CarriesBlock(said: seq<Response>, at: nat, past: seq<Response>, block: seq<Response>, id: string)
    requires Closes(said, at, past, block) && Block(id, block) && Since(past, id) == []
    ensures said[at].orderID == id && Since(said[..at], id) + [said[at]] == block
  {
    var fills, last := block[..|block| - 1], block[|block| - 1];
    FillsAdd(past, fills, id);
    hide Since;
    assert [] + fills == fills && block == fills + [last];
  }

  lemma PlayedPrefix(ticks: seq<Tick>, n: nat)
    requires n <= |ticks|
    ensures Played(ticks[..n]) == Played(ticks)[..n]
  {
    assert forall k :: 0 <= k < n ==> ticks[..n][..k] == ticks[..k];
    hide Heard;
    assert forall k :: 0 <= k < n ==> Heard(ticks[..n], k) == Heard(ticks, k) by {
      forall k | 0 <= k < n
        ensures Heard(ticks[..n], k) == Heard(ticks, k)
      {
        HeardPrefix(ticks, n, k);
      }
    }
  }

  lemma HeardPrefix(ticks: seq<Tick>, n: nat, k: nat)
    requires k < n <= |ticks|
    ensures Heard(ticks[..n], k) == Heard(ticks, k)
  {
    assert ticks[..n][..k] == ticks[..k];
  }

  /** What the bot saw came from the reference contestant over a network that keeps order, every answer
      after its tick was stored, and no id was in flight twice. */
  ghost predicate Delivered(ticks: seq<Tick>, acts: seq<Action>) {
    && InOrder(ticks, acts) && Run(ticks, acts).overwritten == 0
    && Run(ticks, acts).received <= Spoken(ticks, |ticks|)
  }

  ghost predicate AllCorrect(results: seq<TickResult>) {
    forall k :: 0 <= k < |results| ==> VerdictAt(results, k).correct
  }

  /** Then the bot's own validator calls every event correct: the fleet sees what the closed loop sees. */
  lemma BotAlwaysCorrect(ticks: seq<Tick>, acts: seq<Action>)
    requires GoodTicks(ticks) && AllSendable(ticks) && Adds(ticks) <= ARENA
    ensures Delivered(ticks, acts) ==> AllCorrect(Correlated(Run(ticks, acts).events))
  {
    hide Heard, Sendable, InOrder, VerdictAt, Run, Spoken, Played, Adds, GoodTicks, AllSendable;
    var events := Run(ticks, acts).events;
    var n := |events|;
    AlwaysCounted(ticks, acts);
    if Delivered(ticks, acts) {
      forall j | 0 <= j < n
        ensures Correlated(events)[j] == Played(ticks)[j]
      {
        EventCarriesBlock(ticks, acts, j);
        PlayedAt(ticks, j);
      }
      PlayedPrefix(ticks, n);
      assert Correlated(events) == Played(ticks[..n]);
      PrefixGood(ticks, n);
      assert ticks == ticks[..n] + ticks[n..];
      AddsConcat(ticks[..n], ticks[n..]);
      forall k | 0 <= k < n
        ensures VerdictAt(Correlated(events), k).correct
      {
        ContestantAlwaysCorrect(ticks[..n], k);
      }
    }
  }

  lemma PlayedAt(ticks: seq<Tick>, k: nat)
    requires k < |ticks|
    ensures Played(ticks)[k] == TickResult(ticks[k], Heard(ticks, k))
  {
  }

  /** The bot's own validator, with an arena of the shard's length and a hundred more, takes every event a
      bot can produce: whatever the schedule and whatever the contestant says. */
  method JudgeEvents(ticks: seq<Tick>, ghost acts: seq<Action>, events: seq<BotEvent>) returns (verdicts: seq<Verdict>)
    requires AllPriced(ticks) && events == Run(ticks, acts).events
    ensures |verdicts| == |events| && forall k :: 0 <= k < |events| ==> verdicts[k] == VerdictAt(Correlated(events), k)
  {
    hide Run, Priced, VerdictAt, StateAfter, Validator.Valid;
    AlwaysCounted(ticks, acts);
    var v := new Validator.WithCapacity(|ticks| + 100);
    var results := Correlated(events);
    AddsBound(TicksOf(results));
    verdicts := v.Consume(results);
  }
}
