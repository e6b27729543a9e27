/** Ticks cut into one shard a worker, and each of those into one shard a bot. */
module Sharding {
  import opened Protocol
  import opened Contestant
  import opened Validation
  import opened EndToEnd
  import opened BotWorker
  import opened Fleet
  import opened Workload

  const BOT_COUNT := 200

  /** Where shard `i` begins. */
  function Start(size: nat, i: nat): nat {
    i * size
  }

  /** Shard `i` of `n`; the last takes the remainder. */
  function Shard(ticks: seq<Tick>, n: nat, i: nat): (shard: seq<Tick>)
    requires i < n
    ensures |shard| == |ticks| / n + (if i == n - 1 then |ticks| % n else 0)
  {
    hide Start;
    var size := |ticks| / n;
    InRange(|ticks|, n, i);
    if i < n - 1 then ticks[Start(size, i)..Start(size, i + 1)] else ticks[Start(size, n - 1)..]
  }

  lemma Strips(size: nat, i: nat, n: nat)
    requires i < n
    ensures Start(size, i + 1) == Start(size, i) + size <= Start(size, n)
    decreases n - i
  {
    if i + 1 < n {
      Strips(size, i + 1, n);
    }
  }

  lemma WholeStrips(length: nat, n: nat)
    requires n > 0
    ensures length == Start(length / n, n) + length % n
  {
  }

  lemma InRange(length: nat, n: nat, i: nat)
    requires i < n
    ensures Start(length / n, i) + length / n == Start(length / n, i + 1) <= length
    ensures length - Start(length / n, n - 1) == length / n + length % n
  {
    hide Start;
    WholeStrips(length, n);
    Strips(length / n, i, n);
    Strips(length / n, n - 1, n);
  }

  function Shards(ticks: seq<Tick>, n: nat): (shards: seq<seq<Tick>>)
    requires n > 0
    ensures |shards| == n && forall i :: 0 <= i < n ==> shards[i] == Shard(ticks, n, i)
  {
    seq(n, i requires 0 <= i < n => Shard(ticks, n, i))
  }

  method SplitTicks(ticks: seq<Tick>, n: nat) returns (shards: array<seq<Tick>>)
    requires n > 0
    ensures fresh(shards) && shards[..] == Shards(ticks, n)
  {
    hide Start;
    shards := new seq<Tick>[n];
    var size := |ticks| / n;
    for i := 0 to n - 1
      invariant forall j :: 0 <= j < i ==> shards[j] == Shard(ticks, n, j)
    {
      InRange(|ticks|, n, i);
      shards[i] := ticks[Start(size, i)..Start(size, i + 1)];
    }
    InRange(|ticks|, n, n - 1);
    shards[n - 1] := ticks[Start(size, n - 1)..];
  }

  function Concat(shards: seq<seq<Tick>>): seq<Tick> {
    if shards == [] then [] else Concat(shards[..|shards| - 1]) + shards[|shards| - 1]
  }

  lemma ConcatSnoc(shards: seq<seq<Tick>>, k: nat)
    requires k < |shards|
    ensures Concat(shards[..k + 1]) == Concat(shards[..k]) + shards[k]
  {
    assert shards[..k + 1][..k] == shards[..k];
  }

  lemma Pieces(ticks: seq<Tick>, from: nat, to: nat)
    requires from <= to <= |ticks|
    ensures ticks[..from] + ticks[from..to] == ticks[..to] && ticks[..from] + ticks[from..] == ticks
  {
  }

  lemma {:induction false} ConcatPrefix(ticks: seq<Tick>, n: nat, k: nat)
    requires n > 0 && k < n
    ensures Start(|ticks| / n, k) <= |ticks| && Concat(Shards(ticks, n)[..k]) == ticks[..Start(|ticks| / n, k)]
  {
    var size := |ticks| / n;
    if k == 0 {
      assert Start(size, 0) == 0;
    } else {
      hide Start, Concat;
      ConcatPrefix(ticks, n, k - 1);
      InRange(|ticks|, n, k - 1);
      ConcatSnoc(Shards(ticks, n), k - 1);
      Pieces(ticks, Start(size, k - 1), Start(size, k));
    }
  }

  /** The shards put back together are the ticks. */
  lemma ShardsConcat(ticks: seq<Tick>, n: nat)
    requires n > 0
    ensures Concat(Shards(ticks, n)) == ticks
  {
    hide Start, Concat;
    ConcatPrefix(ticks, n, n - 1);
    InRange(|ticks|, n, n - 1);
    ConcatSnoc(Shards(ticks, n), n - 1);
    assert Shards(ticks, n)[..n] == Shards(ticks, n);
    Pieces(ticks, Start(|ticks| / n, n - 1), |ticks|);
  }

  /** All bots' shards, worker by worker. */
  function BotShards(workerShards: seq<seq<Tick>>, bots: nat): seq<seq<Tick>>
    requires bots > 0
  {
    if workerShards == [] then []
    else BotShards(workerShards[..|workerShards| - 1], bots) + Shards(workerShards[|workerShards| - 1], bots)
  }

  lemma {:induction false} ConcatAppend(a: seq<seq<Tick>>, b: seq<seq<Tick>>)
    ensures Concat(a + b) == Concat(a) + Concat(b)
  {
    if b == [] {
      assert a + b == a;
    } else {
      assert (a + b)[..|a + b| - 1] == a + b[..|b| - 1];
      ConcatAppend(a, b[..|b| - 1]);
    }
  }

  lemma {:induction false} BotShardsConcat(workerShards: seq<seq<Tick>>, bots: nat)
    requires bots > 0
    ensures Concat(BotShards(workerShards, bots)) == Concat(workerShards)
  {
    if workerShards != [] {
      var last := workerShards[|workerShards| - 1];
      BotShardsConcat(workerShards[..|workerShards| - 1], bots);
      ConcatAppend(BotShards(workerShards[..|workerShards| - 1], bots), Shards(last, bots));
      ShardsConcat(last, bots);
    }
  }

  /** Cutting twice loses, repeats and reorders nothing. */
  lemma TwoLevelsConcat(ticks: seq<Tick>, workers: nat, bots: nat)
    requires workers > 0 && bots > 0
    ensures Concat(BotShards(Shards(ticks, workers), bots)) == ticks
  {
    BotShardsConcat(Shards(ticks, workers), bots);
    ShardsConcat(ticks, workers);
  }

  /** No shard exceeds an even share by more than the number of shards less one. */
  lemma LargestShard(ticks: seq<Tick>, n: nat, i: nat)
    requires i < n
    ensures |Shard(ticks, n, i)| <= |ticks| / n + n - 1
  {
  }

  /** A stretch of a good tick list is one. */
  lemma StretchGood(ticks: seq<Tick>, from: nat, to: nat)
    requires from <= to <= |ticks| && GoodTicks(ticks) && AllSendable(ticks)
    ensures var part := ticks[from..to]; GoodTicks(part) && AllSendable(part)
  {
    hide Sendable, Priced;
  }

  lemma ShardGood(ticks: seq<Tick>, n: nat, i: nat)
    requires i < n && GoodTicks(ticks) && AllSendable(ticks)
    ensures var shard := Shard(ticks, n, i); GoodTicks(shard) && AllSendable(shard)
  {
    hide GoodTicks, AllSendable, Start;
    InRange(|ticks|, n, i);
    var size := |ticks| / n;
    var to := if i < n - 1 then Start(size, i + 1) else |ticks|;
    assert Shard(ticks, n, i) == ticks[Start(size, i)..to];
    StretchGood(ticks, Start(size, i), to);
  }

  /** A bot's shard of generated ticks. */
  function BotTicks(draws: seq<Draw>, workers: nat, w: nat, bots: nat, b: nat): seq<Tick>
    requires w < workers && b < bots
  {
    Shard(Shard(Draws(draws).ticks, workers, w), bots, b)
  }

  lemma BotTicksGood(draws: seq<Draw>, workers: nat, w: nat, bots: nat, b: nat)
    requires w < workers && b < bots
    ensures var ticks := BotTicks(draws, workers, w, bots, b); GoodTicks(ticks) && AllSendable(ticks)
  {
    hide Draws, GoodTicks, AllSendable, Fair, Shard, Tidy;
    var all := Draws(draws).ticks;
    GeneratorIsFair(draws);
    FairIsGood(all);
    ShardGood(all, workers, w);
    ShardGood(Shard(all, workers, w), bots, b);
  }

  /** From the random draws to the verdicts of any bot of any worker: in front of the reference
      contestant, whose arena the shard fits, every event is judged correct. */
  lemma FleetOverGeneratedTicks(draws: seq<Draw>, workers: nat, w: nat, bots: nat, b: nat, acts: seq<Action>)
    requires w < workers && b < bots
    ensures var ticks := BotTicks(draws, workers, w, bots, b);
      Adds(ticks) <= ARENA && Delivered(ticks, acts) ==> AllCorrect(Correlated(Run(ticks, acts).events))
  {
    hide BotTicks, GoodTicks, AllSendable, Delivered, AllCorrect, Run, Adds;
    BotTicksGood(draws, workers, w, bots, b);
    if Adds(BotTicks(draws, workers, w, bots, b)) <= ARENA {
      BotAlwaysCorrect(BotTicks(draws, workers, w, bots, b), acts);
    }
  }

  /** Two hundred bots a worker: up to three million ticks a worker, no shard outgrows a connection's arena. */
  lemma BotShardFits(draws: seq<Draw>, workers: nat, w: nat, b: nat)
    requires w < workers && b < BOT_COUNT && |draws| / workers + workers <= 3_000_000
    ensures Adds(BotTicks(draws, workers, w, BOT_COUNT, b)) <= ARENA
  {
    GeneratorIsFair(draws);
    hide Fair, Tidy, Adds, Draws;
    var mine := Shard(Draws(draws).ticks, workers, w);
    LargestShard(Draws(draws).ticks, workers, w);
    LargestShard(mine, BOT_COUNT, b);
    AddsBound(Shard(mine, BOT_COUNT, b));
  }
}
