/** The bounded channels between runner, validator and the code that counts verdicts. */
module Pipeline {

  /** A run of `n` ticks. `concurrent` says whether verdicts are drained while the runner is still
      sending, as the smoke test does, or only after it has returned. */
  datatype Config = Config(n: nat, resultsCap: nat, verdictsCap: nat, concurrent: bool)

  datatype Hand = Empty | Holding(tick: nat)

  /** Channels hold tick numbers: a result or verdict is named by the tick it is about. */
  datatype State = State(
    sent: nat, resultsClosed: bool, results: seq<nat>, hand: Hand,
    verdicts: seq<nat>, verdictsClosed: bool, counted: seq<nat>, finished: bool)

  const START := State(0, false, [], Empty, [], false, [], false)

  datatype Step =
    | Send
    | CloseResults
    | Take
    | Judge
    | CloseVerdicts
    | Count
    | Finish

  predicate Draining(c: Config, s: State) {
    c.concurrent || s.resultsClosed
  }

  predicate Enabled(c: Config, s: State, step: Step) {
    match step
    case Send => s.sent < c.n && |s.results| < c.resultsCap
    case CloseResults => s.sent == c.n && !s.resultsClosed
    case Take => s.hand.Empty? && s.results != []
    case Judge => s.hand.Holding? && |s.verdicts| < c.verdictsCap
    case CloseVerdicts => s.hand.Empty? && s.results == [] && s.resultsClosed && !s.verdictsClosed
    case Count => Draining(c, s) && s.verdicts != []
    case Finish => Draining(c, s) && s.verdicts == [] && s.verdictsClosed && !s.finished
  }

  function Next(c: Config, s: State, step: Step): State {
    if !Enabled(c, s, step) then s
    else
      match step
      case Send => s.(sent := s.sent + 1, results := s.results + [s.sent])
      case CloseResults => s.(resultsClosed := true)
      case Take => s.(hand := Holding(s.results[0]), results := s.results[1..])
      case Judge => s.(hand := Empty, verdicts := s.verdicts + [s.hand.tick])
      case CloseVerdicts => s.(verdictsClosed := true)
      case Count => s.(counted := s.counted + [s.verdicts[0]], verdicts := s.verdicts[1..])
      case Finish => s.(finished := true)
  }

  function Run(c: Config, steps: seq<Step>): State {
    if steps == [] then START else Next(c, Run(c, steps[..|steps| - 1]), steps[|steps| - 1])
  }

  // ----- nothing is lost or reordered

  function UpTo(n: nat): (s: seq<nat>)
    ensures |s| == n && forall i :: 0 <= i < n ==> s[i] == i
  {
    seq(n, i => i)
  }

  function InHand(h: Hand): seq<nat> {
    if h.Holding? then [h.tick] else []
  }

  /** Counted, in the channels and in the validator's hand together: the ticks sent, in order. */
  ghost predicate Flowing(c: Config, s: State) {
    && s.counted + s.verdicts + InHand(s.hand) + s.results == UpTo(s.sent)
    && s.sent <= c.n && |s.results| <= c.resultsCap && |s.verdicts| <= c.verdictsCap
    && (s.resultsClosed ==> s.sent == c.n)
    && (s.verdictsClosed ==> s.resultsClosed && s.hand.Empty? && s.results == [])
    && (s.finished ==> s.verdictsClosed && s.verdicts == [])
    && (!Draining(c, s) ==> s.counted == [])
  }

  lemma Regroup(a: seq<nat>, b: seq<nat>, h: seq<nat>, d: seq<nat>)
    ensures b != [] ==> (a + [b[0]]) + b[1..] + h + d == a + b + h + d
    ensures d != [] ==> a + b + [d[0]] + d[1..] == a + b + [] + d
    ensures a + (b + h) + [] + d == a + b + h + d
  {
  }

  lemma NextFlows(c: Config, s: State, step: Step)
    requires Flowing(c, s)
    ensures Flowing(c, Next(c, s, step))
  {
    var t := Next(c, s, step);
    Regroup(s.counted, s.verdicts, InHand(s.hand), s.results);
    assert UpTo(s.sent + 1) == UpTo(s.sent) + [s.sent];
    hide UpTo;
    if step.Send? && Enabled(c, s, step) {
      assert s.counted + s.verdicts + InHand(s.hand) + (s.results + [s.sent])
          == s.counted + s.verdicts + InHand(s.hand) + s.results + [s.sent];
    }
  }

  lemma {:induction false} AlwaysFlows(c: Config, steps: seq<Step>)
    ensures Flowing(c, Run(c, steps))
  {
    if steps != [] {
      AlwaysFlows(c, steps[..|steps| - 1]);
      NextFlows(c, Run(c, steps[..|steps| - 1]), steps[|steps| - 1]);
    } else {
      assert UpTo(0) == [];
    }
  }

  /** The k-th verdict counted is about the k-th tick, and a finished run has counted every tick. */
  lemma VerdictsInOrder(c: Config, steps: seq<Step>)
    ensures var s := Run(c, steps); s.counted == UpTo(|s.counted|)
    ensures var s := Run(c, steps); s.finished ==> s.counted == UpTo(c.n)
  {
    AlwaysFlows(c, steps);
    var s := Run(c, steps);
    var rest := s.verdicts + InHand(s.hand) + s.results;
    assert UpTo(s.sent) == s.counted + rest;
    assert forall i :: 0 <= i < |s.counted| ==> s.counted[i] == UpTo(s.sent)[i];
    if s.finished {
      assert rest == [];
    }
  }

  /** Neither channel ever holds more than its capacity. */
  lemma ChannelsHold(c: Config, steps: seq<Step>)
    ensures |Run(c, steps).results| <= c.resultsCap && |Run(c, steps).verdicts| <= c.verdictsCap
  {
    AlwaysFlows(c, steps);
  }

  // ----- deadlock

  ghost predicate Halted(c: Config, s: State) {
    forall step: Step :: !Enabled(c, s, step)
  }

  /** Moves left: four a tick, and three to shut down. Every move that happens uses one up, so every
      schedule that keeps moving halts. */
  function Work(c: Config, s: State): int {
    4 * (c.n - s.sent) + 3 * |s.results| + 2 * |InHand(s.hand)| + |s.verdicts|
    + (if s.resultsClosed then 0 else 1) + (if s.verdictsClosed then 0 else 1) + (if s.finished then 0 else 1)
  }

  lemma EveryMoveCounts(c: Config, s: State, step: Step)
    requires Enabled(c, s, step)
    ensures Work(c, Next(c, s, step)) == Work(c, s) - 1
  {
  }

  lemma WorkBounded(c: Config, steps: seq<Step>)
    ensures 0 <= Work(c, Run(c, steps)) <= 4 * c.n + 3
  {
    AlwaysFlows(c, steps);
    hide Run;
    var s := Run(c, steps);
    assert |UpTo(s.sent)| == |s.counted| + |s.verdicts| + |InHand(s.hand)| + |s.results|;
  }

  /** With the concurrent drain no schedule gets stuck, for any number of ticks: a run halts only when it
      is finished. */
  lemma DrainedNeverStuck(c: Config, steps: seq<Step>)
    requires c.concurrent && c.resultsCap > 0 && c.verdictsCap > 0
    ensures Halted(c, Run(c, steps)) <==> Run(c, steps).finished
  {
    AlwaysFlows(c, steps);
    hide UpTo, Run;
    var s := Run(c, steps);
    if !s.finished {
      SomeStep(c, s);
    }
  }

  lemma SomeStep(c: Config, s: State)
    requires Flowing(c, s) && !s.finished && Draining(c, s) && c.resultsCap > 0 && c.verdictsCap > 0
    ensures !Halted(c, s)
  {
    hide UpTo;
    if s.verdicts != [] {
      assert Enabled(c, s, Count);
    } else if s.hand.Holding? {
      assert Enabled(c, s, Judge);
    } else if s.results != [] {
      assert Enabled(c, s, Take);
    } else if s.sent < c.n {
      assert Enabled(c, s, Send);
    } else if !s.resultsClosed {
      assert Enabled(c, s, CloseResults);
    } else if !s.verdictsClosed {
      assert Enabled(c, s, CloseVerdicts);
    } else {
      assert Enabled(c, s, Finish);
    }
  }

  /** Drained only afterwards, a run that halts has finished exactly when all ticks but one fit into the
      two channels: that one is in the validator's hand. */
  lemma UndrainedStuckIff(c: Config, steps: seq<Step>)
    requires !c.concurrent && c.resultsCap > 0 && c.verdictsCap > 0 && Halted(c, Run(c, steps))
    ensures !Run(c, steps).finished <==> c.n > c.resultsCap + c.verdictsCap + 1
  {
    AlwaysFlows(c, steps);
    var s := Run(c, steps);
    assert s.sent == |UpTo(s.sent)| == |s.counted| + |s.verdicts| + |InHand(s.hand)| + |s.results|;
    if s.resultsClosed {
      NeverClosesUndrained(c, steps);
      if !s.finished {
        SomeStep(c, s);
      }
    } else {
      assert !Enabled(c, s, Send) && !Enabled(c, s, CloseResults) && !Enabled(c, s, Take) && !Enabled(c, s, Judge);
    }
  }

  lemma {:induction false} NeverClosesUndrained(c: Config, steps: seq<Step>)
    requires !c.concurrent
    ensures Run(c, steps).resultsClosed ==> c.n <= c.resultsCap + c.verdictsCap + 1
  {
    if steps != [] {
      var s := Run(c, steps[..|steps| - 1]);
      NeverClosesUndrained(c, steps[..|steps| - 1]);
      AlwaysFlows(c, steps[..|steps| - 1]);
      assert s.sent == |UpTo(s.sent)| == |s.counted| + |s.verdicts| + |InHand(s.hand)| + |s.results|;
    }
  }

  lemma RunSnoc(c: Config, past: seq<Step>, step: Step)
    ensures Run(c, past + [step]) == Next(c, Run(c, past), step)
  {
    assert (past + [step])[..|past|] == past;
  }

  /** From anywhere, at most `Work` more moves reach a halt: so an undrained run that is too long does
      get stuck, and a drained one does finish. */
  lemma {:induction false} ReachesHalt(c: Config, steps: seq<Step>)
    ensures exists more: seq<Step> :: |more| <= Work(c, Run(c, steps)) && Halted(c, Run(c, steps + more))
    decreases Work(c, Run(c, steps))
  {
    hide Run, Next, Enabled, Work;
    WorkBounded(c, steps);
    var s := Run(c, steps);
    if Halted(c, s) {
      assert steps + [] == steps && |steps[..0]| == 0;
    } else {
      var step: Step :| Enabled(c, s, step);
      RunSnoc(c, steps, step);
      EveryMoveCounts(c, s, step);
      WorkBounded(c, steps + [step]);
      ReachesHalt(c, steps + [step]);
      var rest: seq<Step> :| |rest| <= Work(c, Run(c, steps + [step])) && Halted(c, Run(c, steps + [step] + rest));
      assert steps + ([step] + rest) == steps + [step] + rest;
      assert |[step] + rest| <= Work(c, s);
    }
  }

  /** Ten thousand ticks through the two channels of 4096, drained only afterwards: some run gets stuck. */
  lemma TenThousandTicksGetStuck()
    ensures var c := Config(10_000, 4096, 4096, false);
      exists steps: seq<Step> :: Halted(c, Run(c, steps)) && !Run(c, steps).finished
  {
    var c := Config(10_000, 4096, 4096, false);
    hide Run, Halted, Work;
    ReachesHalt(c, []);
    var steps: seq<Step> :| |steps| <= Work(c, Run(c, [])) && Halted(c, Run(c, [] + steps));
    assert [] + steps == steps;
    UndrainedStuckIff(c, steps);
  }
}
