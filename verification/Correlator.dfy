/** A bot's correlator in lock-step with its validator. */
module Correlator {
  import opened Pipeline

  /** `n` events come out of the bot; three channels are bounded. */
  datatype Lanes = Lanes(n: nat, resultsCap: nat, verdictsCap: nat, eventsCap: nat)

  datatype Phase = NextEvent | AwaitVerdict | Forwarding(verdict: nat) | Closing | Done

  /** `judged[k]` is the verdict forwarded with event `k`; `collected` counts events taken off the shared
      channel by the telemetry reader. */
  datatype LockStep = LockStep(
    phase: Phase, event: nat, results: seq<nat>, resultsClosed: bool, hand: Hand,
    verdicts: seq<nat>, verdictsClosed: bool, judged: seq<nat>, collected: nat)

  const BEGIN := LockStep(NextEvent, 0, [], false, Empty, [], false, [], 0)

  datatype Move =
    | Feed
    | Take
    | Judge
    | Fetch
    | Forward
    | Collect
    | CloseResults
    | CloseVerdicts
    | End

  predicate Possible(l: Lanes, s: LockStep, m: Move) {
    match m
    case Feed => s.phase.NextEvent? && s.event < l.n && |s.results| < l.resultsCap
    case Take => s.hand.Empty? && s.results != []
    case Judge => s.hand.Holding? && |s.verdicts| < l.verdictsCap
    case Fetch => s.phase.AwaitVerdict? && s.verdicts != []
    case Forward => s.phase.Forwarding? && |s.judged| - s.collected < l.eventsCap
    case Collect => s.collected < |s.judged|
    case CloseResults => s.phase.NextEvent? && s.event == l.n
    case CloseVerdicts => s.hand.Empty? && s.results == [] && s.resultsClosed && !s.verdictsClosed
    case End => s.phase.Closing? && s.verdictsClosed && s.verdicts == []
  }

  function After(l: Lanes, s: LockStep, m: Move): LockStep {
    if !Possible(l, s, m) then s
    else
      match m
      case Feed => s.(phase := AwaitVerdict, results := s.results + [s.event])
      case Take => s.(hand := Holding(s.results[0]), results := s.results[1..])
      case Judge => s.(hand := Empty, verdicts := s.verdicts + [s.hand.tick])
      case Fetch => s.(phase := Forwarding(s.verdicts[0]), verdicts := s.verdicts[1..])
      case Forward => s.(phase := NextEvent, event := s.event + 1, judged := s.judged + [s.phase.verdict])
      case Collect => s.(collected := s.collected + 1)
      case CloseResults => s.(phase := Closing, resultsClosed := true)
      case CloseVerdicts => s.(verdictsClosed := true)
      case End => s.(phase := Done)
  }

  function Moves(l: Lanes, moves: seq<Move>): LockStep {
    if moves == [] then BEGIN else After(l, Moves(l, moves[..|moves| - 1]), moves[|moves| - 1])
  }

  /** Results sent to the validator and not yet answered. */
  function Outstanding(s: LockStep): seq<nat> {
    s.verdicts + InHand(s.hand) + s.results
  }

  ghost predicate OnlyCurrent(s: LockStep) {
    Outstanding(s) == if s.phase.AwaitVerdict? then [s.event] else []
  }

  ghost predicate InStep(l: Lanes, s: LockStep) {
    && OnlyCurrent(s)
    && s.judged == UpTo(s.event) && |s.judged| == s.event <= l.n && s.collected <= |s.judged|
    && (s.phase.Forwarding? ==> s.phase.verdict == s.event)
    && (s.phase.AwaitVerdict? || s.phase.Forwarding? ==> s.event < l.n)
    && (s.resultsClosed <==> s.phase.Closing? || s.phase.Done?)
    && (s.resultsClosed ==> s.event == l.n)
    && (s.verdictsClosed ==> s.resultsClosed)
    && (s.phase.Done? ==> s.verdictsClosed)
  }

  lemma OneOutstanding(a: seq<nat>, h: seq<nat>, r: seq<nat>, e: nat)
    requires a + h + r == [e]
    ensures a != [] ==> a == [e] && h == [] && r == []
    ensures h != [] ==> a == [] && h == [e] && r == []
    ensures r != [] ==> a == [] && h == [] && r == [e]
  {
    assert |a| + |h| + |r| == 1;
  }

  lemma AfterOnlyCurrent(l: Lanes, s: LockStep, m: Move)
    requires OnlyCurrent(s)
    ensures OnlyCurrent(After(l, s, m))
  {
    if s.phase.AwaitVerdict? {
      OneOutstanding(s.verdicts, InHand(s.hand), s.results, s.event);
    } else {
      assert |s.verdicts| + |InHand(s.hand)| + |s.results| == |Outstanding(s)| == 0;
    }
  }

  lemma AfterInStep(l: Lanes, s: LockStep, m: Move)
    requires InStep(l, s)
    ensures InStep(l, After(l, s, m))
  {
    AfterOnlyCurrent(l, s, m);
    if m.Fetch? && Possible(l, s, m) {
      FetchesCurrent(l, s, m);
    }
    assert UpTo(s.event + 1) == UpTo(s.event) + [s.event];
    hide UpTo, OnlyCurrent;
  }

  lemma FetchesCurrent(l: Lanes, s: LockStep, m: Move)
    requires OnlyCurrent(s) && m.Fetch? && Possible(l, s, m)
    ensures s.verdicts[0] == s.event
  {
    OneOutstanding(s.verdicts, InHand(s.hand), s.results, s.event);
  }

  lemma {:induction false} AlwaysInStep(l: Lanes, moves: seq<Move>)
    ensures InStep(l, Moves(l, moves))
  {
    if moves != [] {
      AlwaysInStep(l, moves[..|moves| - 1]);
      AfterInStep(l, Moves(l, moves[..|moves| - 1]), moves[|moves| - 1]);
    } else {
      assert UpTo(0) == [];
    }
  }

  /** No channel ever holds more than its capacity. */
  lemma {:induction false} LanesHold(l: Lanes, moves: seq<Move>)
    ensures var s := Moves(l, moves);
      |s.results| <= l.resultsCap && |s.verdicts| <= l.verdictsCap && |s.judged| - s.collected <= l.eventsCap
  {
    if moves != [] {
      LanesHold(l, moves[..|moves| - 1]);
    }
  }

  /** At most one result is outstanding, so the k-th verdict forwarded is about the k-th event. */
  lemma VerdictMatchesEvent(l: Lanes, moves: seq<Move>, k: nat)
    requires k < |Moves(l, moves).judged|
    ensures Moves(l, moves).judged[k] == k && |Outstanding(Moves(l, moves))| <= 1
  {
    AlwaysInStep(l, moves);
  }

  /** As long as the telemetry reader reads, the correlator goes on to its end, having forwarded every
      event. */
  lemma LockStepNeverStuck(l: Lanes, moves: seq<Move>)
    requires l.resultsCap > 0 && l.verdictsCap > 0 && l.eventsCap > 0
    ensures var s := Moves(l, moves);
      (forall m: Move :: !Possible(l, s, m)) <==> s.phase.Done? && s.verdictsClosed && s.collected == |s.judged| == l.n
  {
    AlwaysInStep(l, moves);
    var s := Moves(l, moves);
    hide Moves, UpTo;
    if s.collected < |s.judged| {
      assert Possible(l, s, Collect);
    } else {
      match s.phase {
        case NextEvent =>
          if s.event < l.n {
            assert |Outstanding(s)| == 0;
            assert Possible(l, s, Feed);
          } else {
            assert Possible(l, s, Move.CloseResults);
          }
        case AwaitVerdict =>
          OneOutstanding(s.verdicts, InHand(s.hand), s.results, s.event);
          if s.verdicts != [] {
            assert Possible(l, s, Fetch);
          } else if s.hand.Holding? {
            assert Possible(l, s, Move.Judge);
          } else {
            assert Possible(l, s, Move.Take);
          }
        case Forwarding(_) => assert Possible(l, s, Forward);
        case Closing =>
          assert |Outstanding(s)| == 0;
          if s.verdictsClosed {
            assert Possible(l, s, End);
          } else {
            assert Possible(l, s, Move.CloseVerdicts);
          }
        case Done => assert |Outstanding(s)| == 0;
      }
    }
  }
}
