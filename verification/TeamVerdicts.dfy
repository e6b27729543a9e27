/** What the validator makes of the two hand-written contestants. */
module TeamVerdicts {
  import opened PriceTime
  import opened History
  import opened Protocol
  import opened VectorMatch
  import TeamAlpha
  import opened Validation

  /** One FILL a fill, in order, then the terminal response. */
  function Report(id: string, fills: seq<Fill<string>>, ack: bool): seq<Response> {
    if fills == [] then [if ack then ACK(id) else REJ(id, "")]
    else
      [FILL(id, fills[0].maker, fills[0].taker, fills[0].price, fills[0].qty)] + Report(id, fills[1..], ack)
  }

  lemma {:induction false} ReportReads(id: string, fills: seq<Fill<string>>, ack: bool)
    ensures SameFills(fills, FillsOf(Report(id, fills, ack)))
    ensures FirstTerminalIsACK(Report(id, fills, ack)) == ack
  {
    var r := Report(id, fills, ack);
    if fills == [] {
      assert r[1..] == [];
    } else {
      ReportReads(id, fills[1..], ack);
      assert r[1..] == Report(id, fills[1..], ack);
    }
  }

  /** What a team with delta's book answers to tick `k`. */
  function DeltaSays(cmds: seq<Cmd<string>>, k: nat): seq<Response>
    requires k < |cmds|
  {
    var v := VectorAfter(cmds[..k]);
    match cmds[k]
    case Submit(o) => Report(o.id, VectorAdd(v, o, o.typ == Limit).1, true)
    case Cancel(id) => Report(id, [], CancelOrder(v, id).1)
  }

  /** What team alpha answers to tick `k`. */
  function AlphaSays(cmds: seq<Cmd<string>>, k: nat): seq<Response>
    requires k < |cmds|
  {
    var s := TeamAlpha.AlphaAfter(cmds[..k]);
    match cmds[k]
    case Submit(o) => Report(o.id, TeamAlpha.AlphaAdd(s.0, s.1, o, o.typ == Limit).2, true)
    case Cancel(id) => Report(id, [], TeamAlpha.AlphaAnswer(s, id))
  }

  ghost predicate NonNegative(ticks: seq<Tick>) {
    forall i :: 0 <= i < |ticks| && ticks[i].typ == TickAdd ==> ticks[i].qty >= 0
  }

  lemma AllProper(ticks: seq<Tick>)
    requires NonNegative(ticks) && AllPriced(ticks)
    ensures forall i :: 0 <= i < |ticks| ==> Proper(Commands(ticks)[i])
  {
  }

  /** Team delta is judged correct on every tick. */
  lemma DeltaAlwaysCorrect(results: seq<TickResult>, k: nat)
    requires GoodTicks(TicksOf(results)) && NonNegative(TicksOf(results)) && k < |results|
    requires results[k].responses == DeltaSays(Commands(TicksOf(results)), k)
    ensures VerdictAt(results, k).correct
  {
    hide VectorAdd, CancelOrder, ReplyAt, VerdictAt, Report, SameFills, FillsOf, FirstTerminalIsACK, FreshIds,
        VectorAfter;
    var ticks := TicksOf(results);
    var cmds := Commands(ticks);
    AllProper(ticks);
    GoodCommands(ticks);
    AnswersAgree(cmds, k);
    assert ticks[k].typ != OtherTick;
    var v := VectorAfter(cmds[..k]);
    match cmds[k] {
      case Submit(o) =>
        ReportReads(o.id, VectorAdd(v, o, o.typ == Limit).1, true);
        AddVerdictExact(results, k);
      case Cancel(id) =>
        ReportReads(id, [], CancelOrder(v, id).1);
        CancelVerdictExact(results, k);
    }
  }

  /** Team alpha is judged wrong exactly on a cancel naming a market order whose remainder was dropped
      and that nobody has cancelled before. */
  lemma AlphaCorrectIff(results: seq<TickResult>, k: nat)
    requires GoodTicks(TicksOf(results)) && NonNegative(TicksOf(results)) && k < |results|
    requires results[k].responses == AlphaSays(Commands(TicksOf(results)), k)
    ensures var cmds := Commands(TicksOf(results));
      VerdictAt(results, k).correct <==> !(cmds[k].Cancel? && TeamAlpha.DroppedUncancelled(cmds[..k], cmds[k].id))
  {
    hide VectorAdd, CancelOrder, ReplyAt, VerdictAt, Report, SameFills, FillsOf, FirstTerminalIsACK, FreshIds,
        VectorAfter,
      TeamAlpha.AlphaAnswer, TeamAlpha.DroppedUncancelled, TeamAlpha.AlphaAfter;
    var ticks := TicksOf(results);
    var cmds := Commands(ticks);
    AllProper(ticks);
    GoodCommands(ticks);
    assert ticks[k].typ != OtherTick;
    var s := TeamAlpha.AlphaAfter(cmds[..k]);
    match cmds[k] {
      case Submit(o) =>
        AnswersAgree(cmds, k);
        AlphaState(cmds, k);
        ReportReads(o.id, TeamAlpha.AlphaAdd(s.0, s.1, o, o.typ == Limit).2, true);
        AddVerdictExact(results, k);
      case Cancel(id) =>
        ReportReads(id, [], TeamAlpha.AlphaAnswer(s, id));
        CancelVerdictExact(results, k);
        TeamAlpha.AlphaCancelAgreesIff(cmds, k);
        CancelReply(cmds, k);
    }
  }

  lemma AlphaState(cmds: seq<Cmd<string>>, k: nat)
    requires FreshIds(cmds) && k < |cmds| && forall i :: 0 <= i < |cmds| ==> Proper(cmds[i])
    ensures TeamAlpha.AlphaAfter(cmds[..k]).0 == VectorAfter(cmds[..k])
  {
    assert forall i :: 0 <= i < k ==> cmds[..k][i] == cmds[i];
    RunAgrees(cmds[..k]);
    TeamAlpha.AlphaRun(cmds[..k]);
  }

  lemma CancelReply(cmds: seq<Cmd<string>>, k: nat)
    requires k < |cmds| && cmds[k].Cancel?
    ensures ReplyAt(cmds, k).Answered?
  {
  }

  /** So alpha is judged wrong on the second of these two ticks, whatever was said to the first. */
  lemma AlphaJudgedWrong(id: string, first: seq<Response>)
    ensures var ticks := [Tick(TickAdd, id, 'B', 'M', 0, 1), Tick(TickCancel, id, '\0', '\0', 0, 0)];
      var cmds := TeamAlpha.UnmatchedThenCancelled(id);
      var results := [TickResult(ticks[0], first), TickResult(ticks[1], AlphaSays(cmds, 1))];
      Commands(ticks) == cmds && GoodTicks(ticks) && !VerdictAt(results, 1).correct
  {
    var ticks := [Tick(TickAdd, id, 'B', 'M', 0, 1), Tick(TickCancel, id, '\0', '\0', 0, 0)];
    var cmds := TeamAlpha.UnmatchedThenCancelled(id);
    var results := [TickResult(ticks[0], first), TickResult(ticks[1], AlphaSays(cmds, 1))];
    assert TicksOf(results) == ticks && Commands(ticks) == cmds;
    TeamAlpha.AlphaCancelsNothing(id);
    hide AlphaSays, VerdictAt, TeamAlpha.DroppedUncancelled, TeamAlpha.AlphaAnswer, TeamAlpha.AlphaAfter, ReplyAt;
    AlphaCorrectIff(results, 1);
  }
}
