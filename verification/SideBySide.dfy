/** The pointer-based book fed the same stream as the sorted-vector book, and as the array book: what each of
    them answers to every command. */
module SideBySide {
  import opened PriceTime
  import opened History
  import opened VectorMatch
  import TeamDelta
  import TeamAlpha
  import opened LinkedBook
  import opened Sequencing
  import opened ExternalView

  function SideChar(side: Side): char {
    if side == Buy then 'B' else 'S'
  }

  function TypeChar(typ: OrderType): char {
    if typ == Limit then 'L' else 'M'
  }

  /** Commands as the protocol carries them: known types, quantities not negative, limit prices positive. */
  ghost predicate Plain(c: Cmd<string>) {
    Proper(c) && (c.Submit? ==> c.o.filled == 0)
  }

  ghost predicate Stream(cmds: seq<Cmd<string>>) {
    FreshIds(cmds) && forall i :: 0 <= i < |cmds| ==> Plain(cmds[i])
  }

  lemma StreamPrefix(cmds: seq<Cmd<string>>, k: nat)
    requires Stream(cmds) && k <= |cmds|
    ensures Stream(cmds[..k]) && Admissible(cmds[..k])
    ensures forall i :: 0 <= i < k ==> Proper(cmds[..k][i])
  {
    assert forall i :: 0 <= i < k ==> cmds[..k][i] == cmds[i] && Plain(cmds[i]);
  }

  /** The simulation relation: both books show the same entries in the same order, through the id maps. */
  ghost predicate Alike(s: SeqState, v: View<string>) {
    Ext(s) == v
  }

  lemma AlikeAlways(cmds: seq<Cmd<string>>, k: nat)
    requires Stream(cmds) && k <= |cmds|
    ensures Alike(SeqAfter(cmds[..k]), VectorAfter(cmds[..k])) && VectorAfter(cmds[..k]) == After(cmds[..k])
  {
    StreamPrefix(cmds, k);
    hide FreshIds, Admissible, Ext, SeqAfter, VectorAfter, After, Proper;
    assert FreshIds(cmds[..k]) by { StreamFresh(cmds[..k]); }
    RunAgrees(cmds[..k]);
    SeqRunOk(cmds[..k]);
  }

  lemma StreamFresh(cmds: seq<Cmd<string>>)
    requires Stream(cmds)
    ensures FreshIds(cmds)
  {
  }

  /** What a team's book says to a command. */
  datatype Answer = Fills(fills: seq<Fill<string>>) | Found(found: bool)

  /** The same fills, or the same answer to a cancel. */
  predicate SameReply(ours: Reply<string>, theirs: Answer) {
    match ours
    case Accepted(fills, _) => theirs == Fills(fills)
    case Answered(cancelled) => theirs == Found(cancelled)
  }

  /** Delta's answer, as the contracts of its book put it. */
  function DeltaAnswer(v: View<string>, c: Cmd<string>): Answer {
    match c
    case Submit(o) => Fills(VectorAdd(v, o, o.typ == Limit).1)
    case Cancel(id) => Found(CancelOrder(v, id).1)
  }

  lemma SameAnswer(cmds: seq<Cmd<string>>, k: nat)
    requires Stream(cmds) && k < |cmds|
    ensures SeqReply(SeqAfter(cmds[..k]), cmds[k]) == ReplyAt(cmds, k)
    ensures SameReply(ReplyAt(cmds, k), DeltaAnswer(VectorAfter(cmds[..k]), cmds[k]))
  {
    hide SeqReply, VectorAdd, CancelOrder, SeqAfter, VectorAfter, After, FreshIds, Admissible, Proper;
    assert cmds[..|cmds|] == cmds;
    StreamPrefix(cmds, |cmds|);
    StreamFresh(cmds);
    AnswersAgree(cmds, k);
    SeqRepliesAreExternal(cmds, k);
  }

  lemma NextStates(cmds: seq<Cmd<string>>, k: nat)
    requires k < |cmds|
    ensures SeqAfter(cmds[..k + 1]) == SeqStep(SeqAfter(cmds[..k]), cmds[k])
    ensures VectorAfter(cmds[..k + 1]) == VectorStep(VectorAfter(cmds[..k]), cmds[k])
  {
    assert cmds[..k + 1][..k] == cmds[..k];
  }

  /** One command given to the sequenced pointer-based book, answered over external ids. */
  method Ask(reference: Sequencer, c: Cmd<string>) returns (reply: Reply<string>)
    requires reference.Valid() && Plain(c) && (c.Submit? ==> reference.Room() > 0)
    modifies reference, reference.book, reference.book.Repr
    ensures reference.Valid() && reference.Room() >= old(reference.Room()) - 1
    ensures old(reference.book.Repr) <= reference.book.Repr && fresh(reference.book.Repr - old(reference.book.Repr))
    ensures reference.State() == SeqStep(old(reference.State()), c) && reply == SeqReply(old(reference.State()), c)
  {
    hide Sequencer.Valid, SeqAdd, SeqCancel;
    match c {
      case Submit(o) =>
        var fills, rests, _ := reference.Add(o.id, o.side, o.typ, o.price, o.qty);
        reply := Accepted(ExtFills(fills, reference.revMap), rests);
      case Cancel(id) =>
        var r := reference.Cancel(id);
        reply := Answered(r == CancelOK);
    }
  }

  /** One command given to delta's book, in the letters of the protocol. */
  method AskDelta(vectors: TeamDelta.Book, c: Cmd<string>) returns (answer: Answer)
    requires vectors.Valid() && Plain(c)
    modifies vectors
    ensures vectors.Valid()
    ensures vectors.Contents() == VectorStep(old(vectors.Contents()), c)
    ensures answer == DeltaAnswer(old(vectors.Contents()), c)
  {
    hide TeamDelta.Book.Valid, TeamDelta.Book.Contents, VectorAdd, CancelOrder;
    match c {
      case Submit(o) =>
        CharsRead(o.side, o.typ);
        var fills := vectors.Add(o.id, SideChar(o.side), TypeChar(o.typ), o.price, o.qty);
        answer := Fills(fills);
      case Cancel(id) =>
        var found := vectors.Cancel(id);
        answer := Found(found);
    }
  }

  /** The pointer-based book and delta's, both new, fed one stream: the first answers as the flat commands do,
      and the second gives the same fills and cancel answers. */
  method RunBoth(cmds: seq<Cmd<string>>) returns (ours: seq<Reply<string>>, theirs: seq<Answer>)
    requires Stream(cmds)
    ensures |ours| == |theirs| == |cmds|
    ensures forall k :: 0 <= k < |cmds| ==> ours[k] == ReplyAt(cmds, k) && SameReply(ours[k], theirs[k])
  {
    hide Stream, Sequencer.Valid, TeamDelta.Book.Valid, TeamDelta.Book.Contents, SeqStep, SeqReply, VectorStep,
      DeltaAnswer, SameReply, ReplyAt, SeqAfter, VectorAfter;
    var reference := new Sequencer(|cmds|);
    var vectors := new TeamDelta.Book();
    ours, theirs := [], [];
    assert SeqAfter(cmds[..0]) == INITIAL && VectorAfter(cmds[..0]) == View([], []) by { NothingRun(cmds[..0]); }
    for k := 0 to |cmds|
      invariant reference.Valid() && reference.State() == SeqAfter(cmds[..k]) && reference.Room() >= |cmds| - k
      invariant fresh(reference.book.Repr) && vectors !in reference.book.Repr
      invariant vectors.Valid() && vectors.Contents() == VectorAfter(cmds[..k])
      invariant |ours| == |theirs| == k
      invariant forall j :: 0 <= j < k ==> ours[j] == ReplyAt(cmds, j) && SameReply(ours[j], theirs[j])
    {
      NextStates(cmds, k);
      SameAnswer(cmds, k);
      PlainAt(cmds, k);
      var reply := Ask(reference, cmds[k]);
      var answer := AskDelta(vectors, cmds[k]);
      ours, theirs := ours + [reply], theirs + [answer];
    }
  }

  lemma PlainAt(cmds: seq<Cmd<string>>, k: nat)
    requires Stream(cmds) && k < |cmds|
    ensures Plain(cmds[k])
    ensures cmds[k].Submit? ==>
      var o := cmds[k].o; o.typ != Unknown && o.filled == 0 && (o.typ == Limit ==> o.price > 0)
  {
    assert Plain(cmds[k]);
  }

  lemma NothingRun(cmds: seq<Cmd<string>>)
    requires cmds == []
    ensures SeqAfter(cmds) == INITIAL && VectorAfter(cmds) == View([], [])
  {
  }

  lemma CharsRead(side: Side, typ: OrderType)
    requires typ != Unknown
    ensures SideOf(SideChar(side)) == side && KindOf(TypeChar(typ)) == typ && (TypeChar(typ) == 'L' <==> typ == Limit)
  {
  }

  // ----- team alpha beside the reference

  lemma AlphaNext(cmds: seq<Cmd<string>>, k: nat)
    requires k < |cmds|
    ensures TeamAlpha.AlphaAfter(cmds[..k + 1]) == TeamAlpha.AlphaStep(TeamAlpha.AlphaAfter(cmds[..k]), cmds[k])
  {
    assert cmds[..k + 1][..k] == cmds[..k];
  }

  lemma AlphaStart(cmds: seq<Cmd<string>>)
    requires cmds == []
    ensures SeqAfter(cmds) == INITIAL && TeamAlpha.AlphaAfter(cmds) == (View([], []), {})
  {
  }

  /** Everything alpha's book may write to. */
  ghost function Footprint(alpha: TeamAlpha.Book): set<object>
    reads alpha
  {
    {alpha, alpha.bids.arr, alpha.asks.arr} + (set x | x in alpha.bidRecs) + (set x | x in alpha.askRecs)
  }

  ghost function Owned(reference: Sequencer): set<object>
    reads reference.book
  {
    {reference, reference.book} + reference.book.Repr
  }

  lemma FootprintHas(alpha: TeamAlpha.Book)
    ensures {alpha, alpha.bids.arr, alpha.asks.arr} <= Footprint(alpha)
    ensures forall x :: x in alpha.bidRecs || x in alpha.askRecs ==> x in Footprint(alpha)
  {
  }

  /** Alpha's answer, as the contracts of its book put it. */
  ghost function AlphaReply(v: View<string>, lingering: set<string>, c: Cmd<string>): Answer {
    match c
    case Submit(o) => Fills(TeamAlpha.AlphaAdd(v, lingering, o, o.typ == Limit).2)
    case Cancel(id) => Found(TeamAlpha.AlphaCancel(v, lingering, id).2)
  }

  /** A cancel of a market order whose remainder was dropped and that nobody has cancelled before. */
  ghost predicate Misled(cmds: seq<Cmd<string>>, k: nat)
    requires k < |cmds|
  {
    cmds[k].Cancel? && TeamAlpha.DroppedUncancelled(cmds[..k], cmds[k].id)
  }

  lemma AlphaAnswers(cmds: seq<Cmd<string>>, k: nat)
    requires Stream(cmds) && k < |cmds|
    ensures var s := TeamAlpha.AlphaAfter(cmds[..k]);
      && (SameReply(ReplyAt(cmds, k), AlphaReply(s.0, s.1, cmds[k])) <==> !Misled(cmds, k))
      && (cmds[k].Submit? ==> !s.0.Rests(cmds[k].o.id) && cmds[k].o.id !in s.1)
  {
    hide SeqReply, VectorAdd, CancelOrder, SeqAfter, VectorAfter, After, FreshIds, Admissible, Proper, ReplyAt,
      TeamAlpha.DroppedUncancelled, TeamAlpha.AlphaCancel, TeamAlpha.AlphaAnswer, TeamAlpha.AlphaAfter,
      View<string>.Rests;
    assert cmds[..|cmds|] == cmds;
    StreamPrefix(cmds, |cmds|);
    StreamPrefix(cmds, k);
    StreamFresh(cmds);
    StreamFresh(cmds[..k]);
    SameAnswer(cmds, k);
    var s := TeamAlpha.AlphaAfter(cmds[..k]);
    match cmds[k] {
      case Submit(o) =>
        TeamAlpha.FreshUnknown(cmds, k);
        TeamAlpha.AlphaRun(cmds[..k]);
        RunAgrees(cmds[..k]);
      case Cancel(id) =>
        CancelIsAnswered(cmds, k);
        TeamAlpha.AlphaCancelAgreesIff(cmds, k);
        TeamAlpha.AlphaCancelIsStep(s.0, s.1, id);
    }
  }

  lemma CancelIsAnswered(cmds: seq<Cmd<string>>, k: nat)
    requires k < |cmds| && cmds[k].Cancel?
    ensures ReplyAt(cmds, k).Answered?
  {
  }

  /** One command given to alpha's book, in the letters of the protocol. */
  method AskAlpha(alpha: TeamAlpha.Book, c: Cmd<string>) returns (answer: Answer)
    requires alpha.Valid() && Plain(c) && (c.Submit? ==> c.o.id !in alpha.orders)
    modifies Footprint(alpha)
    ensures alpha.Valid() && fresh(Footprint(alpha) - old(Footprint(alpha)))
    ensures (alpha.Contents(), alpha.lingering) == TeamAlpha.AlphaStep((old(alpha.Contents()), old(alpha.lingering)), c)
    ensures answer == AlphaReply(old(alpha.Contents()), old(alpha.lingering), c)
  {
    hide TeamAlpha.Book.Valid, TeamAlpha.Book.Contents, TeamAlpha.AlphaAdd, TeamAlpha.AlphaCancel,
      TeamAlpha.AlphaAnswer, CancelOrder;
    match c {
      case Submit(o) =>
        CharsRead(o.side, o.typ);
        var fills := alpha.Add(o.id, SideChar(o.side), TypeChar(o.typ), o.price, o.qty);
        answer := Fills(fills);
      case Cancel(id) =>
        TeamAlpha.AlphaCancelIsStep(alpha.Contents(), alpha.lingering, id);
        var found := alpha.Cancel(id);
        answer := Found(found);
    }
  }

  /** One command given to both. */
  method Turn(reference: Sequencer, alpha: TeamAlpha.Book, c: Cmd<string>)
    returns (reply: Reply<string>, answer: Answer)
    requires reference.Valid() && alpha.Valid() && Footprint(alpha) !! Owned(reference)
    requires Plain(c) && (c.Submit? ==> reference.Room() > 0 && c.o.id !in alpha.orders)
    modifies Owned(reference), Footprint(alpha)
    ensures reference.Valid() && alpha.Valid() && Footprint(alpha) !! Owned(reference)
    ensures fresh(Owned(reference) - old(Owned(reference))) && fresh(Footprint(alpha) - old(Footprint(alpha)))
    ensures reference.Room() >= old(reference.Room()) - 1
    ensures reference.State() == SeqStep(old(reference.State()), c)
    ensures (alpha.Contents(), alpha.lingering) == TeamAlpha.AlphaStep((old(alpha.Contents()), old(alpha.lingering)), c)
    ensures reply == SeqReply(old(reference.State()), c)
    ensures answer == AlphaReply(old(alpha.Contents()), old(alpha.lingering), c)
  {
    hide Sequencer.Valid, TeamAlpha.Book.Valid, TeamAlpha.Book.Contents, Plain, SeqStep, SeqReply, AlphaReply,
      TeamAlpha.AlphaStep;
    ghost var view, foot := alpha.Contents(), Footprint(alpha);
    FootprintHas(alpha);
    reply := Ask(reference, c);
    assert alpha.Valid() && alpha.Contents() == view && Footprint(alpha) == foot;
    assert foot !! Owned(reference);
    answer := AskAlpha(alpha, c);
  }

  /** The answers to the commands from `from` on: the pointer-based book's are those of the flat commands, and
      alpha's are the same except where it is misled. */
  ghost predicate AnsweredFrom(ours: seq<Reply<string>>, theirs: seq<Answer>, cmds: seq<Cmd<string>>, from: nat) {
    && from + |ours| == from + |theirs| == |cmds|
    && forall k :: from <= k < |cmds| ==>
      ours[k - from] == ReplyAt(cmds, k) && (SameReply(ours[k - from], theirs[k - from]) <==> !Misled(cmds, k))
  }

  lemma AnsweredNext(reply: Reply<string>, answer: Answer, ours: seq<Reply<string>>, theirs: seq<Answer>,
      cmds: seq<Cmd<string>>, k: nat)
    requires k < |cmds| && AnsweredFrom(ours, theirs, cmds, k + 1)
    requires reply == ReplyAt(cmds, k) && (SameReply(reply, answer) <==> !Misled(cmds, k))
    ensures AnsweredFrom([reply] + ours, [answer] + theirs, cmds, k)
  {
    hide Misled, ReplyAt, SameReply;
  }

  /** Give both books the commands from `k` on. */
  method RunFrom(reference: Sequencer, alpha: TeamAlpha.Book, cmds: seq<Cmd<string>>, k: nat)
    returns (ours: seq<Reply<string>>, theirs: seq<Answer>)
    requires Stream(cmds) && k <= |cmds|
    requires reference.Valid() && alpha.Valid() && Footprint(alpha) !! Owned(reference)
    requires reference.State() == SeqAfter(cmds[..k]) && reference.Room() >= |cmds| - k
    requires (alpha.Contents(), alpha.lingering) == TeamAlpha.AlphaAfter(cmds[..k])
    modifies Owned(reference), Footprint(alpha)
    ensures AnsweredFrom(ours, theirs, cmds, k)
    decreases |cmds| - k
  {
    hide Stream, Sequencer.Valid, TeamAlpha.Book.Valid, TeamAlpha.Book.Contents, SeqReply, SeqAfter, SeqStep,
      TeamAlpha.AlphaAfter, TeamAlpha.AlphaStep, AlphaReply, SameReply, ReplyAt, Misled, Footprint, Owned,
      View<string>.Rests;
    if k == |cmds| {
      return [], [];
    }
    NextStates(cmds, k);
    AlphaNext(cmds, k);
    SameAnswer(cmds, k);
    AlphaAnswers(cmds, k);
    PlainAt(cmds, k);
    alpha.KeysAre();
    var reply, answer := Turn(reference, alpha, cmds[k]);
    ours, theirs := RunFrom(reference, alpha, cmds, k + 1);
    AnsweredNext(reply, answer, ours, theirs, cmds, k);
    ours, theirs := [reply] + ours, [answer] + theirs;
  }

  /** The pointer-based book and alpha's array book, both new, fed one stream: the first answers as the flat
      commands do, and the second gives the same fills and cancel answers except where it is misled. */
  method RunAlpha(cmds: seq<Cmd<string>>) returns (ours: seq<Reply<string>>, theirs: seq<Answer>)
    requires Stream(cmds)
    ensures |ours| == |theirs| == |cmds|
    ensures forall k :: 0 <= k < |cmds| ==>
      && ours[k] == ReplyAt(cmds, k)
      && (SameReply(ours[k], theirs[k])
          <==> !(cmds[k].Cancel? && TeamAlpha.DroppedUncancelled(cmds[..k], cmds[k].id)))
  {
    hide Stream, Sequencer.Valid, TeamAlpha.Book.Valid, SeqAfter, TeamAlpha.AlphaAfter, TeamAlpha.DroppedUncancelled,
      ReplyAt, SameReply;
    var reference := new Sequencer(|cmds|);
    var alpha := new TeamAlpha.Book();
    AlphaStart(cmds[..0]);
    EmptyFootprint(alpha);
    ours, theirs := RunFrom(reference, alpha, cmds, 0);
    AnsweredAll(ours, theirs, cmds);
  }

  lemma AnsweredAll(ours: seq<Reply<string>>, theirs: seq<Answer>, cmds: seq<Cmd<string>>)
    requires AnsweredFrom(ours, theirs, cmds, 0)
    ensures |ours| == |theirs| == |cmds|
    ensures forall k :: 0 <= k < |cmds| ==>
      ours[k] == ReplyAt(cmds, k) && (SameReply(ours[k], theirs[k]) <==> !Misled(cmds, k))
  {
    hide ReplyAt, SameReply, Misled;
    assert forall k :: 0 <= k < |cmds| ==> ours[k - 0] == ours[k] && theirs[k - 0] == theirs[k];
  }

  lemma EmptyFootprint(alpha: TeamAlpha.Book)
    requires alpha.bidRecs == [] && alpha.askRecs == []
    ensures Footprint(alpha) == {alpha, alpha.bids.arr, alpha.asks.arr}
  {
  }
}
