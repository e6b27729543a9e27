/** The reference contestant: one sequencer a connection, a frame in, frames out. */
module Contestant {
  import opened PriceTime
  import opened Wire
  import opened Price
  import opened Protocol
  import opened LinkedBook
  import opened Sequencing

  /** Orders one connection's engine has room for; the next one ends the process. */
  const ARENA := 16_384

  function SideFromByte(b: char): Side {
    if b == 'B' then Buy else Sell
  }

  function OrdTypeFromByte(b: char): OrderType {
    if b == 'L' then Limit else Market
  }

  datatype Request =
    | Silence
    | Refuse(frame: string)
    | Place(id: string, side: Side, typ: OrderType, price: int, qty: int)
    | Withdraw(id: string)

  lemma {:induction false} FieldsNotEmpty(s: string)
    ensures forall i :: 0 <= i < |Fields(s)| ==> Fields(s)[i] != ""
    decreases |s|
  {
    if s != [] {
      if IsSpace(s[0]) {
        FieldsNotEmpty(s[1..]);
      } else {
        WordLenBound(s);
        FieldsNotEmpty(s[WordLen(s)..]);
      }
    }
  }

  /** What one inbound frame asks for. */
  function Decode(msg: string): Request {
    var line := TrimSpace(msg);
    FieldsNotEmpty(line);
    var fields := Fields(line);
    if line == "" || fields == [] then Silence
    else if fields[0] == "ADD" then
      if |fields| != 6 then
        if |fields| >= 2 then Refuse(RejLine(fields[1], "bad_format")) else Silence
      else
        var qty := ParseInt(fields[5]);
        if qty.Parsed? then
          Place(fields[1], SideFromByte(fields[2][0]), OrdTypeFromByte(fields[3][0]), ParsePriceLenient(fields[4]),
              qty.value)
        else Refuse(RejLine(fields[1], "bad_qty"))
    else if fields[0] == "CAN" then
      if |fields| != 2 then Silence else Withdraw(fields[1])
    else Silence
  }

  /** Any line of words: what it asks for. An ADD has five more words, of which the side is read as a buy if it
      begins with 'B', the type as a limit order if it begins with 'L', and the price whatever is wrong with it;
      an ADD of another length or with a bad quantity is refused, and all else is ignored. */
  lemma DecodeExact(l: string, f: seq<string>, r: string)
    requires Blank(l) && Blank(r) && Words(f)
    ensures var got := Decode(l + Join(f) + r);
      if f[0] == "ADD" && |f| == 6 && ParseInt(f[5]).Parsed? then
        got == Place(f[1], if f[2][0] == 'B' then Buy else Sell, if f[3][0] == 'L' then Limit else Market,
                     ParsePriceLenient(f[4]), ParseInt(f[5]).value)
      else if f[0] == "ADD" && |f| == 6 then got == Refuse(Join(["REJ", f[1], "bad_qty"]))
      else if f[0] == "ADD" && |f| >= 2 then got == Refuse(Join(["REJ", f[1], "bad_format"]))
      else if f[0] == "CAN" && |f| == 2 then got == Withdraw(f[1])
      else got == Silence
  {
    hide ParsePriceLenient, ParseInt, TrimSpace, Fields, RejLine, Blank;
    assert Word(f[0]) && (|f| == 6 ==> Word(f[2]) && Word(f[3]));
    LineRoundTrip(f);
    JoinEnds(f);
    TrimExact(l, Join(f), r);
    if |f| >= 2 {
      RejLineIs(f[1], "bad_qty");
      RejLineIs(f[1], "bad_format");
      assert ["REJ", f[1]] + ["bad_qty"] == ["REJ", f[1], "bad_qty"];
      assert ["REJ", f[1]] + ["bad_format"] == ["REJ", f[1], "bad_format"];
    }
  }

  /** A blank line asks for nothing. */
  lemma BlankIsSilence(l: string)
    requires Blank(l)
    ensures Decode(l) == Silence
  {
    TrimExact(l, "", "");
    assert l + "" + "" == l;
  }

  function FillFrames(orderID: string, fills: seq<Fill<nat>>, revMap: map<nat, string>): seq<string> {
    if fills == [] then []
    else
      var f := fills[0];
      [FillLine(orderID, ExternalID(revMap, f.maker), ExternalID(revMap, f.taker), f.price, f.qty)]
      + FillFrames(orderID, fills[1..], revMap)
  }

  lemma FramesNext(orderID: string, fills: seq<Fill<nat>>, i: nat, m: map<nat, string>, frames: seq<string>)
    requires i < |fills|
    ensures var f := fills[i];
      frames + [FillLine(orderID, ExternalID(m, f.maker), ExternalID(m, f.taker), f.price, f.qty)] +
          FillFrames(orderID, fills[i+1..], m)
      == frames + FillFrames(orderID, fills[i..], m)
  {
    hide FillLine, ExternalID;
    var f, rest := fills[i], FillFrames(orderID, fills[i+1..], m);
    var line := FillLine(orderID, ExternalID(m, f.maker), ExternalID(m, f.taker), f.price, f.qty);
    assert fills[i..][1..] == fills[i+1..] && fills[i..][0] == f;
    assert FillFrames(orderID, fills[i..], m) == [line] + rest;
    hide FillFrames;
    Regroup(frames, line, rest);
  }

  lemma Regroup(a: seq<string>, x: string, b: seq<string>)
    ensures a + [x] + b == a + ([x] + b)
  {
  }

  lemma FramesEnd(orderID: string, fills: seq<Fill<nat>>, m: map<nat, string>)
    requires fills == []
    ensures FillFrames(orderID, fills, m) == []
  {
  }

  /** State and answer after one request. */
  function Serve(s: SeqState, r: Request): (SeqState, seq<string>) {
    match r
    case Silence => (s, [])
    case Refuse(frame) => (s, [frame])
    case Place(id, side, typ, price, qty) =>
      var a := SeqAdd(s, id, side, typ, price, qty);
      (a.0, FillFrames(id, a.1.fills, a.0.revMap) + [AckLine(id)])
    case Withdraw(id) =>
      var c := SeqCancel(s, id);
      (c.0, [if c.1 then AckLine(id) else RejLine(id, "not_found")])
  }

  lemma {:induction false} FrameAt(id: string, fills: seq<Fill<nat>>, m: map<nat, string>, i: nat)
    requires i < |fills|
    ensures |FillFrames(id, fills, m)| == |fills|
    ensures FillFrames(id, fills, m)[i] ==
      Join(["FILL", id, ExternalID(m, fills[i].maker), ExternalID(m, fills[i].taker), FormatPrice(fills[i].price),
            FormatInt(fills[i].qty)])
  {
    hide FormatPrice, FormatInt, ExternalID, Join, FillLine;
    var f := fills[0];
    FillLineIs(id, ExternalID(m, f.maker), ExternalID(m, f.taker), f.price, f.qty);
    if |fills| > 1 {
      FrameAt(id, fills[1..], m, if i > 0 then i - 1 else 0);
    }
  }

  /** The literal frames. An accepted order is answered by a FILL line a fill, maker before taker, and then the
      ACK; a cancel by an ACK if it cancelled and by "REJ <id> not_found" if not; a refusal by its one line. */
  lemma ServeExact(s: SeqState, r: Request)
    ensures r.Silence? ==> Serve(s, r) == (s, [])
    ensures r.Refuse? ==> Serve(s, r) == (s, [r.frame])
    ensures r.Withdraw? ==>
      Serve(s, r) == (SeqCancel(s, r.id).0,
                      [if SeqCancel(s, r.id).1 then Join(["ACK", r.id]) else Join(["REJ", r.id, "not_found"])])
    ensures r.Place? ==>
      var a := SeqAdd(s, r.id, r.side, r.typ, r.price, r.qty);
      var fills, m, frames := a.1.fills, a.0.revMap, Serve(s, r).1;
      && Serve(s, r).0 == a.0 && |frames| == |fills| + 1 && frames[|fills|] == Join(["ACK", r.id])
      && forall i :: 0 <= i < |fills| ==>
          frames[i] == Join(["FILL", r.id, ExternalID(m, fills[i].maker), ExternalID(m, fills[i].taker),
                             FormatPrice(fills[i].price), FormatInt(fills[i].qty)])
  {
    hide FormatPrice, FormatInt, ExternalID, Join, SeqAdd, SeqCancel, AckLine, RejLine, FillFrames;
    match r {
      case Silence =>
      case Refuse(_) =>
      case Withdraw(id) =>
        AckLineIs(id);
        RejLineIs(id, "not_found");
        assert ["REJ", id] + ["not_found"] == ["REJ", id, "not_found"];
      case Place(id, side, typ, price, qty) =>
        var a := SeqAdd(s, id, side, typ, price, qty);
        AckLineIs(id);
        FramesCount(id, a.1.fills, a.0.revMap);
        forall i | 0 <= i < |a.1.fills|
          ensures FillFrames(id, a.1.fills, a.0.revMap)[i] ==
            Join(["FILL", id, ExternalID(a.0.revMap, a.1.fills[i].maker), ExternalID(a.0.revMap, a.1.fills[i].taker),
                  FormatPrice(a.1.fills[i].price), FormatInt(a.1.fills[i].qty)])
        {
          FrameAt(id, a.1.fills, a.0.revMap, i);
        }
    }
  }

  lemma {:induction false} FramesCount(id: string, fills: seq<Fill<nat>>, m: map<nat, string>)
    ensures |FillFrames(id, fills, m)| == |fills|
  {
    if fills != [] {
      FrameAt(id, fills, m, 0);
    }
  }

  class Connection {
    const sequencer: Sequencer

    ghost predicate Valid()
      reads sequencer, sequencer.book, sequencer.book.Repr
    {
      sequencer.Valid()
    }

    constructor ()
      ensures Valid() && fresh(sequencer) && fresh(sequencer.book) && fresh(sequencer.book.Repr)
      ensures sequencer.State() == INITIAL && sequencer.Room() == ARENA == 16_384
    {
      hide Sequencer.Valid;
      sequencer := new Sequencer(ARENA);
    }

    method Dispatch(msg: string) returns (frames: seq<string>)
      requires Valid()
      requires var r := Decode(msg); r.Place? ==> sequencer.Room() > 0 && (r.typ == Limit ==> r.price > 0)
      modifies sequencer, sequencer.book, sequencer.book.Repr
      ensures Valid()
      ensures old(sequencer.book.Repr) <= sequencer.book.Repr && fresh(sequencer.book.Repr - old(sequencer.book.Repr))
      ensures (sequencer.State(), frames) == Serve(old(sequencer.State()), Decode(msg))
      ensures sequencer.Room() == old(sequencer.Room()) - (if Decode(msg).Place? then 1 else 0)
    {
      hide Decode, SeqAdd, SeqCancel, Sequencer.Valid;
      match Decode(msg) {
        case Silence =>
          return [];
        case Refuse(frame) =>
          return [frame];
        case Place(id, side, typ, price, qty) =>
          frames := HandleAdd(id, side, typ, price, qty);
        case Withdraw(id) =>
          var r := sequencer.Cancel(id);
          if r == CancelOK {
            return [AckLine(id)];
          }
          return [RejLine(id, "not_found")];
      }
    }

    /** One FILL frame a fill, in order, then the ACK. */
    method HandleAdd(id: string, side: Side, typ: OrderType, price: int, qty: int) returns (frames: seq<string>)
      requires Valid() && sequencer.Room() > 0 && (typ == Limit ==> price > 0)
      modifies sequencer, sequencer.book, sequencer.book.Repr
      ensures Valid() && sequencer.Room() == old(sequencer.Room()) - 1
      ensures old(sequencer.book.Repr) <= sequencer.book.Repr && fresh(sequencer.book.Repr - old(sequencer.book.Repr))
      ensures var a := SeqAdd(old(sequencer.State()), id, side, typ, price, qty);
        sequencer.State() == a.0 && frames == FillFrames(id, a.1.fills, a.0.revMap) + [AckLine(id)]
    {
      hide SeqAdd, Sequencer.Valid;
      var fills, _, _ := sequencer.Add(id, side, typ, price, qty);
      ghost var m := sequencer.revMap;
      frames := [];
      var i := 0;
      while i < |fills|
        invariant 0 <= i <= |fills| && sequencer.revMap == m
        invariant frames + FillFrames(id, fills[i..], m) == FillFrames(id, fills, m)
        modifies {}
      {
        var makerExt := ExternalID(sequencer.revMap, fills[i].maker);
        var takerExt := ExternalID(sequencer.revMap, fills[i].taker);
        var line := FillLine(id, makerExt, takerExt, fills[i].price, fills[i].qty);
        FramesNext(id, fills, i, m, frames);
        frames := frames + [line];
        i := i + 1;
      }
      FramesEnd(id, fills[i..], m);
      frames := frames + [AckLine(id)];
    }
  }
}
