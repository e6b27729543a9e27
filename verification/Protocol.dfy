/** The messages of the exchange protocol, written and read by either side. */
module Protocol {
  import opened Wire
  import opened Price

  datatype TickType = TickAdd | TickCancel | OtherTick

  datatype Tick = Tick(typ: TickType, orderID: string, side: char, ordType: char, price: int, qty: int)

  datatype Response =
    | ACK(orderID: string)
    | FILL(orderID: string, maker: string, taker: string, price: int, qty: int)
    | REJ(orderID: string, reason: string)
  {
    predicate Terminal() {
      ACK? || REJ?
    }
  }

  datatype Option<+T> = None | Some(value: T)

  // ----- platform to contestant

  function WriteTick(t: Tick): Option<string> {
    match t.typ
    case TickAdd =>
      Some("ADD " + t.orderID + " " + [t.side] + " " + [t.ordType] + " " + FormatPrice(t.price) + " " +
          FormatInt(t.qty))
    case TickCancel => Some("CAN " + t.orderID)
    case OtherTick => None
  }

  /** A tick the wire can carry. */
  ghost predicate Sendable(t: Tick) {
    && Word(t.orderID)
    && (t.typ == TickAdd ==> !IsSpace(t.side) && !IsSpace(t.ordType) && 0 <= t.price <= MAX_INT64 && Int64(t.qty))
  }

  lemma JoinTwo(a: string, b: string)
    ensures Join([a, b]) == a + " " + b
  {
    assert [a, b][1..] == [b];
  }

  lemma JoinSix(f: seq<string>)
    requires |f| == 6
    ensures Join(f) == f[0] + " " + f[1] + " " + f[2] + " " + f[3] + " " + f[4] + " " + f[5]
  {
    assert f[4..] == [f[4], f[5]];
    JoinTwo(f[4], f[5]);
    var s4 := Join(f[4..]);
    assert f[3..][1..] == f[4..] && f[2..][1..] == f[3..] && f[1..][1..] == f[2..] && f[0..] == f;
    assert Join(f[3..]) == f[3] + " " + s4;
    assert Join(f[2..]) == f[2] + " " + Join(f[3..]);
    assert Join(f[1..]) == f[1] + " " + Join(f[2..]);
    assert Join(f) == f[0] + " " + Join(f[1..]);
    Regroup(f[0], f[1], f[2], f[3], f[4], f[5]);
  }

  lemma Regroup(a: string, b: string, c: string, d: string, e: string, g: string)
    ensures a + " " + (b + " " + (c + " " + (d + " " + (e + " " + g))))
         == a + " " + b + " " + c + " " + d + " " + e + " " + g
  {
  }

  /** The literal words of a tick's line, whatever is in its fields; a tick of unknown type has none. */
  lemma WriteExact(t: Tick)
    ensures t.typ == TickAdd ==>
      WriteTick(t) == Some(Join(["ADD", t.orderID, [t.side], [t.ordType], FormatPrice(t.price), FormatInt(t.qty)]))
    ensures t.typ == TickCancel ==> WriteTick(t) == Some(Join(["CAN", t.orderID]))
    ensures t.typ == OtherTick ==> WriteTick(t) == None
  {
    hide FormatPrice, FormatInt, Join;
    JoinSix(["ADD", t.orderID, [t.side], [t.ordType], FormatPrice(t.price), FormatInt(t.qty)]);
    JoinTwo("CAN", t.orderID);
    assert "ADD " == "ADD" + " " && "CAN " == "CAN" + " ";
  }

  /** What the contestant splits an ADD line into is what the platform put there, in this order. */
  lemma AddLineReads(t: Tick)
    requires Sendable(t) && t.typ == TickAdd
    ensures WriteTick(t).Some? && Fields(TrimSpace(WriteTick(t).value)) ==
      ["ADD", t.orderID, [t.side], [t.ordType], FormatPrice(t.price), FormatInt(t.qty)]
    ensures TrimSpace(WriteTick(t).value) != ""
    ensures ParsePriceLenient(FormatPrice(t.price)) == t.price && ParseInt(FormatInt(t.qty)) == Parsed(t.qty)
  {
    hide FormatPrice, FormatInt, ParsePrice, ParsePriceLenient, ParseInt, Join, Fields, TrimSpace, Split;
    NonNegativeRoundTrip(t.price);
    LenientAgrees(FormatPrice(t.price));
    IntRoundTrip(t.qty);
    PriceIsWord(t.price);
    IntIsWord(t.qty);
    var f := ["ADD", t.orderID, [t.side], [t.ordType], FormatPrice(t.price), FormatInt(t.qty)];
    WriteExact(t);
    assert Words(f);
    LineRoundTrip(f);
  }

  lemma CancelLineReads(t: Tick)
    requires Sendable(t) && t.typ == TickCancel
    ensures WriteTick(t).Some? && Fields(TrimSpace(WriteTick(t).value)) == ["CAN", t.orderID]
    ensures TrimSpace(WriteTick(t).value) != ""
  {
    hide Join, Fields, TrimSpace, Split;
    WriteExact(t);
    assert Words(["CAN", t.orderID]);
    LineRoundTrip(["CAN", t.orderID]);
  }

  // ----- contestant to platform

  function FillLine(orderID: string, maker: string, taker: string, price: int, qty: int): string {
    "FILL " + orderID + " " + maker + " " + taker + " " + FormatPrice(price) + " " + FormatInt(qty)
  }

  function AckLine(orderID: string): string {
    "ACK " + orderID
  }

  function RejLine(orderID: string, reason: string): string {
    "REJ " + orderID + " " + reason
  }

  function ParseACK(fields: seq<string>): Option<Response> {
    if |fields| != 2 then None else Some(ACK(fields[1]))
  }

  function ParseFILL(fields: seq<string>): Option<Response> {
    if |fields| != 6 then None
    else
      var price, qty := ParsePrice(fields[4]), ParseInt(fields[5]);
      if price.Price? && qty.Parsed? then Some(FILL(fields[1], fields[2], fields[3], price.value, qty.value)) else None
  }

  function ParseREJ(fields: seq<string>): Option<Response> {
    if |fields| < 2 then None
    else Some(REJ(fields[1], if |fields| > 2 then Join(fields[2..]) else ""))
  }

  /** One frame as the platform reads it; `None` is a parse error. */
  function ReadResponse(msg: string): Option<Response> {
    var line := TrimSpace(msg);
    if line == "" then None
    else
      var fields := Split(line);
      if fields[0] == "ACK" then ParseACK(fields)
      else if fields[0] == "FILL" then ParseFILL(fields)
      else if fields[0] == "REJ" then ParseREJ(fields)
      else None
  }

  /** Every frame there is: white space around any fields separated by single spaces. What it reads as. */
  lemma ResponseExact(l: string, fields: seq<string>, r: string)
    requires Blank(l) && Blank(r) && Unspaced(fields)
    requires var s := Join(fields); s != [] ==> !IsSpace(s[0]) && !IsSpace(s[|s| - 1])
    ensures var got := ReadResponse(l + Join(fields) + r);
      if fields[0] == "ACK" && |fields| == 2 then got == Some(ACK(fields[1]))
      else if fields[0] == "FILL" && |fields| == 6 && ParsePrice(fields[4]).Price? && ParseInt(fields[5]).Parsed? then
        got == Some(FILL(fields[1], fields[2], fields[3], ParsePrice(fields[4]).value, ParseInt(fields[5]).value))
      else if fields[0] == "REJ" && |fields| >= 2 then
        got == Some(REJ(fields[1], if |fields| == 2 then "" else Join(fields[2..])))
      else got == None
  {
    hide ParsePrice, ParseInt, TrimSpace, Blank;
    TrimExact(l, Join(fields), r);
    SplitUnspaced(fields);
  }

  lemma AckLineIs(id: string)
    ensures AckLine(id) == Join(["ACK", id])
  {
    JoinTwo("ACK", id);
    assert "ACK " == "ACK" + " ";
  }

  lemma FillLineIs(id: string, maker: string, taker: string, price: int, qty: int)
    ensures FillLine(id, maker, taker, price, qty) ==
      Join(["FILL", id, maker, taker, FormatPrice(price), FormatInt(qty)])
  {
    hide FormatPrice, FormatInt, Join;
    JoinSix(["FILL", id, maker, taker, FormatPrice(price), FormatInt(qty)]);
    assert "FILL " == "FILL" + " ";
  }

  /** The platform reads an ACK from its literal words. */
  lemma AckReads(id: string)
    requires Word(id)
    ensures AckLine(id) == Join(["ACK", id]) && ReadResponse(Join(["ACK", id])) == Some(ACK(id))
  {
    hide Join, Fields, TrimSpace, Split;
    AckLineIs(id);
    assert Words(["ACK", id]);
    LineRoundTrip(["ACK", id]);
  }

  lemma JoinCons(w: string, rest: seq<string>)
    requires rest != []
    ensures Join([w] + rest) == w + " " + Join(rest)
  {
    assert ([w] + rest)[1..] == rest;
  }

  /** A REJ with any number of reason words, none included, gives the words back joined. */
  lemma RejReads(id: string, words: seq<string>)
    requires Word(id) && (words != [] ==> Words(words))
    ensures ReadResponse(Join(["REJ", id] + words)) == Some(REJ(id, if words == [] then "" else Join(words)))
  {
    var f := ["REJ", id] + words;
    assert f[2..] == words;
    hide Join, Fields, TrimSpace, Split;
    assert Words(f);
    LineRoundTrip(f);
  }

  /** What the contestant prints is such a line. */
  lemma RejLineIs(id: string, reason: string)
    ensures RejLine(id, reason) == Join(["REJ", id] + [reason]) && Join([reason]) == reason
  {
    JoinCons(id, [reason]);
    JoinCons("REJ", [id, reason]);
    assert ["REJ", id] + [reason] == ["REJ"] + [id, reason] && [id] + [reason] == [id, reason];
  }

  /** A FILL line is these six words in this order: the maker before the taker, the price before the quantity;
      and from these six words the platform reads them. */
  lemma FillReads(id: string, maker: string, taker: string, price: int, qty: int)
    requires Word(id) && Word(maker) && Word(taker) && 0 <= price <= MAX_INT64 && Int64(qty)
    ensures var f := ["FILL", id, maker, taker, FormatPrice(price), FormatInt(qty)];
      && FillLine(id, maker, taker, price, qty) == Join(f) && Fields(FillLine(id, maker, taker, price, qty)) == f
      && ReadResponse(Join(f)) == Some(FILL(id, maker, taker, price, qty))
  {
    hide FormatPrice, FormatInt, ParsePrice, ParseInt, Join, Fields, TrimSpace, Split;
    var f := ["FILL", id, maker, taker, FormatPrice(price), FormatInt(qty)];
    NonNegativeRoundTrip(price);
    IntRoundTrip(qty);
    PriceIsWord(price);
    IntIsWord(qty);
    FillLineIs(id, maker, taker, price, qty);
    assert Words(f);
    LineRoundTrip(f);
  }

  // ----- collecting one tick's answer

  /** Frames are read up to the first terminal response; a frame that does not parse ends the tick,
      and so does the end of the connection. */
  function Collect(frames: seq<string>): seq<Response> {
    if frames == [] then []
    else
      match ReadResponse(frames[0])
      case None => []
      case Some(r) => if r.Terminal() then [r] else [r] + Collect(frames[1..])
  }

  /** `responses` is what reading `frames` one by one gives up to the first terminal response, the first frame
      that does not parse or the last frame, whichever comes first. */
  ghost predicate Gathered(frames: seq<string>, responses: seq<Response>) {
    && |responses| <= |frames|
    && (forall i :: 0 <= i < |responses| ==> ReadResponse(frames[i]) == Some(responses[i]))
    && (forall i :: 0 <= i < |responses| - 1 ==> responses[i].FILL?)
    && (|| (responses != [] && !responses[|responses| - 1].FILL?)
        || |responses| == |frames|
        || ReadResponse(frames[|responses|]) == None)
  }

  lemma GatheredCons(frames: seq<string>, r: Response, rest: seq<Response>)
    requires frames != [] && ReadResponse(frames[0]) == Some(r) && r.FILL? && Gathered(frames[1..], rest)
    ensures Gathered(frames, [r] + rest)
  {
    hide ReadResponse;
    var all, tail := [r] + rest, frames[1..];
    assert forall i :: 0 < i < |all| ==> all[i] == rest[i - 1] && frames[i] == tail[i - 1];
    assert |rest| < |tail| ==> frames[|all|] == tail[|rest|];
  }

  lemma GatheredTail(frames: seq<string>, responses: seq<Response>)
    requires Gathered(frames, responses) && responses != [] && responses[0].FILL?
    ensures Gathered(frames[1..], responses[1..])
  {
    hide ReadResponse;
    var rest, tail := responses[1..], frames[1..];
    assert forall i :: 0 <= i < |rest| ==> rest[i] == responses[i + 1] && tail[i] == frames[i + 1];
    assert |rest| < |tail| ==> tail[|rest|] == frames[|responses|];
  }

  /** Those responses are what is collected, and no others. */
  lemma {:induction false} CollectExact(frames: seq<string>, responses: seq<Response>)
    ensures Gathered(frames, responses) <==> responses == Collect(frames)
  {
    hide ReadResponse;
    if frames != [] {
      var first := ReadResponse(frames[0]);
      if first.Some? && first.value.FILL? {
        var rest := Collect(frames[1..]);
        CollectExact(frames[1..], rest);
        GatheredCons(frames, first.value, rest);
        if Gathered(frames, responses) {
          assert responses != [] && responses[0] == first.value;
          GatheredTail(frames, responses);
          CollectExact(frames[1..], responses[1..]);
          assert responses == [first.value] + responses[1..];
        }
      } else if Gathered(frames, responses) && responses != [] {
        assert responses[0] == first.value && |responses| == 1;
      }
    }
  }

  /** The loop that gathers a tick's responses. */
  method CollectUntilACK(frames: seq<string>) returns (responses: seq<Response>)
    ensures responses == Collect(frames)
    ensures |responses| <= |frames|
    ensures forall i :: 0 <= i < |responses| ==> ReadResponse(frames[i]) == Some(responses[i])
    ensures forall i :: 0 <= i < |responses| - 1 ==> !responses[i].ACK? && !responses[i].REJ?
    ensures var n := |responses|;
      || (n > 0 && (responses[n - 1].ACK? || responses[n - 1].REJ?))
      || n == |frames|
      || ReadResponse(frames[n]) == None
  {
    hide ReadResponse;
    responses := [];
    var i := 0;
    while i < |frames|
      invariant i == |responses| <= |frames|
      invariant forall j :: 0 <= j < i ==> ReadResponse(frames[j]) == Some(responses[j]) && responses[j].FILL?
    {
      var r := ReadResponse(frames[i]);
      match r {
        case None =>
          CollectExact(frames, responses);
          return;
        case Some(resp) =>
          responses := responses + [resp];
          if resp.Terminal() {
            CollectExact(frames, responses);
            return;
          }
      }
      i := i + 1;
    }
    CollectExact(frames, responses);
  }
}
