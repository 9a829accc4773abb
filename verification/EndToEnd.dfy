/** From the bytes on the wire to decoded messages, across header, framer and message decoder. */
module EndToEnd {
  import opened Bits
  import opened Search
  import opened Framing
  import opened FramingLaws
  import opened ResponseHeader
  import opened MsmFormat
  import opened MsmLaws

  /** The framer at the end of a connection on which the given chunks arrived. */
  function AfterConnection(f: FramerState, chunks: seq<seq<byte>>): FramerState {
    match FeedAll(IsOkResponse, Awaiting([]), chunks)
    case Streaming(pieces) => AdvanceAll(f, pieces)
    case _ => f
  }

  /** A header that ends with the first terminator and is accepted. */
  predicate IsAcceptedHeader(header: seq<byte>) {
    IsOkResponse(header) && |header| >= 4 && Find(header, TERMINATOR) == Some(|header| - 4)
  }

  /** The data a whole response carries: nothing, unless its header is complete and accepted. */
  function Body(accept: Acceptance, stream: seq<byte>): seq<byte> {
    match Find(stream, TERMINATOR)
    case None => []
    case Some(pos) => if accept(stream[..pos + 4]) then stream[pos + 4..] else []
  }

  /** What is decoded depends on the whole response alone, not on how it arrived. */
  lemma DecodedFromStream(f: FramerState, chunks: seq<seq<byte>>)
    requires Pending(f.buf)
    ensures AfterConnection(f, chunks) == Advance(f, Body(IsOkResponse, Concat(chunks)))
  {
    hide Advance, FeedAll;
    HeaderFragmentation(IsOkResponse, chunks);
    AdvanceNothing(f);
    var st := FeedAll(IsOkResponse, Awaiting([]), chunks);
    if st.Streaming? { ChunkingIndependence(f, st.pieces); }
  }

  lemma {:induction false} RefusedStays(accept: Acceptance, chunks: seq<seq<byte>>)
    ensures FeedAll(accept, Refused, chunks) == Refused == FeedAllNonEmpty(accept, Refused, chunks)
    decreases |chunks|
  {
    if chunks != [] { RefusedStays(accept, chunks[1..]); }
  }

  /** Reading until the connection ends: the framer has then seen the body of the response, however it
      arrived; only a refused header ends the reading early. */
  method ReadLoop(client: NtripDecoderClient, chunks: seq<seq<byte>>, running: bool)
    requires client.Valid() && client.socketOpen && client.stage == Awaiting([])
    modifies client, client.framer
    ensures client.Valid()
    ensures client.framer.View() == AfterConnection(old(client.framer.View()), chunks)
         == Advance(old(client.framer.View()), Body(IsOkResponse, Concat(chunks)))
  {
    hide Advance, Feed, IsOkResponse, Body, Pending;
    ghost var start := client.framer.View();
    DecodedFromStream(start, chunks);
    var i := 0;
    assert chunks[0..] == chunks;
    while i < |chunks| && client.socketOpen
      invariant i <= |chunks| && client.Valid() && client.atConnect == start
      invariant client.socketOpen <==> !client.stage.Refused?
      invariant FeedAll(IsOkResponse, client.stage, chunks[i..]) == FeedAll(IsOkResponse, Awaiting([]), chunks)
    {
      assert chunks[i..][1..] == chunks[i + 1..];
      client.OnBytes(chunks[i], running);
      i := i + 1;
    }
    if i < |chunks| { RefusedStays(IsOkResponse, chunks[i..]); }
  }

  /** The same for the bridge's client: its handler has then been given exactly the body. */
  method ConsumeLoop(connection: NtripConnection, chunks: seq<seq<byte>>)
    requires connection.Valid() && connection.socketOpen && connection.stage == Awaiting([])
    modifies connection
    ensures connection.Valid()
    ensures Concat(connection.consumed) == Concat(old(connection.consumed))
      + if connection.hasHandler then Body(ResponseOk, Concat(chunks)) else []
  {
    hide Feed, ResponseOk, Concat;
    ghost var start := connection.before;
    HandedOver(chunks);
    var i := 0;
    assert chunks[0..] == chunks;
    while i < |chunks| && connection.socketOpen
      invariant i <= |chunks| && connection.Valid() && connection.before == start
      invariant connection.socketOpen <==> !connection.stage.Refused?
      invariant FeedAllNonEmpty(ResponseOk, connection.stage, chunks[i..])
             == FeedAllNonEmpty(ResponseOk, Awaiting([]), chunks)
    {
      assert chunks[i..][1..] == chunks[i + 1..];
      connection.HandleStreamBytes(chunks[i]);
      i := i + 1;
    }
    if i < |chunks| { RefusedStays(ResponseOk, chunks[i..]); }
    assert Concat(start) + [] == Concat(start);
  }

  /** What the stage at the end of a response has passed on. */
  function Passed(st: Stage): seq<byte> {
    match st
    case Streaming(pieces) => Concat(pieces)
    case _ => []
  }

  lemma HandedOver(chunks: seq<seq<byte>>)
    ensures Passed(FeedAllNonEmpty(ResponseOk, Awaiting([]), chunks)) == Body(ResponseOk, Concat(chunks))
  {
    hide FeedAllNonEmpty, ResponseOk, Concat;
    NonEmptyExplained(ResponseOk, [], Awaiting([]), chunks);
    assert [] + Concat(chunks) == Concat(chunks);
  }

  lemma AdvanceNothing(f: FramerState)
    requires Pending(f.buf)
    ensures Advance(f, []) == f
  {
    AdvanceByNothing(f);
  }

  function AfterAll(f: FramerState, connections: seq<seq<seq<byte>>>): FramerState
    decreases |connections|
  {
    if connections == [] then f else AfterAll(AfterConnection(f, connections[0]), connections[1..])
  }

  function Bodies(connections: seq<seq<seq<byte>>>): seq<byte>
    decreases |connections|
  {
    if connections == [] then [] else Body(IsOkResponse, Concat(connections[0])) + Bodies(connections[1..])
  }

  /** Over a whole life with any number of reconnections the framer sees one stream: the accepted
      bodies, one after the other. A frame cut off by a lost connection is continued by the next. */
  lemma {:induction false} OneStreamAcrossReconnects(f: FramerState, connections: seq<seq<seq<byte>>>)
    requires Pending(f.buf)
    ensures AfterAll(f, connections) == Advance(f, Bodies(connections))
    decreases |connections|
  {
    hide AfterConnection, Body, Pending, Scan;
    if connections == [] {
      AdvanceNothing(f);
    } else {
      var body := Body(IsOkResponse, Concat(connections[0]));
      DecodedFromStream(f, connections[0]);
      RestIsPending(f.buf + body);
      OneStreamAcrossReconnects(Advance(f, body), connections[1..]);
      AdvanceTwice(f, body, Bodies(connections[1..]));
    }
  }

  // ---------- messages ----------

  /** The payload of an MSM: twelve type bits, then the message, filled up to whole bytes. */
  function MsmPayload(msgType: nat, m: Record): seq<byte>
    requires IsMsm(msgType) && Encodable(LevelOf(msgType), m)
  {
    PackBytes(ToBits(msgType, 12) + Encode(LevelOf(msgType), m))
  }

  /** Packed bits come back with up to seven zero bits behind them. */
  lemma PackedParts(head: seq<bool>, body: seq<bool>) returns (tail: seq<bool>)
    ensures var all := BitsOf(PackBytes(head + body));
      |all| >= |head| && all[..|head|] == head && all[|head|..] == body + tail
  {
    hide PackBytes, BitsOf;
    BitsOfPackBytes(head + body);
    var all := BitsOf(PackBytes(head + body));
    tail := all[|head + body|..];
    assert all == head + body + tail;
  }

  lemma TypeThenBody(msgType: nat, body: seq<bool>) returns (tail: seq<bool>)
    requires IsMsm(msgType)
    ensures ParseMessage(PackBytes(ToBits(msgType, 12) + body)) == MsmMessage(msgType, ParseMsm(msgType, body + tail))
  {
    TypeFits(msgType);
    hide Pow2, Value, ToBits, ParseMsm, PackBytes, BitsOf, IsMsm;
    tail := PackedParts(ToBits(msgType, 12), body);
    ValueOfToBits(msgType, 12);
  }

  lemma MsmPayloadDecodes(msgType: nat, m: Record)
    requires IsMsm(msgType) && Encodable(LevelOf(msgType), m)
    ensures ParseMessage(MsmPayload(msgType, m)) == MsmMessage(msgType, Decoded(Expected(m)))
  {
    hide ToBits, Encode, ParseMsm, Expected, PackBytes, ParseMessage, Encodable;
    var tail := TypeThenBody(msgType, Encode(LevelOf(msgType), m));
    MsmRoundTrip(msgType, m, tail);
  }

  lemma TypeFits(msgType: nat)
    requires IsMsm(msgType)
    ensures msgType < Pow2(12)
  {
    assert Pow2(12) == 4096;
  }

  /** Messages sent as frames behind an accepted response header, with any preamble-free filler in
      between: however the bytes are cut up, the decoder is handed every payload, in order. */
  lemma FramesEndToEnd(header: seq<byte>, gs: seq<Segment>, chunks: seq<seq<byte>>)
    requires IsAcceptedHeader(header)
    requires forall g :: g in gs ==> Sendable(g)
    requires Concat(chunks) == header + Transmit(gs)
    ensures AfterConnection(FRESH, chunks) == FramerState([], |SentPayloads(gs)|, 0, SentPayloads(gs))
  {
    hide AfterConnection, Advance, Transmit, SentPayloads, IsOkResponse;
    var stream := header + Transmit(gs);
    FindIsStable(header, Transmit(gs), TERMINATOR);
    assert stream[..|header|] == header && stream[|header|..] == Transmit(gs);
    DecodedFromStream(FRESH, chunks);
    ConcatOne(Transmit(gs));
    FrameRoundTrip(gs, [Transmit(gs)]);
    ChunkingIndependence(FRESH, [Transmit(gs)]);
  }

  datatype Sending = Sending(msgType: nat, record: Record)

  /** The payload is the encoding of the message. */
  predicate Carries(payload: seq<byte>, s: Sending) {
    IsMsm(s.msgType) && Encodable(LevelOf(s.msgType), s.record) && payload == MsmPayload(s.msgType, s.record)
  }

  /** The decoder's report on the payload is the contents of the message. */
  predicate Reports(payload: seq<byte>, s: Sending)
    requires |s.record.cells| == PopCount(s.record.cellMask)
  {
    ParseMessage(payload) == MsmMessage(s.msgType, Decoded(Expected(s.record)))
  }

  /** The whole way of Multiple Signal Messages: what the decoder reports is what was sent. */
  lemma MsmEndToEnd(header: seq<byte>, gs: seq<Segment>, sent: seq<Sending>, chunks: seq<seq<byte>>)
    requires IsAcceptedHeader(header)
    requires forall g :: g in gs ==> Sendable(g)
    requires |SentPayloads(gs)| == |sent| && forall k :: 0 <= k < |sent| ==> Carries(SentPayloads(gs)[k], sent[k])
    requires Concat(chunks) == header + Transmit(gs)
    ensures var st := AfterConnection(FRESH, chunks);
      && |st.decoded| == |sent| == st.framesOk && st.framesBadCrc == 0 && st.buf == []
      && forall k :: 0 <= k < |sent| ==>
           |sent[k].record.cells| == PopCount(sent[k].record.cellMask) && Reports(st.decoded[k], sent[k])
  {
    hide Transmit, SentPayloads, AfterConnection, MsmPayload, ParseMessage, Expected, PopCount, IsMsm;
    FramesEndToEnd(header, gs, chunks);
    forall k | 0 <= k < |sent|
      ensures |sent[k].record.cells| == PopCount(sent[k].record.cellMask) && Reports(SentPayloads(gs)[k], sent[k])
    {
      assert Carries(SentPayloads(gs)[k], sent[k]);
      MsmPayloadDecodes(sent[k].msgType, sent[k].record);
    }
  }
}
