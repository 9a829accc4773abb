/** The response header in front of an NTRIP stream: finding its end and passing on what follows. */
module ResponseHeader {
  import opened Bits
  import opened Search
  import opened Backoff
  import opened Framing
  import opened FramingLaws

  /** CR LF CR LF. */
  const TERMINATOR: seq<byte> := [0x0D, 0x0A, 0x0D, 0x0A]

  /** One connection: collecting the header, passing data on, or refused. */
  datatype Stage =
    | Awaiting(pending: seq<byte>)
    | Streaming(pieces: seq<seq<byte>>)
    | Refused

  /** A header as the caster sent it, terminator included, and whether to go on. */
  type Acceptance = seq<byte> -> bool

  function Feed(accept: Acceptance, st: Stage, data: seq<byte>): Stage {
    match st
    case Refused => Refused
    case Streaming(pieces) => Streaming(pieces + [data])
    case Awaiting(pending) =>
      var all := pending + data;
      match Find(all, TERMINATOR)
      case None => Awaiting(all)
      case Some(pos) =>
        if !accept(all[..pos + 4]) then Refused
        else if pos + 4 < |all| then Streaming([all[pos + 4..]])
        else Streaming([])
  }

  function FeedAll(accept: Acceptance, st: Stage, chunks: seq<seq<byte>>): Stage
    decreases |chunks|
  {
    if chunks == [] then st else FeedAll(accept, Feed(accept, st, chunks[0]), chunks[1..])
  }

  // ---------- fragmentation ----------

  lemma {:induction false} ConcatAppend<T>(a: seq<seq<T>>, b: seq<seq<T>>)
    ensures Concat(a + b) == Concat(a) + Concat(b)
    decreases |a|
  {
    if a == [] {
      assert a + b == b;
    } else {
      ConcatAppend(a[1..], b);
      assert a + b == [a[0]] + (a[1..] + b);
      assert a[0] + (Concat(a[1..]) + Concat(b)) == a[0] + Concat(a[1..]) + Concat(b);
    }
  }

  /** What a stage amounts to when the whole stream so far is s. */
  ghost predicate Explained(accept: Acceptance, s: seq<byte>, st: Stage) {
    match Find(s, TERMINATOR)
    case None => st == Awaiting(s)
    case Some(pos) =>
      if accept(s[..pos + 4]) then st.Streaming? && Concat(st.pieces) == s[pos + 4..]
      else st == Refused
  }

  lemma SplitSum(a: seq<byte>, b: seq<byte>, k: nat)
    requires k <= |a|
    ensures (a + b)[..k] == a[..k] && (a + b)[k..] == a[k..] + b
  {
  }

  lemma FeedExplained(accept: Acceptance, s: seq<byte>, st: Stage, data: seq<byte>)
    requires Explained(accept, s, st)
    ensures Explained(accept, s + data, Feed(accept, st, data))
  {
    var all := s + data;
    if Find(s, TERMINATOR).Some? {
      FindIsStable(s, data, TERMINATOR);
      var pos := Find(s, TERMINATOR).value;
      SplitSum(s, data, pos + 4);
      if st.Streaming? {
        ConcatAppend(st.pieces, [data]);
        assert Concat([data]) == data + Concat([data][1..]) == data;
      }
    } else {
      var r := Find(all, TERMINATOR);
      if r.Some? && accept(all[..r.value + 4]) && r.value + 4 < |all| {
        var body := all[r.value + 4..];
        assert Concat([body]) == body + Concat([body][1..]) == body;
      }
    }
  }

  lemma {:induction false} FeedAllExplained(accept: Acceptance, s: seq<byte>, st: Stage, chunks: seq<seq<byte>>)
    requires Explained(accept, s, st)
    ensures Explained(accept, s + Concat(chunks), FeedAll(accept, st, chunks))
    decreases |chunks|
  {
    hide Explained, Feed;
    if chunks == [] {
      assert s + [] == s;
    } else {
      FeedExplained(accept, s, st, chunks[0]);
      FeedAllExplained(accept, s + chunks[0], Feed(accept, st, chunks[0]), chunks[1..]);
      assert s + chunks[0] + Concat(chunks[1..]) == s + (chunks[0] + Concat(chunks[1..]));
    }
  }

  /** However a response is cut up, even within its terminator: behind the first CRLFCRLF of an
      accepted header, exactly the remaining bytes are passed on, once and in order. */
  lemma HeaderFragmentation(accept: Acceptance, chunks: seq<seq<byte>>)
    ensures Explained(accept, Concat(chunks), FeedAll(accept, Awaiting([]), chunks))
  {
    hide FeedAll;
    assert [] + Concat(chunks) == Concat(chunks);
    FeedAllExplained(accept, [], Awaiting([]), chunks);
  }

  /** The bridge's client ignores empty reads altogether. */
  function FeedAllNonEmpty(accept: Acceptance, st: Stage, chunks: seq<seq<byte>>): Stage
    decreases |chunks|
  {
    if chunks == [] then st
    else FeedAllNonEmpty(accept, if chunks[0] == [] then st else Feed(accept, st, chunks[0]), chunks[1..])
  }

  lemma {:induction false} NonEmptyExplained(accept: Acceptance, s: seq<byte>, st: Stage, chunks: seq<seq<byte>>)
    requires Explained(accept, s, st)
    ensures Explained(accept, s + Concat(chunks), FeedAllNonEmpty(accept, st, chunks))
    decreases |chunks|
  {
    hide Explained, Feed;
    if chunks == [] {
      assert s + [] == s;
    } else {
      FeedExplained(accept, s, st, chunks[0]);
      if chunks[0] == [] { assert s + chunks[0] == s; }
      var next := if chunks[0] == [] then st else Feed(accept, st, chunks[0]);
      NonEmptyExplained(accept, s + chunks[0], next, chunks[1..]);
      assert s + chunks[0] + Concat(chunks[1..]) == s + (chunks[0] + Concat(chunks[1..]));
    }
  }

  // ---------- what the two clients accept ----------

  predicate StartsWith(s: seq<byte>, prefix: seq<byte>) {
    prefix <= s
  }

  const ICY_200: seq<byte> := [0x49, 0x43, 0x59, 0x20, 0x32, 0x30, 0x30]
  const HTTP_10_200: seq<byte> := [0x48, 0x54, 0x54, 0x50, 0x2F, 0x31, 0x2E, 0x30, 0x20, 0x32, 0x30, 0x30]
  const HTTP_11_200: seq<byte> := [0x48, 0x54, 0x54, 0x50, 0x2F, 0x31, 0x2E, 0x31, 0x20, 0x32, 0x30, 0x30]
  const SP_200_SP: seq<byte> := [0x20, 0x32, 0x30, 0x30, 0x20]

  /** The decoder's test: one of three spellings of status 200 at the very start. */
  predicate IsOkResponse(header: seq<byte>) {
    StartsWith(header, ICY_200) || StartsWith(header, HTTP_10_200) || StartsWith(header, HTTP_11_200)
  }

  function StatusLine(header: seq<byte>): seq<byte> {
    match Find(header, CRLF)
    case None => header
    case Some(end) => header[..end]
  }

  /** The bridge's test: " 200 " anywhere in the status line, or "ICY 200" at its start. */
  predicate ResponseOk(header: seq<byte>) {
    Find(StatusLine(header), SP_200_SP).Some? || StartsWith(StatusLine(header), ICY_200)
  }

  // ---------- the decoder's client ----------

  class NtripDecoderClient {
    var responseHeader: seq<byte>
    var headerDone: bool
    var socketOpen: bool
    var delay: nat
    const framer: RtcmStreamFramer
    ghost var stage: Stage
    ghost var atConnect: FramerState  // what the framer held when this connection was made
    ghost var failures: nat           // since the last connection was made

    ghost predicate Paced()
      reads this
    {
      delay == Delay(1, 30, failures)
    }

    /** The fields show the stage, and the framer has seen exactly the pieces passed on. */
    ghost predicate Valid()
      reads this, framer
    {
      && framer.Valid() && Pending(atConnect.buf) && Paced()
      && (stage.Refused? ==> !socketOpen)
      && match stage
         case Awaiting(pending) => !headerDone && responseHeader == pending && framer.View() == atConnect
         case Streaming(pieces) => headerDone && framer.View() == AdvanceAll(atConnect, pieces)
         case Refused => !headerDone && framer.View() == atConnect
    }

    constructor ()
      ensures Valid() && stage == Awaiting([]) && framer.View() == FRESH && failures == 0 && delay == 1
      ensures fresh(framer)
    {
      responseHeader, headerDone, socketOpen, delay := [], false, false, 1;
      framer := new RtcmStreamFramer();
      stage, atConnect, failures := Awaiting([]), FRESH, 0;
    }

    /** The socket is connected: a new header is expected; the framer keeps what it holds. */
    method Connected()
      requires Valid()
      modifies this
      ensures Valid() && socketOpen && stage == Awaiting([]) && failures == 0 && delay == 1
      ensures framer.View() == old(framer.View()) == atConnect
    {
      socketOpen := true;
      delay := 1;
      responseHeader := [];
      headerDone := false;
      stage, atConnect, failures := Awaiting([]), framer.View(), 0;
    }

    /** The connection is given up; the next attempt waits twice as long, at most thirty seconds. */
    method Reconnect(running: bool)
      requires Paced()
      modifies this`socketOpen, this`delay, this`failures
      ensures !socketOpen && Paced() && failures == old(failures) + if running then 1 else 0
      ensures delay == if !running then old(delay) else if old(delay) <= 15 then old(delay) * 2 else 30
    {
      socketOpen := false;
      if !running { return; }
      delay := Min(delay * 2, 30);
      failures := failures + 1;
    }

    method OnBytes(data: seq<byte>, running: bool)
      requires Valid() && socketOpen
      modifies this, framer
      ensures Valid() && stage == Feed(IsOkResponse, old(stage), data) && atConnect == old(atConnect)
      ensures socketOpen <==> !stage.Refused?
      ensures failures == old(failures) + if stage.Refused? && running then 1 else 0
    {
      hide IsOkResponse, Find, Advance;
      if !headerDone {
        responseHeader := responseHeader + data;
        var found := Find(responseHeader, TERMINATOR);
        if found.None? {
          stage := Awaiting(responseHeader);
          return;
        }
        var pos := found.value;
        FoundWithin(responseHeader, TERMINATOR);
        var header := responseHeader[..pos + 4];
        if !IsOkResponse(header) {
          stage := Refused;
          Reconnect(running);
          return;
        }
        headerDone := true;
        var bodyStart := pos + 4;
        stage := Streaming([]);
        if bodyStart < |responseHeader| {
          PassedOn(atConnect, [], responseHeader[bodyStart..]);
          framer.Push(responseHeader[bodyStart..]);
          assert [] + [responseHeader[bodyStart..]] == [responseHeader[bodyStart..]];
          stage := Streaming([responseHeader[bodyStart..]]);
        }
        responseHeader := [];
        return;
      }
      PassedOn(atConnect, stage.pieces, data);
      framer.Push(data);
      stage := Streaming(stage.pieces + [data]);
    }
  }

  lemma {:induction false} PassedOn(st: FramerState, pieces: seq<seq<byte>>, data: seq<byte>)
    ensures AdvanceAll(st, pieces + [data]) == Advance(AdvanceAll(st, pieces), data)
    decreases |pieces|
  {
    hide Advance;
    if pieces == [] {
      assert [] + [data] == [data];
      assert AdvanceAll(Advance(st, data), [data][1..]) == Advance(st, data);
    } else {
      PassedOn(Advance(st, pieces[0]), pieces[1..], data);
      assert (pieces + [data])[1..] == pieces[1..] + [data];
    }
  }

  // ---------- the bridge's client ----------

  class NtripConnection {
    var responseBuffer: seq<byte>
    var responseHeadersComplete: bool
    var socketOpen: bool
    const hasHandler: bool
    const minSec: nat
    const maxSec: nat
    var delay: nat
    var consumed: seq<seq<byte>>  // what the consumption handler was called with
    ghost var stage: Stage
    ghost var before: seq<seq<byte>>
    ghost var failures: nat       // since the object was made

    ghost predicate Paced()
      reads this
    {
      delay == Delay(minSec, maxSec, failures)
    }

    ghost predicate Valid()
      reads this
    {
      && Paced() && (stage.Refused? ==> !socketOpen)
      && match stage
         case Awaiting(pending) => !responseHeadersComplete && responseBuffer == pending && consumed == before
         case Streaming(pieces) =>
           responseHeadersComplete && Concat(consumed) == Concat(before) + if hasHandler then Concat(pieces) else []
         case Refused => !responseHeadersComplete && responseBuffer == [] && consumed == before
    }

    constructor (hasHandler: bool, minSec: nat, maxSec: nat)
      ensures Valid() && stage == Awaiting([]) && consumed == [] && this.hasHandler == hasHandler
      ensures this.minSec == minSec && this.maxSec == maxSec && failures == 0 && delay == minSec
    {
      this.hasHandler, this.minSec, this.maxSec, delay := hasHandler, minSec, maxSec, minSec;
      responseBuffer, responseHeadersComplete, socketOpen, consumed := [], false, false, [];
      stage, before, failures := Awaiting([]), [], 0;
    }

    /** A new attempt, up to the connected socket. */
    method Connect()
      requires Paced()
      modifies this
      ensures Valid() && socketOpen && stage == Awaiting([])
      ensures consumed == old(consumed) == before && failures == old(failures)
    {
      responseHeadersComplete := false;
      responseBuffer := [];
      socketOpen := true;
      stage, before := Awaiting([]), consumed;
    }

    /** The connection is given up: any partial header is dropped and the delay doubles up to the maximum. */
    method Reconnect()
      requires Paced()
      modifies this`responseHeadersComplete, this`responseBuffer, this`socketOpen, this`delay, this`failures
      ensures !socketOpen && !responseHeadersComplete && responseBuffer == []
      ensures Paced() && failures == old(failures) + 1
      ensures delay == if old(delay) * 2 <= maxSec then old(delay) * 2 else maxSec
    {
      responseHeadersComplete := false;
      responseBuffer := [];
      socketOpen := false;
      delay := Min(delay * 2, maxSec);
      failures := failures + 1;
    }

    method HandleStreamBytes(data: seq<byte>)
      requires Valid() && socketOpen
      modifies this
      ensures Valid() && before == old(before)
      ensures socketOpen <==> !stage.Refused?
      ensures stage == if data == [] then old(stage) else Feed(ResponseOk, old(stage), data)
      ensures failures == old(failures) + if stage.Refused? then 1 else 0
    {
      hide ResponseOk, Find, Concat;
      if |data| == 0 {
        return;
      }
      if responseHeadersComplete {
        HandOver(before, consumed, stage.pieces, data, hasHandler);
        if hasHandler {
          consumed := consumed + [data];
        }
        stage := Streaming(stage.pieces + [data]);
        return;
      }
      responseBuffer := responseBuffer + data;
      var found := Find(responseBuffer, TERMINATOR);
      if found.None? {
        stage := Awaiting(responseBuffer);
        return;
      }
      var headersEnd := found.value;
      FoundWithin(responseBuffer, TERMINATOR);
      var headers := responseBuffer[..headersEnd + 4];
      if !ResponseOk(headers) {
        Reconnect();
        stage := Refused;
        return;
      }
      responseHeadersComplete := true;
      var offset := headersEnd + 4;
      NothingHandedOver(consumed);
      stage := Streaming([]);
      if offset < |responseBuffer| {
        var body := responseBuffer[offset..];
        HandOver(before, consumed, [], body, hasHandler);
        if hasHandler {
          consumed := consumed + [body];
        }
        stage := Streaming([body]);
        assert [] + [body] == [body];
      }
      responseBuffer := [];
    }
  }

  lemma NothingHandedOver(before: seq<seq<byte>>)
    ensures Concat(before) == Concat(before) + Concat<byte>([]) && Concat(before) == Concat(before) + []
  {
  }

  lemma HandOver(before: seq<seq<byte>>, consumed: seq<seq<byte>>, pieces: seq<seq<byte>>, data: seq<byte>,
                 handler: bool)
    requires Concat(consumed) == Concat(before) + if handler then Concat(pieces) else []
    ensures handler ==> Concat(consumed + [data]) == Concat(before) + Concat(pieces + [data])
    ensures !handler ==> Concat(consumed) == Concat(before) + []
  {
    ConcatAppend(pieces, [data]);
    ConcatAppend(consumed, [data]);
    ConcatOne(data);
    hide Concat;
    assert Concat(before) + Concat(pieces) + data == Concat(before) + (Concat(pieces) + data);
  }

  lemma ConcatOne<T>(piece: seq<T>)
    ensures Concat([piece]) == piece
  {
    assert [piece][1..] == [];
  }
}
