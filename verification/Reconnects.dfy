/** What the bytes left over from one connection do to the data of the next: the decoder's framer is not
    emptied in between. */
module Reconnects {
  import opened Bits
  import opened Search
  import opened Framing
  import opened FramingLaws
  import opened HeldBytes
  import opened ResponseHeader
  import opened EndToEnd

  /** Where the leftover ends among the scanned items: between two of them, within an accepted frame, or
      behind all of them. */
  datatype Seam = Clean(k: nat) | Spanned(k: nat) | Stuck

  /** Clean: what the next connection brings is scanned as if nothing had been left over. Spanned: a frame
      made of bytes from both is delivered. Stuck: nothing the next connection brought is decided yet. */
  predicate IsSeam(p: seq<byte>, body: seq<byte>, seam: Seam) {
    var parsed := Scan(p + body);
    var items := parsed.items;
    match seam
    case Clean(k) => k <= |items| && Flatten(items[..k]) == p && Parsed(items[k..], parsed.rest) == Scan(body)
    case Spanned(k) =>
      k < |items| && items[k].Frame? && |Flatten(items[..k])| < |p| < |Flatten(items[..k])| + |items[k].bytes|
    case Stuck => |Flatten(items)| < |p|
  }

  lemma {:induction false} SeamOf(p: seq<byte>, body: seq<byte>) returns (seam: Seam)
    ensures IsSeam(p, body, seam)
    decreases |p|
  {
    hide First, Pending, Fits, Scan, IsSeam;
    var s := p + body;
    if p == [] {
      seam := Clean(0);
      NothingLeftOver(body);
    } else if Pending(s) {
      seam := Stuck;
      AllPending(p, body);
    } else if |First(s).Bytes()| <= |p| {
      var item := First(s);
      var n := |item.Bytes()|;
      var later := SeamOf(p[n..], body);
      ScanFirst(s);
      assert s[n..] == p[n..] + body;
      seam := OneItemMore(item, p, body, later);
    } else {
      seam := Spanned(0);
      FirstSpans(p, body);
    }
  }

  lemma NothingLeftOver(body: seq<byte>)
    ensures IsSeam([], body, Clean(0))
  {
    hide Scan;
    assert [] + body == body;
  }

  lemma AllPending(p: seq<byte>, body: seq<byte>)
    requires p != [] && Pending(p + body)
    ensures IsSeam(p, body, Stuck)
  {
    hide Scan, Pending;
    ScanPending(p + body);
  }

  lemma FirstSpans(p: seq<byte>, body: seq<byte>)
    requires p != [] && !Pending(p + body) && |First(p + body).Bytes()| > |p|
    ensures IsSeam(p, body, Spanned(0))
  {
    hide Scan, Pending, First, Fits;
    ScanFirst(p + body);
    FirstFits(p + body);
    FrameOrSingle(First(p + body), p + body);
  }

  lemma OneItemMore(item: Item, p: seq<byte>, body: seq<byte>, later: Seam) returns (seam: Seam)
    requires var n := |item.Bytes()|;
      n <= |p| && p[..n] == item.Bytes() && IsSeam(p[n..], body, later)
      && Scan(p + body) == Prepend([item], Scan(p[n..] + body))
    ensures IsSeam(p, body, seam)
  {
    hide Scan;
    var n := |item.Bytes()|;
    var rest := Scan(p[n..] + body).items;
    var items := [item] + rest;
    assert p == item.Bytes() + p[n..];
    FlattenFirst(item, rest);
    match later
    case Clean(k) =>
      seam := Clean(k + 1);
      assert items[..k + 1] == [item] + rest[..k] && items[k + 1..] == rest[k..];
      FlattenFirst(item, rest[..k]);
    case Spanned(k) =>
      seam := Spanned(k + 1);
      assert items[..k + 1] == [item] + rest[..k] && items[k + 1] == rest[k];
      FlattenFirst(item, rest[..k]);
    case Stuck => seam := Stuck;
  }

  lemma FlattenFirst(item: Item, items: seq<Item>)
    ensures Flatten([item] + items) == item.Bytes() + Flatten(items)
  {
    assert ([item] + items)[1..] == items;
  }

  // ---------- the three cases exclude each other ----------

  lemma {:induction false} FlattenAppend(a: seq<Item>, b: seq<Item>)
    ensures Flatten(a + b) == Flatten(a) + Flatten(b)
    decreases |a|
  {
    if a == [] {
      assert a + b == b;
    } else {
      FlattenAppend(a[1..], b);
      FlattenFirst(a[0], a[1..] + b);
      assert a + b == [a[0]] + (a[1..] + b);
      assert a[0].Bytes() + Flatten(a[1..]) + Flatten(b) == a[0].Bytes() + (Flatten(a[1..]) + Flatten(b));
    }
  }

  lemma PrefixNoLonger(items: seq<Item>, i: nat, j: nat)
    requires i <= j <= |items|
    ensures |Flatten(items[..i])| <= |Flatten(items[..j])|
  {
    FlattenAppend(items[..i], items[i..j]);
    assert items[..j] == items[..i] + items[i..j];
  }

  lemma PrefixWithNext(items: seq<Item>, k: nat)
    requires k < |items|
    ensures |Flatten(items[..k + 1])| == |Flatten(items[..k])| + |items[k].Bytes()|
  {
    FlattenAppend(items[..k], [items[k]]);
    assert items[..k + 1] == items[..k] + [items[k]];
    FlattenFirst(items[k], []);
    assert [items[k]] + [] == [items[k]];
  }

  /** Whether the next connection is scanned undisturbed is settled by the bytes alone. */
  lemma OneKindOfSeam(p: seq<byte>, body: seq<byte>, a: Seam, b: Seam)
    requires IsSeam(p, body, a) && IsSeam(p, body, b)
    ensures (a.Clean? <==> b.Clean?) && (a.Spanned? <==> b.Spanned?)
  {
    hide Scan, Flatten;
    NotBoth(p, body, a, b);
    NotBoth(p, body, b, a);
  }

  lemma NotBoth(p: seq<byte>, body: seq<byte>, a: Seam, b: Seam)
    requires IsSeam(p, body, a) && IsSeam(p, body, b)
    ensures a.Clean? ==> b.Clean?
    ensures a.Spanned? ==> !b.Stuck?
  {
    hide Scan, Flatten;
    var items := Scan(p + body).items;
    assert items[..|items|] == items;
    if a.Clean? {
      PrefixNoLonger(items, a.k, |items|);
      if b.Spanned? {
        PrefixWithNext(items, b.k);
        if a.k <= b.k { PrefixNoLonger(items, a.k, b.k); } else { PrefixNoLonger(items, b.k + 1, a.k); }
      }
    } else if a.Spanned? {
      PrefixWithNext(items, a.k);
      PrefixNoLonger(items, a.k + 1, |items|);
    }
  }

  // ---------- the framer across a reconnection ----------

  /** What becomes of the leftover f.buf and of the body of the next connection. */
  predicate Outcome(f: FramerState, body: seq<byte>, seam: Seam)
    requires IsSeam(f.buf, body, seam)
  {
    var next, anew, items := Advance(f, body), Advance(FRESH, body), Scan(f.buf + body).items;
    && next.decoded == f.decoded + Payloads(items)
    && match seam
       case Clean(k) => next.buf == anew.buf && next.decoded == f.decoded + Payloads(items[..k]) + anew.decoded
       case Spanned(k) => |items[k].bytes| >= 6 && PayloadOf(items[k].bytes) in Payloads(items)
       case Stuck => next.buf == f.buf[|Flatten(items)|..] + body
  }

  /** What the next connection delivers, and from which bytes: where the scan passes the seam between two items,
      it goes on as for a fresh framer; otherwise a frame spanning the seam is among what is delivered, or all
      that is delivered was left over and everything the connection brought is still held. */
  lemma NextConnection(f: FramerState, body: seq<byte>) returns (seam: Seam)
    requires Pending(f.buf)
    ensures IsSeam(f.buf, body, seam) && Outcome(f, body, seam)
  {
    hide IsSeam, Outcome;
    seam := SeamOf(f.buf, body);
    if seam.Clean? { AfterClean(f, body, seam.k); }
    else if seam.Spanned? { AfterSpanned(f, body, seam.k); }
    else { AfterStuck(f, body); }
  }

  lemma AfterClean(f: FramerState, body: seq<byte>, k: nat)
    requires IsSeam(f.buf, body, Clean(k))
    ensures Outcome(f, body, Clean(k))
  {
    hide Scan, Payloads, Flatten, BadCount;
    var items := Scan(f.buf + body).items;
    assert FRESH.buf + body == body;
    PayloadsAppend(items[..k], items[k..]);
    assert items == items[..k] + items[k..];
    var held, brought := Payloads(items[..k]), Payloads(items[k..]);
    assert f.decoded + (held + brought) == f.decoded + held + brought;
  }

  lemma AfterSpanned(f: FramerState, body: seq<byte>, k: nat)
    requires IsSeam(f.buf, body, Spanned(k))
    ensures Outcome(f, body, Spanned(k))
  {
    hide Scan, Payloads, Flatten, BadCount, Explains;
    var p := Scan(f.buf + body);
    ScanExplains(f.buf + body);
    FramesAreWhole(p.items, p.rest, k);
    DeliveredAmong(p.items, k);
  }

  lemma AfterStuck(f: FramerState, body: seq<byte>)
    requires IsSeam(f.buf, body, Stuck)
    ensures Outcome(f, body, Stuck)
  {
    hide Scan, Payloads, Flatten, BadCount, Explains;
    var p := Scan(f.buf + body);
    ScanExplains(f.buf + body);
    assert p.rest == (f.buf + body)[|Flatten(p.items)|..];
    assert (f.buf + body)[|Flatten(p.items)|..] == f.buf[|Flatten(p.items)|..] + body;
  }

  lemma {:induction false} FramesAreWhole(items: seq<Item>, rest: seq<byte>, k: nat)
    requires Explains(items, rest) && k < |items| && items[k].Frame?
    ensures |items[k].bytes| >= 6
  {
    hide Explains, Flatten, Fits;
    var item, later := items[0], items[1..];
    assert items == [item] + later;
    ExplainOneMore(item, later, rest);
    if k == 0 {
      WholeFrameLength(item, item.Bytes() + (Flatten(later) + rest));
    } else {
      FramesAreWhole(later, rest, k - 1);
    }
  }

  lemma WholeFrameLength(item: Item, here: seq<byte>)
    requires item.Frame? && Fits(item, here)
    ensures |item.bytes| >= 6
  {
    hide ChecksumMatches, LengthOf;
  }

  lemma DeliveredAmong(items: seq<Item>, k: nat)
    requires k < |items|
    ensures forall x :: x in Delivered(items[k]) ==> x in Payloads(items)
  {
    hide Payloads, Delivered;
    CountOne(items[..k], items[k]);
    PayloadsAppend(items[..k + 1], items[k + 1..]);
    assert items == items[..k + 1] + items[k + 1..];
    assert items[..k + 1] == items[..k] + [items[k]];
  }

  // ---------- when the next connection is decoded on its own ----------

  /** Whatever the next connection brings, cut up in any way, it delivers what it would deliver to a fresh
      framer, exactly when no byte left over may still begin a frame. */
  lemma NextConnectionExactly(f: FramerState)
    requires Pending(f.buf)
    ensures (forall stream :: AfterConnection(f, stream).decoded == f.decoded + AfterConnection(FRESH, stream).decoded)
      <==> NoneOpens(f.buf)
  {
    hide AfterConnection, Advance, NoneOpens, Body, IsAcceptedHeader, IsOkResponse;
    LeftoverMattersExactly(f);
    if NoneOpens(f.buf) {
      forall stream
        ensures AfterConnection(f, stream).decoded == f.decoded + AfterConnection(FRESH, stream).decoded
      {
        DecodedFromStream(f, stream);
        DecodedFromStream(FRESH, stream);
      }
    } else {
      ShortestHeader();
      var header := ICY_200 + TERMINATOR;
      var body :| Advance(f, body).decoded != f.decoded + Advance(FRESH, body).decoded;
      OnePiece(f, header, body);
      OnePiece(FRESH, header, body);
    }
  }

  // ---------- a spliced frame ----------

  lemma OnePiece(f: FramerState, header: seq<byte>, body: seq<byte>)
    requires Pending(f.buf) && IsAcceptedHeader(header)
    ensures AfterConnection(f, [header + body]) == Advance(f, body)
  {
    hide AfterConnection, Advance, IsOkResponse, Find;
    FindIsStable(header, body, TERMINATOR);
    assert (header + body)[..|header|] == header && (header + body)[|header|..] == body;
    ConcatOne(header + body);
    DecodedFromStream(f, [header + body]);
  }

  /** Any frame cut off within by a lost connection is put together again from two connections, though
      neither brought it: the first delivers nothing, nor would the second on its own if it brings fewer
      than six bytes. */
  lemma SplicedFrame(header: seq<byte>, f: seq<byte>, k: nat)
    requires IsAcceptedHeader(header) && ValidFrame(f) && |f| == FrameLength(f) && 0 < k < |f|
    ensures var first, second := [header + f[..k]], [header + f[k..]];
      && AfterConnection(FRESH, first).decoded == []
      && (|f| - k < 6 ==> AfterConnection(FRESH, second).decoded == [])
      && AfterAll(FRESH, [first, second]) == FramerState([], 1, 0, [PayloadOf(f)])
  {
    hide Scan, Payloads, BadCount, AfterConnection, AfterAll, Advance, IsAcceptedHeader, ValidFrame, Pending, LengthOf;
    var cut := Advance(FRESH, f[..k]);
    CutFrameIsHeld(f, k);
    OnePiece(FRESH, header, f[..k]);
    OnePiece(FRESH, header, f[k..]);
    OnePiece(cut, header, f[k..]);
    if |f| - k < 6 { ShortDeliversNothing(f[k..]); }
    AdvanceTwice(FRESH, f[..k], f[k..]);
    assert f[..k] + f[k..] == f;
    WholeFrame(f);
    TwoConnections(FRESH, [header + f[..k]], [header + f[k..]]);
  }

  lemma CutFrameIsHeld(f: seq<byte>, k: nat)
    requires ValidFrame(f) && |f| == FrameLength(f) && 0 < k < |f|
    ensures Pending(FRESH.buf) && Pending(Advance(FRESH, f[..k]).buf) && Advance(FRESH, f[..k]).decoded == []
  {
    hide Scan, Payloads, BadCount, ValidFrame, LengthOf;
    CutFrameIsPending(f, k);
    ScanPending(f[..k]);
    CountNone();
    assert [] + f[..k] == f[..k];
  }

  lemma ShortDeliversNothing(s: seq<byte>)
    requires |s| < 6
    ensures Advance(FRESH, s).decoded == []
  {
    hide Scan, Payloads, BadCount;
    TooShortForAFrame(s);
    assert [] + s == s;
  }

  lemma TwoConnections(f: FramerState, first: seq<seq<byte>>, second: seq<seq<byte>>)
    ensures AfterAll(f, [first, second]) == AfterConnection(AfterConnection(f, first), second)
  {
    hide AfterConnection;
    var last := AfterConnection(AfterConnection(f, first), second);
    assert [first, second][1..] == [second] && [second][1..] == [];
    assert AfterAll(last, [second][1..]) == last;
    assert AfterAll(AfterConnection(f, first), [second]) == last;
  }

  lemma CutFrameIsPending(f: seq<byte>, k: nat)
    requires ValidFrame(f) && |f| == FrameLength(f) && 0 < k < |f|
    ensures Pending(f[..k])
  {
    hide LengthOf, ChecksumMatches;
    assert f[..k][0] == f[0];
    if k >= 3 { assert f[..k][1] == f[1] && f[..k][2] == f[2]; }
  }

  lemma WholeFrame(f: seq<byte>)
    requires ValidFrame(f) && |f| == FrameLength(f)
    ensures Advance(FRESH, f) == FramerState([], 1, 0, [PayloadOf(f)])
  {
    hide Scan, Payloads, BadCount, ValidFrame, LengthOf;
    NothingYields();
    FrameIsDelivered(f, [], []);
    assert f + [] == f && [] + f == f && [PayloadOf(f)] + [] == [PayloadOf(f)];
    assert [] + [PayloadOf(f)] == [PayloadOf(f)];
  }

  lemma NothingYields()
    ensures Yields([], [])
  {
    CountNone();
  }

  // ---------- one spliced frame ----------

  lemma ShortestHeader()
    ensures IsAcceptedHeader(ICY_200 + TERMINATOR)
  {
    var header := ICY_200 + TERMINATOR;
    OccurrencesStart(header, TERMINATOR);
    assert header[..7] == ICY_200 && header[7..11] == TERMINATOR;
    assert forall i :: 0 <= i < 7 ==> header[i] != 0x0D;
    FoundFirst(header, TERMINATOR, 7, 0);
  }

  /** The frame of an empty payload, its last byte on a second connection: what the first leaves over may still
      begin a frame, and what the second delivers differs. */
  lemma SpliceExample()
    ensures var header, f := ICY_200 + TERMINATOR, EncodeFrame(Zeros(6), []);
      var first, second := [header + f[..5]], [header + f[5..]];
      && AfterConnection(FRESH, first).decoded == [] == AfterConnection(FRESH, second).decoded
      && AfterAll(FRESH, [first, second]).decoded == [[]]
      && !NoneOpens(AfterConnection(FRESH, first).buf)
  {
    hide EncodeFrame, ValidFrame, AfterConnection, AfterAll, IsAcceptedHeader, Zeros;
    ShortestHeader();
    EncodedFrameIsValid(Zeros(6), []);
    hide NoneOpens, Pending, Advance;
    var header, f := ICY_200 + TERMINATOR, EncodeFrame(Zeros(6), []);
    var first, second := [header + f[..5]], [header + f[5..]];
    SplicedFrame(header, f, 5);
    TwoConnections(FRESH, first, second);
    StaysPending(first);
    NextConnectionExactly(AfterConnection(FRESH, first));
  }

  lemma StaysPending(stream: seq<seq<byte>>)
    ensures Pending(AfterConnection(FRESH, stream).buf)
  {
    hide AfterConnection, Scan, Body, Payloads, BadCount;
    DecodedFromStream(FRESH, stream);
    RestIsPending([] + Body(IsOkResponse, Concat(stream)));
  }
}
