/** What the framer does over whole streams: chunking, greediness, conservation and round trip. */
module FramingLaws {
  import opened Bits
  import opened Crc24q
  import opened Framing

  // ---------- fragmentation ----------

  /** More bytes do not change a decision that could already be made. */
  lemma FirstIsStable(a: seq<byte>, b: seq<byte>)
    requires !Pending(a)
    ensures !Pending(a + b) && First(a + b) == First(a)
  {
    hide Crc, BitsOf, LengthOf, IsPreamble;
    if |a| >= 3 {
      assert FrameLength(a + b) == FrameLength(a);
      if Candidate(a) {
        assert (a + b)[..FrameLength(a)] == a[..FrameLength(a)];
      }
    }
  }

  /** Scanning a, keeping the rest, and then scanning on with b is scanning a + b. */
  lemma {:induction false} ScanAppend(a: seq<byte>, b: seq<byte>)
    ensures Scan(a + b) == Prepend(Scan(a).items, Scan(Scan(a).rest + b))
    decreases |a|
  {
    hide First, Pending, Scan, Prepend;
    if Pending(a) {
      ScanPending(a);
      EmptyPrefix(Scan(a + b));
    } else {
      FirstIsStable(a, b);
      var item := First(a);
      var n := |item.Bytes()|;
      ScanFirst(a);
      ScanFirst(a + b);
      ScanAppend(a[n..], b);
      assert (a + b)[n..] == a[n..] + b;
      PrependParts([item], Scan(a[n..]));
      PrependTwice([item], Scan(a[n..]).items, Scan(Scan(a[n..]).rest + b));
    }
  }

  lemma PrependParts(items: seq<Item>, p: Parsed)
    ensures Prepend(items, p).items == items + p.items && Prepend(items, p).rest == p.rest
  {
  }

  lemma EmptyPrefix(p: Parsed)
    ensures Prepend([], p) == p
  {
    assert [] + p.items == p.items;
  }

  lemma {:induction false} RestIsPending(s: seq<byte>)
    ensures Pending(Scan(s).rest)
    decreases |s|
  {
    hide Pending, First;
    if !Pending(s) { RestIsPending(s[|First(s).Bytes()|..]); }
  }

  function AdvanceAll(st: FramerState, chunks: seq<seq<byte>>): FramerState
    decreases |chunks|
  {
    if chunks == [] then st else AdvanceAll(Advance(st, chunks[0]), chunks[1..])
  }

  lemma AdvanceTwice(st: FramerState, a: seq<byte>, b: seq<byte>)
    ensures Advance(Advance(st, a), b) == Advance(st, a + b)
  {
    hide Scan, Payloads, BadCount;
    var p := Scan(st.buf + a);
    ScanAppend(st.buf + a, b);
    assert st.buf + a + b == st.buf + (a + b);
    PayloadsAppend(p.items, Scan(p.rest + b).items);
  }

  /** However a stream is cut into pushes, the outcome is that of one single push. */
  lemma {:induction false} ChunkingIndependence(st: FramerState, chunks: seq<seq<byte>>)
    requires Pending(st.buf)
    ensures AdvanceAll(st, chunks) == Advance(st, Concat(chunks))
    ensures |AdvanceAll(st, chunks).buf| <= 1028
    decreases |chunks|
  {
    hide Scan, Payloads, BadCount, Pending;
    RestIsPending(st.buf + Concat(chunks));
    PendingIsShort(Scan(st.buf + Concat(chunks)).rest);
    if chunks == [] {
      AdvanceByNothing(st);
    } else {
      RestIsPending(st.buf + chunks[0]);
      ChunkingIndependence(Advance(st, chunks[0]), chunks[1..]);
      AdvanceTwice(st, chunks[0], Concat(chunks[1..]));
    }
  }

  // ---------- what the scan means ----------

  function Flatten(items: seq<Item>): seq<byte> {
    if items == [] then [] else items[0].Bytes() + Flatten(items[1..])
  }

  /** The item is what the stream at this point calls for. */
  predicate Fits(item: Item, here: seq<byte>) {
    match item
    case Noise(b) => here != [] && here[0] == b && !IsPreamble(b)
    case BadCrc(b) => Candidate(here) && here[0] == b && !ValidFrame(here)
    case Frame(bytes) => ValidFrame(here) && bytes == here[..FrameLength(here)]
  }

  /** Every item fits the stream where it stands, and what is left over is undecided. */
  predicate Explains(items: seq<Item>, rest: seq<byte>)
    decreases |items|
  {
    if items == [] then Pending(rest)
    else Fits(items[0], items[0].Bytes() + Flatten(items[1..]) + rest) && Explains(items[1..], rest)
  }

  lemma {:induction false} ScanExplains(s: seq<byte>)
    ensures Flatten(Scan(s).items) + Scan(s).rest == s
    ensures Explains(Scan(s).items, Scan(s).rest)
    decreases |s|
  {
    hide First, Pending, Fits, Scan, Explains, Flatten;
    if Pending(s) {
      ScanPending(s);
      NothingToExplain(s);
      assert [] + s == s;
    } else {
      var item := First(s);
      ScanFirst(s);
      FirstFits(s);
      var n := |item.Bytes()|;
      var p := Scan(s[n..]);
      ScanExplains(s[n..]);
      assert s == item.Bytes() + (Flatten(p.items) + p.rest);
      ExplainOneMore(item, p.items, p.rest);
    }
  }

  lemma NothingToExplain(s: seq<byte>)
    ensures Flatten([]) == [] && (Explains([], s) <==> Pending(s))
  {
  }

  lemma ExplainOneMore(item: Item, items: seq<Item>, rest: seq<byte>)
    ensures Flatten([item] + items) + rest == item.Bytes() + (Flatten(items) + rest)
    ensures Explains([item] + items, rest)
      <==> Fits(item, item.Bytes() + (Flatten(items) + rest)) && Explains(items, rest)
  {
    hide Fits, Pending;
    assert ([item] + items)[1..] == items;
    assert item.Bytes() + Flatten(items) + rest == item.Bytes() + (Flatten(items) + rest);
  }

  lemma FirstFits(s: seq<byte>)
    requires !Pending(s)
    ensures Fits(First(s), s)
  {
  }

  lemma FitsDecides(item: Item, s: seq<byte>)
    requires Fits(item, s)
    ensures !Pending(s) && First(s) == item
  {
  }

  /** The scan is the only reading of a stream in which every item fits: nothing is skipped or
      accepted that should not be, and no byte is lost or duplicated. */
  lemma {:induction false} GreedyIsUnique(items: seq<Item>, rest: seq<byte>)
    requires Explains(items, rest)
    ensures Scan(Flatten(items) + rest) == Parsed(items, rest)
    decreases |items|
  {
    hide First, Pending, Fits, Scan, Explains, Flatten;
    NothingToExplain(rest);
    if items == [] {
      assert [] + rest == rest;
      ScanPending(rest);
    } else {
      var item, later := items[0], items[1..];
      var more := Flatten(later) + rest;
      assert items == [item] + later;
      ExplainOneMore(item, later, rest);
      GreedyIsUnique(later, rest);
      FitsDecides(item, item.Bytes() + more);
      ScanFirst(item.Bytes() + more);
      assert (item.Bytes() + more)[|item.Bytes()|..] == more;
    }
  }

  lemma GreedySpecification(s: seq<byte>, items: seq<Item>, rest: seq<byte>)
    ensures Scan(s) == Parsed(items, rest) <==> s == Flatten(items) + rest && Explains(items, rest)
  {
    hide Scan, Explains, Flatten;
    ScanExplains(s);
    if s == Flatten(items) + rest && Explains(items, rest) { GreedyIsUnique(items, rest); }
  }

  // ---------- conservation ----------

  function FrameBytes(items: seq<Item>): nat {
    if items == [] then 0 else (if items[0].Frame? then |items[0].bytes| else 0) + FrameBytes(items[1..])
  }

  function NoiseCount(items: seq<Item>): nat {
    if items == [] then 0 else (if items[0].Noise? then 1 else 0) + NoiseCount(items[1..])
  }

  lemma {:induction false} FlattenLength(items: seq<Item>)
    ensures |Flatten(items)| == FrameBytes(items) + NoiseCount(items) + BadCount(items)
  {
    if items == [] {
    } else {
      FlattenLength(items[1..]);
      PayloadsAppend([items[0]], items[1..]);
      assert items == [items[0]] + items[1..];
      CountOne([], items[0]);
      assert [] + [items[0]] == [items[0]];
    }
  }

  /** Every byte pushed is in an accepted frame, skipped as noise, counted as a bad preamble, or still held. */
  lemma Conservation(chunks: seq<seq<byte>>)
    ensures var items := Scan(Concat(chunks)).items; var st := AdvanceAll(FRESH, chunks);
      |Concat(chunks)| == FrameBytes(items) + NoiseCount(items) + st.framesBadCrc + |st.buf|
  {
    hide Scan, Payloads, BadCount, Flatten, Explains;
    var s := Concat(chunks);
    ChunkingIndependence(FRESH, chunks);
    assert [] + s == s;
    ScanExplains(s);
    FlattenLength(Scan(s).items);
  }

  /** Position i lies within an accepted frame. */
  predicate Covered(items: seq<Item>, i: nat)
    decreases |items|
  {
    if items == [] then false
    else if i < |items[0].Bytes()| then items[0].Frame?
    else Covered(items[1..], i - |items[0].Bytes()|)
  }

  /** Leftmost: a valid frame is only ever passed over because an earlier accepted one overlaps it. */
  lemma {:induction false} NoFrameMissed(s: seq<byte>, i: nat)
    requires i < |s| - |Scan(s).rest| && ValidFrame(s[i..])
    ensures Covered(Scan(s).items, i)
    decreases |s|
  {
    hide Pending, Scan, ValidFrame, Fits;
    if Pending(s) {
      ScanPending(s);
    } else {
      ScanFirst(s);
      FirstFits(s);
      var item := First(s);
      var n := |item.Bytes()|;
      FrameOrSingle(item, s);
      hide First;
      if i < n {
        assert s[0..] == s;
      } else {
        assert s[n..][i - n..] == s[i..];
        NoFrameMissed(s[n..], i - n);
        assert Scan(s).items[1..] == Scan(s[n..]).items;
      }
    }
  }

  lemma FrameOrSingle(item: Item, s: seq<byte>)
    requires Fits(item, s)
    ensures item.Frame? || (|item.Bytes()| == 1 && !ValidFrame(s))
  {
  }

  lemma {:induction false} TooShortForAFrame(s: seq<byte>)
    requires |s| < 6
    ensures Payloads(Scan(s).items) == []
    decreases |s|
  {
    hide Payloads, First, Pending;
    if Pending(s) {
      CountNone();
    } else {
      var item := First(s);
      ShortItem(s);
      TooShortForAFrame(s[|item.Bytes()|..]);
      PayloadsAppend([item], Scan(s[|item.Bytes()|..]).items);
      CountOne([], item);
      CountNone();
      assert [] + [item] == [item];
    }
  }

  lemma ShortItem(s: seq<byte>)
    requires |s| < 6 && !Pending(s)
    ensures Delivered(First(s)) == []
  {
  }

  // ---------- round trip ----------

  /** A frame as RTCM 3 transmits it; the six bits after the preamble are reserved. */
  function EncodeFrame(reserved: seq<bool>, payload: seq<byte>): (f: seq<byte>)
    requires |reserved| == 6 && |payload| <= 1023
    ensures |f| == |payload| + 6
  {
    var body := Header(reserved, |payload|) + payload;
    body + PackBytes(Crc(body))
  }

  function Header(reserved: seq<bool>, n: nat): (h: seq<byte>)
    requires |reserved| == 6
    ensures |h| == 3
  {
    var len := ToBits(n, 10);
    [0xD3, PackByte(reserved + len[..2]), PackByte(len[2..])]
  }

  lemma LengthIsValue(b1: byte, b2: byte)
    ensures LengthOf(b1, b2) == Value(BitsOfByte(b1)[6..] + BitsOfByte(b2))
  {
    var x, y := BitsOfByte(b1), BitsOfByte(b2);
    var t := x[6..] + y;
    LengthIsSum(b1, b2);
    hide LengthOf, BitsOfByte, BitOfByte;
    ValueOfTen(t);
  }

  lemma LengthIsSum(b1: byte, b2: byte)
    ensures var x, y := BitsOfByte(b1), BitsOfByte(b2);
      LengthOf(b1, b2) == 512 * One(x[6]) + 256 * One(x[7])
        + 128 * One(y[0]) + 64 * One(y[1]) + 32 * One(y[2]) + 16 * One(y[3])
        + 8 * One(y[4]) + 4 * One(y[5]) + 2 * One(y[6]) + One(y[7])
  {
  }

  /** Five bits from position k on, as a number. */
  function Five(t: seq<bool>, k: nat): int
    requires k + 5 <= |t|
  {
    16 * One(t[k]) + 8 * One(t[k + 1]) + 4 * One(t[k + 2]) + 2 * One(t[k + 3]) + One(t[k + 4])
  }

  lemma ValueOfTen(t: seq<bool>)
    requires |t| == 10
    ensures Value(t) == 32 * Five(t, 0) + Five(t, 5)
  {
    hide Value, One, Five;
    EmptyValue(t[..0]);
    FiveMore(t, 0);
    FiveMore(t, 5);
    assert t[..10] == t;
  }

  lemma FiveMore(t: seq<bool>, k: nat)
    requires k + 5 <= |t|
    ensures Value(t[..k + 5]) == 32 * Value(t[..k]) + Five(t, k)
  {
    hide Value, One;
    ValueOfPrefix(t, k);
    ValueOfPrefix(t, k + 1);
    ValueOfPrefix(t, k + 2);
    ValueOfPrefix(t, k + 3);
    ValueOfPrefix(t, k + 4);
  }

  lemma EncodedFrameIsValid(reserved: seq<bool>, payload: seq<byte>)
    requires |reserved| == 6 && |payload| <= 1023
    ensures var f := EncodeFrame(reserved, payload);
      ValidFrame(f) && FrameLength(f) == |f| && PayloadOf(f) == payload
  {
    hide Header, LengthOf, Crc, BitsOf, PackBytes;
    var f := EncodeFrame(reserved, payload);
    var h := Header(reserved, |payload|);
    HeaderLength(reserved, |payload|);
    var crc := Crc(h + payload);
    BitsOfPackBytes(crc);
    assert |PackBytes(crc)| == 3;
    assert BitsOf(PackBytes(crc)) == crc;
    assert f[|f| - 3..] == PackBytes(crc) && f[..|f| - 3] == h + payload && f[..|f|] == f;
    assert (h + payload)[3..] == payload;
  }

  lemma HeaderLength(reserved: seq<bool>, n: nat)
    requires |reserved| == 6 && n <= 1023
    ensures var h := Header(reserved, n); IsPreamble(h[0]) && LengthOf(h[1], h[2]) == n
  {
    var h := Header(reserved, n);
    assert IsPreamble(h[0]);
    var len := ToBits(n, 10);
    hide ToBits, PackByte, BitsOfByte, Value, LengthOf, IsPreamble;
    BitsOfPackByte(reserved + len[..2]);
    BitsOfPackByte(len[2..]);
    LengthIsValue(h[1], h[2]);
    assert BitsOfByte(h[1])[6..] + BitsOfByte(h[2]) == len;
    assert Pow2(10) == 1024;
    ValueOfToBits(n, 10);
  }

  datatype Segment = Filler(bytes: seq<byte>) | Sent(reserved: seq<bool>, payload: seq<byte>)

  predicate Sendable(g: Segment) {
    match g
    case Filler(bytes) => forall b :: b in bytes ==> !IsPreamble(b)
    case Sent(reserved, payload) => |reserved| == 6 && |payload| <= 1023
  }

  function SegmentBytes(g: Segment): seq<byte>
    requires Sendable(g)
  {
    match g
    case Filler(bytes) => bytes
    case Sent(reserved, payload) => EncodeFrame(reserved, payload)
  }

  function Transmit(gs: seq<Segment>): seq<byte>
    requires forall g :: g in gs ==> Sendable(g)
  {
    if gs == [] then []
    else
      assert gs[0] in gs;
      SegmentBytes(gs[0]) + Transmit(gs[1..])
  }

  function SentPayloads(gs: seq<Segment>): seq<seq<byte>> {
    if gs == [] then [] else (if gs[0].Sent? then [gs[0].payload] else []) + SentPayloads(gs[1..])
  }

  /** What a scan hands on, adds to the error count and leaves over. */
  predicate Yields(s: seq<byte>, payloads: seq<seq<byte>>) {
    var p := Scan(s);
    Payloads(p.items) == payloads && BadCount(p.items) == 0 && p.rest == []
  }

  lemma {:induction false} FillerIsSkipped(filler: seq<byte>, s: seq<byte>, payloads: seq<seq<byte>>)
    requires Sendable(Filler(filler)) && Yields(s, payloads)
    ensures Yields(filler + s, payloads)
  {
    hide Scan, Payloads, BadCount, IsPreamble;
    if filler == [] {
      assert filler + s == s;
    } else {
      FillerIsSkipped(filler[1..], s, payloads);
      var all := filler + s;
      assert all[1..] == filler[1..] + s;
      assert filler[0] in filler;
      ScanFirst(all);
      PayloadsAppend([Noise(all[0])], Scan(all[1..]).items);
      CountOne([], Noise(all[0]));
      CountNone();
      assert [] + [Noise(all[0])] == [Noise(all[0])];
    }
  }

  lemma FrameIsDelivered(f: seq<byte>, s: seq<byte>, payloads: seq<seq<byte>>)
    requires ValidFrame(f) && FrameLength(f) == |f| && Yields(s, payloads)
    ensures Yields(f + s, [PayloadOf(f)] + payloads)
  {
    hide Scan, Payloads, BadCount, IsPreamble, LengthOf, ChecksumMatches;
    FirstIsStable(f, s);
    assert f[..|f|] == f && First(f) == Frame(f);
    ScanFirst(f + s);
    assert (f + s)[|f|..] == s;
    PayloadsAppend([Frame(f)], Scan(s).items);
    CountOne([], Frame(f));
    CountNone();
    assert [] + [Frame(f)] == [Frame(f)];
  }

  lemma {:induction false} TransmitYields(gs: seq<Segment>)
    requires forall g :: g in gs ==> Sendable(g)
    ensures Yields(Transmit(gs), SentPayloads(gs))
    decreases |gs|
  {
    hide EncodeFrame, ValidFrame, FrameLength, PayloadOf;
    if gs == [] {
      CountNone();
    } else {
      hide Yields;
      TransmitYields(gs[1..]);
      assert gs[0] in gs;
      match gs[0]
      case Filler(bytes) =>
        FillerIsSkipped(bytes, Transmit(gs[1..]), SentPayloads(gs[1..]));
        assert [] + SentPayloads(gs[1..]) == SentPayloads(gs[1..]);
      case Sent(r, p) =>
        EncodedFrameIsValid(r, p);
        FrameIsDelivered(EncodeFrame(r, p), Transmit(gs[1..]), SentPayloads(gs[1..]));
    }
  }

  /** Frames sent with any preamble-free filler between them arrive complete, in order and without
      a single checksum error, however the stream is cut up. */
  lemma FrameRoundTrip(gs: seq<Segment>, chunks: seq<seq<byte>>)
    requires forall g :: g in gs ==> Sendable(g)
    requires Concat(chunks) == Transmit(gs)
    ensures AdvanceAll(FRESH, chunks) == FramerState([], |SentPayloads(gs)|, 0, SentPayloads(gs))
  {
    hide Scan, Payloads, BadCount, Transmit;
    ChunkingIndependence(FRESH, chunks);
    TransmitYields(gs);
    assert [] + Transmit(gs) == Transmit(gs);
    assert [] + SentPayloads(gs) == SentPayloads(gs);
  }
}
