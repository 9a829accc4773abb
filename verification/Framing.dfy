/** RTCM 3 framing: the pure greedy scan, and the stream framer that refines it. */
module Framing {
  import opened Bits
  import opened Crc24q

  predicate IsPreamble(b: byte) {
    b == 0xD3
  }

  const MAX_BUFFER: nat := 1024 * 1024

  /** The ten length bits of a header, assembled as the framer does. */
  function PayloadLength(s: seq<byte>): (n: nat)
    requires |s| >= 3
    ensures n <= 1023
  {
    LengthOf(s[1], s[2])
  }

  function LengthOf(b1: byte, b2: byte): (n: nat)
    ensures n <= 1023
  {
    LengthBound(b1, b2);
    ((((b1 as bv16) & 0x03) << 8) | (b2 as bv16)) as nat
  }

  lemma LengthBound(b1: byte, b2: byte)
    ensures ((((b1 as bv16) & 0x03) << 8) | (b2 as bv16)) as nat <= 1023
  {
  }

  function FrameLength(s: seq<byte>): (n: nat)
    requires |s| >= 3
    ensures 6 <= n <= 1029
  {
    3 + PayloadLength(s) + 3
  }

  /** s starts with a whole frame as far as preamble and length tell. */
  predicate Candidate(s: seq<byte>) {
    |s| >= 3 && IsPreamble(s[0]) && |s| >= FrameLength(s)
  }

  /** The three stored bytes are the checksum of everything before them. */
  predicate ChecksumMatches(frame: seq<byte>)
    requires |frame| >= 3
  {
    BitsOf(frame[|frame| - 3..]) == Crc(frame[..|frame| - 3])
  }

  predicate ValidFrame(s: seq<byte>) {
    Candidate(s) && ChecksumMatches(s[..FrameLength(s)])
  }

  /** Nothing to decide yet: empty, or a preamble whose frame is still incomplete. */
  predicate Pending(s: seq<byte>) {
    s == [] || (IsPreamble(s[0]) && (|s| < 3 || |s| < FrameLength(s)))
  }

  /** What one scan position turns out to be. */
  datatype Item =
    | Noise(value: byte)
    | BadCrc(value: byte)
    | Frame(bytes: seq<byte>)
  {
    function Bytes(): seq<byte> {
      match this
      case Noise(b) => [b]
      case BadCrc(b) => [b]
      case Frame(bytes) => bytes
    }
  }

  datatype Parsed = Parsed(items: seq<Item>, rest: seq<byte>)

  function First(s: seq<byte>): (item: Item)
    requires !Pending(s)
    ensures 1 <= |item.Bytes()| <= |s|
    ensures item.Bytes() == s[..|item.Bytes()|]
  {
    if !IsPreamble(s[0]) then Noise(s[0])
    else if ChecksumMatches(s[..FrameLength(s)]) then Frame(s[..FrameLength(s)])
    else BadCrc(s[0])
  }

  /** The greedy scan of a whole byte string. */
  function Scan(s: seq<byte>): (p: Parsed)
    decreases |s|
  {
    if Pending(s) then Parsed([], s)
    else
      var item := First(s);
      Prepend([item], Scan(s[|item.Bytes()|..]))
  }

  function Prepend(items: seq<Item>, p: Parsed): Parsed {
    Parsed(items + p.items, p.rest)
  }

  function PayloadOf(frame: seq<byte>): seq<byte>
    requires |frame| >= 6
  {
    frame[3..|frame| - 3]
  }

  /** What an item hands to the decoder, and what it adds to the bad-checksum count. */
  function Delivered(item: Item): seq<seq<byte>> {
    if item.Frame? && |item.bytes| >= 6 then [PayloadOf(item.bytes)] else []
  }

  function Bad(item: Item): nat {
    if item.BadCrc? then 1 else 0
  }

  /** Frame payloads, in order. */
  function Payloads(items: seq<Item>): seq<seq<byte>> {
    if items == [] then [] else Payloads(items[..|items| - 1]) + Delivered(items[|items| - 1])
  }

  function BadCount(items: seq<Item>): nat {
    if items == [] then 0 else BadCount(items[..|items| - 1]) + Bad(items[|items| - 1])
  }

  lemma CountNone()
    ensures Payloads([]) == [] && BadCount([]) == 0
  {
  }

  lemma CountOne(items: seq<Item>, item: Item)
    ensures Payloads(items + [item]) == Payloads(items) + Delivered(item)
    ensures BadCount(items + [item]) == BadCount(items) + Bad(item)
  {
    assert (items + [item])[..|items|] == items;
  }

  lemma {:induction false} PayloadsAppend(a: seq<Item>, b: seq<Item>)
    ensures Payloads(a + b) == Payloads(a) + Payloads(b)
    ensures BadCount(a + b) == BadCount(a) + BadCount(b)
  {
    hide Payloads, BadCount, Delivered, Bad;
    if b == [] {
      CountNone();
      assert a + b == a;
    } else {
      var b', item := b[..|b| - 1], b[|b| - 1];
      assert b == b' + [item];
      PayloadsAppend(a, b');
      CountOne(a + b', item);
      CountOne(b', item);
      assert a + b == a + b' + [item];
    }
  }

  lemma PrependTwice(a: seq<Item>, b: seq<Item>, p: Parsed)
    ensures Prepend(a, Prepend(b, p)) == Prepend(a + b, p)
  {
    assert a + (b + p.items) == a + b + p.items;
  }

  // ---------- the framer ----------

  /** Everything a framer has done and still holds. */
  datatype FramerState = FramerState(buf: seq<byte>, framesOk: nat, framesBadCrc: nat, decoded: seq<seq<byte>>)

  const FRESH := FramerState([], 0, 0, [])

  function Advance(st: FramerState, data: seq<byte>): FramerState {
    var p := Scan(st.buf + data);
    FramerState(p.rest,
                st.framesOk + |Payloads(p.items)|,
                st.framesBadCrc + BadCount(p.items),
                st.decoded + Payloads(p.items))
  }

  /** std::vector erase keeping the last n elements, for n below the size. */
  function LastBytes(s: seq<byte>, n: nat): seq<byte> {
    if |s| > n then s[|s| - n..] else s
  }

  /** Compares the stored with the computed checksum of the candidate p starts with. */
  method CheckCrc(p: seq<byte>) returns (ok: bool)
    requires Candidate(p)
    ensures ok <==> ValidFrame(p)
  {
    hide LengthOf, IsPreamble, Stored, RegisterBits, Crc, BitsOf;
    var n := LengthOf(p[1], p[2]);
    var gotCrc := Stored(p[3 + n], p[3 + n + 1], p[3 + n + 2]);
    var calcCrc := Compute(p[..3 + n]);
    ComparisonOfBits(calcCrc, p[..3 + n], p[3 + n], p[3 + n + 1], p[3 + n + 2]);
    FrameSlices(p);
    ok := gotCrc == calcCrc;
  }

  class RtcmStreamFramer {
    var buf: seq<byte>
    var framesOk: nat
    var framesBadCrc: nat
    var decoded: seq<seq<byte>>  // the payloads handed to the decoder, oldest first

    ghost predicate Valid()
      reads this
    {
      Pending(buf)
    }

    ghost function View(): FramerState
      reads this
    {
      FramerState(buf, framesOk, framesBadCrc, decoded)
    }

    constructor ()
      ensures Valid() && View() == FRESH
    {
      buf, framesOk, framesBadCrc, decoded := [], 0, 0, [];
    }

    method Push(data: seq<byte>)
      requires Valid()
      modifies this
      ensures Valid() && View() == Advance(old(View()), data)
      ensures |buf| <= 1028
    {
      hide Scan, Payloads, BadCount, LengthOf;
      if |data| == 0 {
        AdvanceByNothing(View());
        assert buf + data == buf;
        return;
      }
      buf := buf + data;
      var i := ScanBuffer();
      PendingIsShort(buf[i..]);
      buf := buf[i..];
      buf := LastBytes(buf, MAX_BUFFER);
    }

    /** The scan loop: decodes and counts, and returns where the undecided rest begins. */
    method ScanBuffer() returns (i: nat)
      modifies this`framesOk, this`framesBadCrc, this`decoded
      ensures i <= |buf| && buf[i..] == Scan(buf).rest && Pending(buf[i..])
      ensures View() == Progress(old(View()), buf, Scan(buf).items)
    {
      hide Scan, Payloads, BadCount, LengthOf, IsPreamble, Reached, ValidFrame;
      ghost var start := old(View());
      ghost var items: seq<Item> := [];
      StartScan(start, buf);
      i := 0;
      while true
        invariant i <= |buf| && Reached(buf, i, items)
        invariant View() == Progress(start, buf, items)
        decreases |buf| - i
      {
        while i < |buf| && !IsPreamble(buf[i])
          invariant i <= |buf| && Reached(buf, i, items)
          invariant View() == Progress(start, buf, items)
        {
          ghost var item := PassNoise(start, buf, i, items);
          items := items + [item];
          i := i + 1;
        }
        if i + 3 > |buf| {
          break;
        }
        var p := buf[i..];
        var payloadLen := LengthOf(p[1], p[2]);
        var frameLen := 3 + payloadLen + 3;
        if i + frameLen > |buf| {
          break;
        }
        ghost var item := PassCandidate(start, buf, i, items);
        items := items + [item];
        var crcOk := CheckCrc(p);
        if crcOk {
          framesOk := framesOk + 1;
          decoded := decoded + [p[3..3 + payloadLen]];
          i := i + frameLen;
        } else {
          framesBadCrc := framesBadCrc + 1;
          i := i + 1;
        }
      }
      FinishScan(buf, i, items);
    }
  }

  // ---------- one turn of the framer's loop ----------

  /** The first i bytes have been scanned into items. */
  ghost predicate Reached(all: seq<byte>, i: nat, items: seq<Item>) {
    i <= |all| && Scan(all) == Prepend(items, Scan(all[i..]))
  }

  function Progress(start: FramerState, all: seq<byte>, items: seq<Item>): FramerState {
    FramerState(all,
                start.framesOk + |Payloads(items)|,
                start.framesBadCrc + BadCount(items),
                start.decoded + Payloads(items))
  }

  lemma AdvanceByNothing(st: FramerState)
    requires Pending(st.buf)
    ensures Advance(st, []) == st && |st.buf| <= 1028
  {
    assert st.buf + [] == st.buf;
    PendingIsShort(st.buf);
  }

  lemma StartScan(start: FramerState, all: seq<byte>)
    ensures Reached(all, 0, []) && Progress(start, all, []) == start.(buf := all)
  {
    assert all[0..] == all;
    var p := Scan(all);
    assert [] + p.items == p.items;
  }

  lemma ScanPending(s: seq<byte>)
    requires Pending(s)
    ensures Scan(s) == Parsed([], s)
  {
  }

  lemma ScanFirst(s: seq<byte>)
    requires !Pending(s)
    ensures Scan(s) == Prepend([First(s)], Scan(s[|First(s).Bytes()|..]))
  {
  }

  lemma Pass(start: FramerState, all: seq<byte>, i: nat, items: seq<Item>)
    requires Reached(all, i, items) && !Pending(all[i..])
    ensures var item := First(all[i..]);
      && Reached(all, i + |item.Bytes()|, items + [item])
      && Payloads(items + [item]) == Payloads(items) + Delivered(item)
      && BadCount(items + [item]) == BadCount(items) + Bad(item)
  {
    hide Payloads, BadCount, First, Pending, Delivered, Bad, Scan, Prepend;
    var s := all[i..];
    ScanFirst(s);
    var item := First(s);
    var n := |item.Bytes()|;
    CountOne(items, item);
    assert s[n..] == all[i + n..];
    PrependTwice(items, [item], Scan(all[i + n..]));
  }

  lemma PassNoise(start: FramerState, all: seq<byte>, i: nat, items: seq<Item>) returns (item: Item)
    requires Reached(all, i, items) && i < |all| && !IsPreamble(all[i])
    ensures Reached(all, i + 1, items + [item])
    ensures Progress(start, all, items + [item]) == Progress(start, all, items)
  {
    hide Payloads, BadCount, Reached;
    item := First(all[i..]);
    Pass(start, all, i, items);
  }

  lemma PassCandidate(start: FramerState, all: seq<byte>, i: nat, items: seq<Item>) returns (item: Item)
    requires Reached(all, i, items) && i <= |all| && Candidate(all[i..])
    ensures var p := all[i..]; var n := PayloadLength(p); var before := Progress(start, all, items);
      if ValidFrame(p) then
        && Reached(all, i + 3 + n + 3, items + [item])
        && Progress(start, all, items + [item])
           == before.(framesOk := before.framesOk + 1, decoded := before.decoded + [p[3..3 + n]])
      else
        && Reached(all, i + 1, items + [item])
        && Progress(start, all, items + [item]) == before.(framesBadCrc := before.framesBadCrc + 1)
  {
    hide Crc, LengthOf, BitsOf, Payloads, BadCount, Reached, IsPreamble;
    var p := all[i..];
    FrameSlices(p);
    item := First(p);
    assert if ValidFrame(p) then item == Frame(p[..FrameLength(p)]) else item == BadCrc(p[0]);
    hide First;
    Pass(start, all, i, items);
  }

  lemma FinishScan(all: seq<byte>, i: nat, items: seq<Item>)
    requires Reached(all, i, items) && i <= |all| && Pending(all[i..])
    ensures Scan(all) == Parsed(items, all[i..])
  {
    assert items + [] == items;
  }

  /** A pending buffer is shorter than one frame, so the buffer cap never cuts anything. */
  lemma PendingIsShort(s: seq<byte>)
    requires Pending(s)
    ensures |s| <= 1028 && LastBytes(s, MAX_BUFFER) == s
  {
  }

  lemma FrameSlices(p: seq<byte>)
    requires Candidate(p)
    ensures var n := PayloadLength(p); var f := p[..FrameLength(p)];
      && f[|f| - 3..] == [p[3 + n], p[3 + n + 1], p[3 + n + 2]]
      && f[..|f| - 3] == p[..3 + n]
      && PayloadOf(f) == p[3..3 + n]
  {
  }
}
