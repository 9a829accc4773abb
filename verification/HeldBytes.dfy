/** When bytes held back by a framer change what it delivers later: exactly when one of them may still turn out
    to begin a frame. */
module HeldBytes {
  import opened Bits
  import opened Crc24q
  import opened Framing
  import opened FramingLaws

  /** The bytes of the stored checksum that q holds already, if it holds more than a header and a payload. */
  function StoredSoFar(q: seq<byte>): seq<byte>
    requires |q| >= 3 && |q| > 3 + PayloadLength(q)
  {
    var n := PayloadLength(q);
    if |q| < n + 6 then q[3 + n..] else q[3 + n..6 + n]
  }

  /** q begins with what may still become, or already is, a valid frame: a preamble, and as far as they have
      come the right checksum bytes. */
  predicate Opens(q: seq<byte>) {
    && q != [] && IsPreamble(q[0])
    && (|q| < 3 || |q| <= 3 + PayloadLength(q) || StoredSoFar(q) <= PackBytes(Crc(q[..3 + PayloadLength(q)])))
  }

  /** No byte held may still begin a frame. */
  predicate NoneOpens(p: seq<byte>) {
    forall i :: 0 <= i < |p| ==> !Opens(p[i..])
  }

  /** A checksum is right exactly when its bytes are the packed remainder. */
  lemma ChecksumIsPacked(data: seq<byte>, stored: seq<byte>)
    requires |stored| == 3
    ensures BitsOf(stored) == Crc(data) <==> stored == PackBytes(Crc(data))
  {
    hide BitsOf, PackBytes, Crc;
    PackBytesOfBits(stored);
    BitsOfPackBytes(Crc(data));
    assert BitsOf(PackBytes(Crc(data)))[..24] == BitsOf(PackBytes(Crc(data)));
  }

  // ---------- a position that does not open is passed ----------

  lemma SameLength(p: seq<byte>, body: seq<byte>)
    requires |p| >= 3
    ensures PayloadLength(p + body) == PayloadLength(p)
  {
    hide LengthOf;
  }

  /** The complete candidate that p begins has a wrong checksum, whatever follows. */
  lemma ClosedIsInvalid(p: seq<byte>, body: seq<byte>)
    requires p != [] && IsPreamble(p[0]) && !Opens(p) && Candidate(p + body)
    ensures !ValidFrame(p + body)
  {
    hide Crc, BitsOf, PackBytes, LengthOf;
    SameLength(p, body);
    var n := PayloadLength(p);
    var frame := (p + body)[..n + 6];
    var data, stored := frame[..3 + n], frame[3 + n..];
    assert data == p[..3 + n];
    StoredBegins(p, body, n);
    ChecksumIsPacked(data, stored);
  }

  lemma StoredBegins(p: seq<byte>, body: seq<byte>, n: nat)
    requires 3 + n < |p| && |p + body| >= n + 6
    ensures var stored := (p + body)[..n + 6][3 + n..];
      if |p| < n + 6 then p[3 + n..] <= stored else p[3 + n..n + 6] == stored
  {
  }

  lemma ClosedStep(p: seq<byte>, body: seq<byte>)
    requires p != [] && !Opens(p)
    ensures Pending(p + body) ==> |body| < 2
    ensures !Pending(p + body) ==> |First(p + body).Bytes()| == 1 && Delivered(First(p + body)) == []
  {
    hide Crc, BitsOf, PackBytes, LengthOf, IsPreamble;
    var s := p + body;
    if IsPreamble(p[0]) {
      SameLength(p, body);
      if !Pending(s) { ClosedIsInvalid(p, body); }
    }
  }

  /** A scan past one such position. */
  lemma ScanPasses(p: seq<byte>, body: seq<byte>)
    requires p != [] && !Opens(p) && !Pending(p + body)
    ensures Payloads(Scan(p + body).items) == Payloads(Scan(p[1..] + body).items)
  {
    hide Scan, Payloads, First, Pending, Delivered, Opens;
    ClosedStep(p, body);
    var s := p + body;
    var item := First(s);
    ScanFirst(s);
    assert s[1..] == p[1..] + body;
    OneUndelivered(item, Scan(s[1..]).items);
  }

  lemma OneUndelivered(item: Item, items: seq<Item>)
    requires Delivered(item) == []
    ensures Payloads([item] + items) == Payloads(items)
  {
    hide Payloads, Delivered;
    PayloadsAppend([item], items);
    CountOne([], item);
    CountNone();
    assert [] + [item] == [item];
  }

  lemma LaterOnes(p: seq<byte>)
    requires p != []
    ensures NoneOpens(p) <==> !Opens(p) && NoneOpens(p[1..])
  {
    hide Opens;
    assert p[0..] == p;
    assert forall i :: 0 <= i < |p| - 1 ==> p[1..][i..] == p[i + 1..];
    if !Opens(p) && NoneOpens(p[1..]) {
      forall i | 0 <= i < |p| ensures !Opens(p[i..]) {
        if i > 0 { assert p[i..] == p[1..][i - 1..]; }
      }
    }
  }

  /** Where nothing opens, the leftover makes no difference to what is delivered. */
  lemma {:induction false} ClosedChangesNothing(p: seq<byte>, body: seq<byte>)
    requires NoneOpens(p)
    ensures Payloads(Scan(p + body).items) == Payloads(Scan(body).items)
    decreases |p|
  {
    hide Scan, Payloads, First, Pending, Opens, NoneOpens;
    if p == [] {
      assert p + body == body;
    } else {
      LaterOnes(p);
      if Pending(p + body) {
        ClosedStep(p, body);
        ScanPending(p + body);
        CountNone();
        TooShortForAFrame(body);
      } else {
        ScanPasses(p, body);
        ClosedChangesNothing(p[1..], body);
      }
    }
  }

  // ---------- a position that opens is completed ----------

  function ZeroBytes(n: nat): (z: seq<byte>)
    ensures |z| == n
  {
    seq(n, _ => 0)
  }

  /** Header and payload that q begins, filled up with zeros. */
  function Filled(q: seq<byte>): (d: seq<byte>)
    requires q != []
    ensures |d| >= 3 && |d| == 3 + PayloadLength(d)
  {
    var h := if |q| < 3 then q + ZeroBytes(3 - |q|) else q;
    var n := PayloadLength(h);
    SameStart(h, n);
    (h + ZeroBytes(n))[..3 + n]
  }

  lemma SameStart(h: seq<byte>, n: nat)
    requires |h| >= 3
    ensures PayloadLength((h + ZeroBytes(n))[..3 + n]) == PayloadLength(h)
  {
    hide LengthOf;
  }

  /** The frame q begins, finished with zeros and its checksum. */
  function Whole(q: seq<byte>): (frame: seq<byte>)
    requires q != []
    ensures |frame| >= 6
  {
    var d := Filled(q);
    d + PackBytes(Crc(d))
  }

  function Completion(q: seq<byte>): seq<byte>
    requires q != []
  {
    var frame := Whole(q);
    if |q| < |frame| then frame[|q|..] else []
  }

  /** Where q stands beside its filled header and payload: it is part of them, or goes on behind them. */
  lemma FilledAgrees(q: seq<byte>) returns (zeros: nat)
    requires q != []
    ensures var d := Filled(q);
      && (|q| < 3 || |q| <= 3 + PayloadLength(q) ==>
           |q| <= |d| && q == d[..|q|] && zeros == |d| - |q| && forall i :: |q| <= i < |d| ==> d[i] == 0)
      && (|q| >= 3 && |q| > 3 + PayloadLength(q) ==> d == q[..3 + PayloadLength(q)] && zeros == 0)
  {
    hide LengthOf;
    var d := Filled(q);
    zeros := if |q| <= |d| then |d| - |q| else 0;
  }

  /** Such bytes, followed by their completion, begin with that frame; the completion is zeros and at most
      three bytes. */
  lemma Completes(q: seq<byte>) returns (zeros: nat)
    requires Opens(q)
    ensures Whole(q) <= q + Completion(q)
    ensures zeros <= |Completion(q)| <= zeros + 3 && forall i :: 0 <= i < zeros ==> Completion(q)[i] == 0
  {
    hide LengthOf, Crc, PackBytes, Filled, IsPreamble;
    zeros := FilledAgrees(q);
    var d := Filled(q);
    var stored := PackBytes(Crc(d));
    if |q| < 3 || |q| <= 3 + PayloadLength(q) {
      assert Whole(q) == q + (d[|q|..] + stored);
      assert Completion(q) == d[|q|..] + stored;
    } else {
      assert q == d + q[|d|..];
      BehindThePayload(d, q[|d|..], stored);
    }
  }

  lemma BehindThePayload(d: seq<byte>, held: seq<byte>, stored: seq<byte>)
    requires |held| < |stored| ==> held <= stored
    requires |held| >= |stored| ==> stored <= held
    ensures |d + held| < |d + stored| ==> d + stored == d + held + (d + stored)[|d + held|..]
    ensures |d + held| >= |d + stored| ==> d + stored <= d + held
  {
    if |held| < |stored| { assert stored == held + stored[|held|..]; }
  }

  lemma WholeIsDelivered(q: seq<byte>, more: seq<byte>)
    requires q != [] && IsPreamble(q[0])
    ensures var s := Whole(q) + more; !Pending(s) && Delivered(First(s)) != []
  {
    hide LengthOf, Crc, PackBytes, BitsOf, IsPreamble;
    var d := Filled(q);
    var stored := PackBytes(Crc(d));
    var s := Whole(q) + more;
    assert s[0] == q[0] by { var zeros := FilledAgrees(q); }
    hide Filled;
    SameLength(d, stored + more);
    assert s == d + (stored + more);
    assert s[..FrameLength(s)] == d + stored;
    assert (d + stored)[|d|..] == stored && (d + stored)[..|d|] == d;
    ChecksumIsPacked(d, stored);
  }

  lemma {:induction false} ZerosThenFew(s: seq<byte>, zeros: nat)
    requires zeros <= |s| < zeros + 6 && forall i :: 0 <= i < zeros ==> s[i] == 0
    ensures Payloads(Scan(s).items) == []
    decreases zeros
  {
    hide Scan, Payloads;
    if zeros == 0 {
      TooShortForAFrame(s);
    } else {
      ZerosThenFew(s[1..], zeros - 1);
      ScanFirst(s);
      OneUndelivered(Noise(s[0]), Scan(s[1..]).items);
    }
  }

  /** Where something opens, some continuation that delivers nothing on its own completes a frame. */
  lemma {:induction false} OpenChangesSomething(p: seq<byte>) returns (body: seq<byte>)
    requires !NoneOpens(p)
    ensures |body| >= 2 && Payloads(Scan(body).items) == [] && Payloads(Scan(p + body).items) != []
    decreases |p|
  {
    hide Scan, Payloads, First, Pending, Opens, NoneOpens, Completion, Whole, Delivered;
    if p != [] && Opens(p) {
      body := Completion(p) + [0, 0];
      var zeros := Completes(p);
      ZerosThenFew(body, zeros);
      CompletedIsDelivered(p, [0, 0]);
      assert p + body == p + Completion(p) + [0, 0];
    } else {
      NothingOpens();
      LaterOnes(p);
      body := OpenChangesSomething(p[1..]);
      ClosedStep(p, body);
      ScanPasses(p, body);
    }
  }

  lemma NothingOpens()
    ensures NoneOpens([])
  {
  }

  lemma CompletedIsDelivered(q: seq<byte>, more: seq<byte>)
    requires q != [] && Opens(q)
    ensures Payloads(Scan(q + Completion(q) + more).items) != []
  {
    hide Scan, Payloads, First, Pending, Completion, Whole, Delivered;
    var s := q + Completion(q) + more;
    var zeros := Completes(q);
    var behind := (q + Completion(q))[|Whole(q)|..] + more;
    assert s == Whole(q) + behind;
    WholeIsDelivered(q, behind);
    ScanFirst(s);
    var item := First(s);
    PayloadsAppend([item], Scan(s[|item.Bytes()|..]).items);
    CountOne([], item);
    assert [] + [item] == [item];
  }

  // ---------- exactly when a leftover matters ----------

  lemma DeliversTheSame(f: FramerState, body: seq<byte>)
    ensures Advance(f, body).decoded == f.decoded + Advance(FRESH, body).decoded
      <==> Payloads(Scan(f.buf + body).items) == Payloads(Scan(body).items)
  {
    hide Scan, Payloads, BadCount;
    assert FRESH.buf + body == body && [] + Payloads(Scan(body).items) == Payloads(Scan(body).items);
    var a, b := Payloads(Scan(f.buf + body).items), Payloads(Scan(body).items);
    assert (f.decoded + a)[|f.decoded|..] == a && (f.decoded + b)[|f.decoded|..] == b;
  }

  /** A framer holding some bytes delivers, for every continuation, what one holding none would deliver for
      it, exactly when no byte held may still begin a frame. */
  lemma LeftoverMattersExactly(f: FramerState)
    ensures (forall body :: Advance(f, body).decoded == f.decoded + Advance(FRESH, body).decoded)
      <==> NoneOpens(f.buf)
  {
    hide Advance, NoneOpens, Scan, Payloads;
    if NoneOpens(f.buf) {
      forall body ensures Advance(f, body).decoded == f.decoded + Advance(FRESH, body).decoded {
        DeliversTheSame(f, body);
        ClosedChangesNothing(f.buf, body);
      }
    } else {
      var body := OpenChangesSomething(f.buf);
      DeliversTheSame(f, body);
    }
  }

  /** What is held and delivered later is as for a fresh framer only if nothing is held. */
  lemma OnlyEmptyIsFresh(f: FramerState)
    requires Pending(f.buf)
    ensures (forall body :: Advance(f, body).buf == Advance(FRESH, body).buf
               && Advance(f, body).decoded == f.decoded + Advance(FRESH, body).decoded)
      <==> f.buf == []
  {
    hide Advance, NoneOpens, Pending, Scan, Payloads;
    if f.buf == [] {
      forall body ensures Advance(f, body).buf == Advance(FRESH, body).buf
          && Advance(f, body).decoded == f.decoded + Advance(FRESH, body).decoded {
        assert f.buf + body == body;
        DeliversTheSame(f, body);
        HeldAfter(f, body);
      }
    } else {
      HeldAfterNothing(f);
      NothingIsPending();
      HeldAfterNothing(FRESH);
      assert Advance(f, []).buf != Advance(FRESH, []).buf;
    }
  }

  lemma HeldAfter(f: FramerState, body: seq<byte>)
    requires f.buf == []
    ensures Advance(f, body).buf == Advance(FRESH, body).buf
  {
  }

  lemma NothingIsPending()
    ensures Pending(FRESH.buf)
  {
  }

  lemma HeldAfterNothing(f: FramerState)
    requires Pending(f.buf)
    ensures Advance(f, []).buf == f.buf
  {
    hide Pending;
    AdvanceByNothing(f);
  }
}
