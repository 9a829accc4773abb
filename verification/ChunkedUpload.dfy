/** Uploading in chunked transfer coding, against section 7.1 of RFC 9112. */
module ChunkedUpload {
  import opened Bits
  import opened Search

  // ---------- the sender ----------

  function HexDigit(d: nat): (c: byte)
    requires d < 16
  {
    match d
    case 0 => 0x30 case 1 => 0x31 case 2 => 0x32 case 3 => 0x33
    case 4 => 0x34 case 5 => 0x35 case 6 => 0x36 case 7 => 0x37
    case 8 => 0x38 case 9 => 0x39 case 10 => 0x61 case 11 => 0x62
    case 12 => 0x63 case 13 => 0x64 case 14 => 0x65 case _ => 0x66
  }

  /** Lower-case hexadecimal without leading zeros, as an output stream prints it. */
  function Hex(n: nat): (t: seq<byte>)
    ensures t != []
  {
    if n < 16 then [HexDigit(n)] else Hex(n / 16) + [HexDigit(n % 16)]
  }

  function EncodeChunk(data: seq<byte>): seq<byte> {
    Hex(|data|) + CRLF + data + CRLF
  }

  function Stream(payloads: seq<seq<byte>>): seq<byte> {
    if payloads == [] then [] else EncodeChunk(payloads[0]) + Stream(payloads[1..])
  }

  // ---------- a receiver, as the standard describes one ----------

  /** The value of a hexadecimal digit of either case. */
  function DigitValue(c: byte): Option<nat> {
    if 0x30 <= c <= 0x39 then Some((c - 0x30) as nat)
    else if 0x61 <= c <= 0x66 then Some((c - 0x61) as nat + 10)
    else if 0x41 <= c <= 0x46 then Some((c - 0x41) as nat + 10)
    else None
  }

  /** The value of a non-empty string of hexadecimal digits. */
  function SizeOf(t: seq<byte>): Option<nat> {
    if t == [] then None else
    var low := DigitValue(t[|t| - 1]);
    if low.None? then None
    else if |t| == 1 then low
    else
      var high := SizeOf(t[..|t| - 1]);
      if high.None? then None else Some(16 * high.value + low.value)
  }

  /** The chunk size; a chunk extension, which starts with a semicolon, is ignored. */
  function ChunkSize(line: seq<byte>): Option<nat> {
    match Find(line, [0x3B])
    case None => SizeOf(line)
    case Some(i) => SizeOf(line[..i])
  }

  datatype Step =
    | Data(payload: seq<byte>, rest: seq<byte>)
    | LastChunk(rest: seq<byte>)
    | NeedMore
    | Malformed

  function ParseChunk(s: seq<byte>): (r: Step)
    ensures r.Data? ==> |r.rest| < |s|
  {
    match Find(s, CRLF)
    case None => NeedMore
    case Some(i) =>
      FoundWithin(s, CRLF);
      match ChunkSize(s[..i])
      case None => Malformed
      case Some(n) =>
        if n == 0 then LastChunk(s[i + 2..])
        else if |s| < i + n + 4 then NeedMore
        else if s[i + 2 + n..i + 4 + n] != CRLF then Malformed
        else Data(s[i + 2..i + 2 + n], s[i + 4 + n..])
  }

  datatype Outcome = Open(pending: seq<byte>) | Ended(rest: seq<byte>) | Broken

  datatype Received = Received(payloads: seq<seq<byte>>, outcome: Outcome)

  /** All chunks that can be taken off a byte stream. */
  function Receive(s: seq<byte>): Received
    decreases |s|
  {
    match ParseChunk(s)
    case NeedMore => Received([], Open(s))
    case Malformed => Received([], Broken)
    case LastChunk(rest) => Received([], Ended(rest))
    case Data(payload, rest) =>
      var r := Receive(rest);
      Received([payload] + r.payloads, r.outcome)
  }

  // ---------- one chunk ----------

  lemma DigitRoundTrip(d: nat)
    requires d < 16
    ensures DigitValue(HexDigit(d)) == Some(d)
  {
  }

  /** The sixteen digits, as characters. */
  lemma DigitsByText(d: nat)
    requires d < 16
    ensures HexDigit(d) as int == "0123456789abcdef"[d] as int
  {
  }

  lemma {:induction false} NoLeadingZero(n: nat)
    requires n > 0
    ensures Hex(n)[0] as int != '0' as int
  {
    if n >= 16 { NoLeadingZero(n / 16); }
  }

  lemma {:induction false} HexRoundTrip(n: nat)
    ensures SizeOf(Hex(n)) == Some(n)
  {
    hide HexDigit, DigitValue;
    DigitRoundTrip(n % 16);
    if n >= 16 {
      HexRoundTrip(n / 16);
      assert Hex(n)[..|Hex(n)| - 1] == Hex(n / 16);
    }
  }

  lemma {:induction false} HexHasOnlyDigits(n: nat)
    ensures forall k :: 0 <= k < |Hex(n)| ==> DigitValue(Hex(n)[k]).Some?
  {
    hide HexDigit, DigitValue;
    DigitRoundTrip(n % 16);
    if n >= 16 {
      HexHasOnlyDigits(n / 16);
    }
  }

  lemma DigitsAreNoSeparators()
    ensures DigitValue(0x0D).None? && DigitValue(0x0A).None? && DigitValue(0x3B).None?
  {
  }

  /** In front of a size line's end there is no other line end, and no extension. */
  lemma SizeLine(n: nat, rest: seq<byte>)
    ensures Find(Hex(n) + CRLF + rest, CRLF) == Some(|Hex(n)|)
    ensures ChunkSize(Hex(n)) == Some(n)
  {
    hide Hex, DigitValue, SizeOf, FindFrom;
    HexHasOnlyDigits(n);
    DigitsAreNoSeparators();
    NoExtension(n);
    FoundBehind(Hex(n), rest);
  }

  lemma NoExtension(n: nat)
    ensures ChunkSize(Hex(n)) == Some(n)
  {
    hide Hex, DigitValue, SizeOf, FindFrom;
    HexHasOnlyDigits(n);
    HexRoundTrip(n);
    DigitsAreNoSeparators();
    OccurrencesStart(Hex(n), [0x3B]);
  }

  lemma FoundBehind(t: seq<byte>, rest: seq<byte>)
    requires forall k :: 0 <= k < |t| ==> t[k] != 0x0D
    ensures Find(t + CRLF + rest, CRLF) == Some(|t|)
  {
    hide FindFrom;
    var s := t + CRLF + rest;
    OccurrencesStart(s, CRLF);
    assert forall j :: 0 <= j < |t| ==> s[j] == t[j];
    assert s[|t|..|t| + 2] == CRLF;
    FoundFirst(s, CRLF, |t|, 0);
  }

  lemma ParseAfterSizeLine(h: seq<byte>, s: seq<byte>, data: seq<byte>, rest: seq<byte>)
    requires data != [] && s == h + CRLF + (data + CRLF + rest)
    requires Find(s, CRLF) == Some(|h|) && ChunkSize(h) == Some(|data|)
    ensures ParseChunk(s) == Data(data, rest)
  {
    hide Find, FindFrom, ChunkSize;
    var body := data + CRLF + rest;
    assert s[..|h|] == h;
    SliceAfter(h + CRLF, body, 0, |data|);
    SliceAfter(h + CRLF, body, |data|, |data| + 2);
    SliceAfter(h + CRLF, body, |data| + 2, |body|);
    assert body[..|data|] == data && body[|data|..|data| + 2] == CRLF && body[|data| + 2..] == rest;
  }

  lemma SliceAfter(a: seq<byte>, b: seq<byte>, i: nat, j: nat)
    requires i <= j <= |b|
    ensures (a + b)[|a| + i..|a| + j] == b[i..j]
  {
  }

  /** A chunk at the head of a stream gives its payload, whatever bytes the payload holds. */
  lemma ChunkParses(data: seq<byte>, rest: seq<byte>)
    requires data != []
    ensures ParseChunk(EncodeChunk(data) + rest) == Data(data, rest)
  {
    var h := Hex(|data|);
    SizeLine(|data|, data + CRLF + rest);
    hide Hex, Find, FindFrom, ChunkSize, ParseChunk;
    assert EncodeChunk(data) + rest == h + CRLF + (data + CRLF + rest);
    ParseAfterSizeLine(h, EncodeChunk(data) + rest, data, rest);
  }

  /** A chunk that has not arrived completely is neither an error nor the end. */
  lemma PartialChunkWaits(data: seq<byte>, k: nat)
    requires data != [] && k < |EncodeChunk(data)|
    ensures ParseChunk(EncodeChunk(data)[..k]) == NeedMore
  {
    hide Hex, Find, FindFrom, ChunkSize, OccursAt;
    var whole := EncodeChunk(data);
    var s := whole[..k];
    SizeLine(|data|, data + CRLF);
    assert whole == Hex(|data|) + CRLF + (data + CRLF);
    assert |whole| == |Hex(|data|)| + |data| + 4;
    if Find(s, CRLF).Some? { SizeLineWithin(whole, k, Hex(|data|)); }
  }

  lemma SizeLineWithin(whole: seq<byte>, k: nat, h: seq<byte>)
    requires k <= |whole| && Find(whole, CRLF) == Some(|h|) && h <= whole && Find(whole[..k], CRLF).Some?
    ensures Find(whole[..k], CRLF) == Some(|h|) && |h| + 2 <= k && whole[..k][..|h|] == h
  {
    hide Find, FindFrom, OccursAt;
    assert whole == whole[..k] + whole[k..];
    FindIsStable(whole[..k], whole[k..], CRLF);
    FoundWithin(whole[..k], CRLF);
  }

  // ---------- whole uploads ----------

  predicate NonEmptyPayloads(payloads: seq<seq<byte>>) {
    forall i :: 0 <= i < |payloads| ==> payloads[i] != []
  }

  lemma {:induction false} ReceiveAppend(payloads: seq<seq<byte>>, tail: seq<byte>)
    requires NonEmptyPayloads(payloads)
    ensures Receive(Stream(payloads) + tail) == Received(payloads + Receive(tail).payloads, Receive(tail).outcome)
    decreases |payloads|
  {
    hide ParseChunk, EncodeChunk;
    if payloads == [] {
      assert Stream(payloads) + tail == tail;
      assert payloads + Receive(tail).payloads == Receive(tail).payloads;
    } else {
      ReceiveAppend(payloads[1..], tail);
      ChunkParses(payloads[0], Stream(payloads[1..]) + tail);
      assert Stream(payloads) + tail == EncodeChunk(payloads[0]) + (Stream(payloads[1..]) + tail);
      assert payloads + Receive(tail).payloads == [payloads[0]] + (payloads[1..] + Receive(tail).payloads);
    }
  }

  /** An upload cut off inside any chunk delivers exactly the payloads before it, and keeps waiting:
      the sender never signals the end of the stream. */
  lemma UploadRoundTrip(payloads: seq<seq<byte>>, last: seq<byte>, k: nat)
    requires NonEmptyPayloads(payloads) && last != [] && k < |EncodeChunk(last)|
    ensures Receive(Stream(payloads) + EncodeChunk(last)[..k]) == Received(payloads, Open(EncodeChunk(last)[..k]))
  {
    hide ParseChunk, EncodeChunk, Stream;
    ReceiveAppend(payloads, EncodeChunk(last)[..k]);
    PartialChunkWaits(last, k);
    assert payloads + [] == payloads;
  }

  lemma {:induction false} StreamAppend(a: seq<seq<byte>>, b: seq<seq<byte>>)
    ensures Stream(a + b) == Stream(a) + Stream(b)
    decreases |a|
  {
    hide EncodeChunk;
    if a == [] {
      assert a + b == b;
    } else {
      StreamAppend(a[1..], b);
      assert a + b == [a[0]] + (a[1..] + b);
    }
  }

  lemma StreamOfOne(data: seq<byte>)
    ensures Stream([data]) == EncodeChunk(data)
  {
    hide EncodeChunk;
    assert [data][1..] == [];
  }

  /** Nothing sent so far: the receiver waits. */
  lemma EmptyWaits()
    ensures Receive([]) == Received([], Open([]))
  {
  }

  /** How a write ends: the source's two return values, or an exception from the socket. */
  datatype Status = Accepted | Rejected | Thrown

  /** Everything written to the caster over one connection, and what the receiver makes of it. */
  class ChunkedWriter {
    var sent: seq<byte>
    var broken: bool
    ghost var payloads: seq<seq<byte>>
    ghost var part: seq<byte>  // of the chunk that broke off

    ghost predicate Valid()
      reads this
    {
      && NonEmptyPayloads(payloads) && sent == Stream(payloads) + part && (!broken ==> part == [])
      && Receive(sent) == Received(payloads, Open(part))
    }

    constructor ()
      ensures Valid() && !broken && payloads == []
    {
      sent, broken, payloads, part := [], false, [], [];
    }

    /** Empty data is refused, so a chunk of size zero is never sent. The socket takes up to room bytes; if
        that is not the whole chunk, the connection is broken and the receiver waits for the rest. */
    method WriteSource(data: seq<byte>, room: nat) returns (status: Status)
      requires Valid() && !broken
      modifies this
      ensures Valid()
      ensures status == if data == [] then Rejected else if room >= |EncodeChunk(data)| then Accepted else Thrown
      ensures payloads == if status.Accepted? then old(payloads) + [data] else old(payloads)
      ensures status.Rejected? ==> sent == old(sent)
      ensures broken == status.Thrown? && part == if status.Thrown? then EncodeChunk(data)[..room] else []
    {
      hide Receive, EncodeChunk, Stream;
      if |data| == 0 {
        return Rejected;
      }
      var chunk := EncodeChunk(data);
      if room < |chunk| {
        UploadRoundTrip(payloads, data, room);
        sent := sent + chunk[..room];
        assert Stream(payloads) + [] + chunk[..room] == Stream(payloads) + chunk[..room];
        broken, part := true, chunk[..room];
        return Thrown;
      }
      StreamAppend(payloads, [data]);
      StreamOfOne(data);
      ReceiveAppend(payloads + [data], []);
      EmptyWaits();
      sent := sent + chunk;
      payloads := payloads + [data];
      assert sent == Stream(payloads) == Stream(payloads) + [] && payloads + [] == payloads;
      return Accepted;
    }
  }
}
