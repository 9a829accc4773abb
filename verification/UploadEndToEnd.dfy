/** What the caster receives over one connection of an upload session. */
module UploadEndToEnd {
  import opened Bits
  import opened StreamSession
  import opened ChunkedUpload

  /** The writes that went out on connection c. */
  function OnConnection(ws: seq<Write>, c: nat): seq<Write> {
    if ws == [] then []
    else
      var before := OnConnection(ws[..|ws| - 1], c);
      if ws[|ws| - 1].conn == c then before + [ws[|ws| - 1]] else before
  }

  /** The payloads are among those enqueued, each taken once, in the order they were enqueued. */
  predicate TakenInOrder(payloads: seq<Payload>, ids: seq<nat>, enqueued: seq<Payload>) {
    && |ids| == |payloads|
    && (forall i :: 0 <= i < |ids| ==> ids[i] < |enqueued| && payloads[i] == enqueued[ids[i]])
    && forall i, j :: 0 <= i < j < |ids| ==> ids[i] < ids[j]
  }

  function IdsOf(ws: seq<Write>): (ids: seq<nat>)
    ensures |ids| == |ws|
  {
    seq(|ws|, i requires 0 <= i < |ws| => ws[i].id)
  }

  /** A write after all the others, of a payload enqueued after theirs. */
  predicate IsLater(ws: seq<Write>, w: Write, enqueued: seq<Payload>, head: nat) {
    && w.id < head && w.id < |enqueued| && w.data == enqueued[w.id]
    && forall x :: x in ws ==> x.id < w.id && x.conn <= w.conn
  }

  lemma LastIsLater(ws: seq<Write>, enqueued: seq<Payload>, head: nat)
    requires ws != [] && InOrder(ws, enqueued, head)
    ensures InOrder(ws[..|ws| - 1], enqueued, head)
    ensures IsLater(ws[..|ws| - 1], ws[|ws| - 1], enqueued, head)
  {
  }

  lemma LaterKeepsOrder(ws: seq<Write>, w: Write, enqueued: seq<Payload>, head: nat)
    requires InOrder(ws, enqueued, head) && IsLater(ws, w, enqueued, head)
    ensures InOrder(ws + [w], enqueued, head)
  {
    assert forall i :: 0 <= i < |ws| ==> ws[i] in ws;
  }

  /** Picking some writes out keeps them in order. */
  lemma {:induction false} PickedInOrder(ws: seq<Write>, c: nat, enqueued: seq<Payload>, head: nat)
    requires InOrder(ws, enqueued, head)
    ensures InOrder(OnConnection(ws, c), enqueued, head)
    ensures forall x :: x in OnConnection(ws, c) ==> x in ws && x.conn == c
    decreases |ws|
  {
    hide InOrder;
    if ws == [] {
      NoneInOrder(enqueued, head);
    } else {
      var before, last := ws[..|ws| - 1], ws[|ws| - 1];
      LastIsLater(ws, enqueued, head);
      PickedInOrder(before, c, enqueued, head);
      assert forall x :: x in before ==> x in ws;
      if last.conn == c {
        LaterKeepsOrder(OnConnection(before, c), last, enqueued, head);
      }
    }
  }

  lemma NoneInOrder(enqueued: seq<Payload>, head: nat)
    ensures InOrder([], enqueued, head)
  {
  }

  lemma DatasInOrder(ws: seq<Write>, enqueued: seq<Payload>, head: nat)
    requires InOrder(ws, enqueued, head)
    ensures TakenInOrder(Datas(ws), IdsOf(ws), enqueued)
  {
  }

  lemma PickedAreNonEmpty(payloads: seq<Payload>, ids: seq<nat>, enqueued: seq<Payload>)
    requires TakenInOrder(payloads, ids, enqueued) && NoneEmpty(enqueued)
    ensures NonEmptyPayloads(payloads)
  {
  }

  // ---------- the bytes on the wires ----------

  /** The wire holds the chunks of the payloads and the first k bytes of the chunk of data, not all of them. */
  predicate IsCut(wire: seq<byte>, payloads: seq<Payload>, data: Payload, k: nat) {
    data != [] && k < |EncodeChunk(data)| && wire == Stream(payloads) + EncodeChunk(data)[..k]
  }

  ghost predicate Carries(wire: seq<byte>, payloads: seq<Payload>) {
    exists data: Payload, k: nat :: IsCut(wire, payloads, data, k)
  }

  function PayloadsOn(s: State, c: nat): seq<Payload> {
    Datas(OnConnection(s.written, c))
  }

  /** Everything that went out over connection c, counted from one. */
  function Wire(s: State, c: nat): seq<byte> {
    if 1 <= c <= |s.wires| then s.wires[c - 1] else []
  }

  /** Every connection ever made carries the chunks of what was written over it, and possibly the start of
      one more chunk; on the latest one it is the chunk being written. */
  ghost predicate Wired(s: State) {
    && |s.wires| == s.conn
    && (forall c: nat :: 1 <= c <= s.conn ==> Carries(Wire(s, c), PayloadsOn(s, c)))
    && (s.phase == Streaming ==> s.conn > 0 && Wire(s, s.conn) == Stream(PayloadsOn(s, s.conn)))
    && (s.phase.Writing? ==>
         s.conn > 0 && IsCut(Wire(s, s.conn), PayloadsOn(s, s.conn), s.phase.data, s.phase.sent))
  }

  lemma WholeChunksAreCarried(payloads: seq<Payload>)
    ensures Carries(Stream(payloads), payloads)
  {
    hide Stream, EncodeChunk;
    ChunkIsLong([0]);
    assert Stream(payloads) + EncodeChunk([0])[..0] == Stream(payloads);
    assert IsCut(Stream(payloads), payloads, [0], 0);
  }

  lemma ChunkIsLong(data: Payload)
    ensures |EncodeChunk(data)| > 0
  {
  }

  lemma {:induction false} NoneOnLater(ws: seq<Write>, c: nat)
    requires forall i :: 0 <= i < |ws| ==> ws[i].conn < c
    ensures OnConnection(ws, c) == []
    decreases |ws|
  {
    if ws != [] { NoneOnLater(ws[..|ws| - 1], c); }
  }

  lemma OneMoreWritten(ws: seq<Write>, w: Write, c: nat)
    ensures OnConnection(ws + [w], c) == if w.conn == c then OnConnection(ws, c) + [w] else OnConnection(ws, c)
    ensures Datas(OnConnection(ws + [w], c))
         == if w.conn == c then Datas(OnConnection(ws, c)) + [w.data] else Datas(OnConnection(ws, c))
  {
    hide OnConnection;
    LastOnConnection(ws, w, c);
  }

  lemma LastOnConnection(ws: seq<Write>, w: Write, c: nat)
    ensures OnConnection(ws + [w], c) == if w.conn == c then OnConnection(ws, c) + [w] else OnConnection(ws, c)
  {
    assert (ws + [w])[..|ws|] == ws;
  }

  lemma NothingOnTheWire()
    ensures Stream([]) == [] && Datas([]) == []
  {
  }

  /** A step that touches neither wires nor writes, and does not start streaming or writing. */
  lemma QuietKeepsWired(s: State, t: State)
    requires Wired(s) && t.wires == s.wires && t.conn == s.conn && t.written == s.written
    requires t.phase == s.phase || (t.phase != Streaming && !t.phase.Writing?)
    ensures Wired(t)
  {
    hide Carries, IsCut, OnConnection, Stream, Datas;
    forall c: nat ensures Wire(t, c) == Wire(s, c) && PayloadsOn(t, c) == PayloadsOn(s, c) {
    }
  }

  lemma ConnectKeepsWired(cfg: Config, s: State)
    requires Wired(s) && Ordered(s) && Enabled(s, ConnectOk)
    ensures Wired(Next(cfg, s, ConnectOk))
  {
    hide Carries, IsCut, OnConnection, Stream, Datas, InOrder;
    var t := Next(cfg, s, ConnectOk);
    NoneOnLater(s.written, t.conn);
    NothingOnTheWire();
    WholeChunksAreCarried([]);
    forall c: nat | 1 <= c <= t.conn ensures Carries(Wire(t, c), PayloadsOn(t, c)) {
      if c <= s.conn { assert Wire(t, c) == Wire(s, c) && PayloadsOn(t, c) == PayloadsOn(s, c); }
    }
  }

  lemma TakeKeepsWired(cfg: Config, s: State)
    requires Wired(s) && Enabled(s, Take) && s.queue[0] != []
    ensures Wired(Next(cfg, s, Take))
  {
    hide Carries, OnConnection, Stream, EncodeChunk, Bytes, Head, Datas;
    var t, data := Next(cfg, s, Take), s.queue[0];
    ChunkIsLong(data);
    assert Wire(s, s.conn) + EncodeChunk(data)[..0] == Wire(s, s.conn);
    forall c: nat ensures Wire(t, c) == Wire(s, c) && PayloadsOn(t, c) == PayloadsOn(s, c) {
    }
  }

  lemma CutGrows(wire: seq<byte>, payloads: seq<Payload>, data: Payload, k: nat, n: nat)
    requires IsCut(wire, payloads, data, k) && k + n < |EncodeChunk(data)|
    ensures IsCut(wire + EncodeChunk(data)[k..k + n], payloads, data, k + n)
  {
    hide Stream, EncodeChunk;
    var chunk := EncodeChunk(data);
    assert Stream(payloads) + chunk[..k] + chunk[k..k + n] == Stream(payloads) + chunk[..k + n];
  }

  lemma SendKeepsWired(cfg: Config, s: State, n: nat)
    requires Wired(s) && Enabled(s, SendSome(n))
    ensures Wired(Next(cfg, s, SendSome(n)))
  {
    hide OnConnection, Stream, EncodeChunk, Datas, IsCut, Carries;
    var t, chunk, k := Next(cfg, s, SendSome(n)), EncodeChunk(s.phase.data), s.phase.sent;
    var payloads := PayloadsOn(s, s.conn);
    CutGrows(Wire(s, s.conn), payloads, s.phase.data, k, n);
    assert PayloadsOn(t, t.conn) == payloads && Wire(t, t.conn) == Wire(s, s.conn) + chunk[k..k + n];
    CutIsCarried(Wire(t, t.conn), payloads, s.phase.data, k + n);
    forall c: nat | 1 <= c <= t.conn ensures Carries(Wire(t, c), PayloadsOn(t, c)) {
      if c < s.conn { assert Wire(t, c) == Wire(s, c) && PayloadsOn(t, c) == PayloadsOn(s, c); }
    }
  }

  lemma CutIsCarried(wire: seq<byte>, payloads: seq<Payload>, data: Payload, k: nat)
    requires IsCut(wire, payloads, data, k)
    ensures Carries(wire, payloads)
  {
  }

  lemma WriteOkKeepsWired(cfg: Config, s: State)
    requires Wired(s) && Enabled(s, WriteOk)
    ensures Wired(Next(cfg, s, WriteOk))
  {
    hide Carries, OnConnection, Stream, EncodeChunk, Datas;
    var t, data, k := Next(cfg, s, WriteOk), s.phase.data, s.phase.sent;
    var payloads := PayloadsOn(s, s.conn);
    var w := Write(s.conn, s.phase.id, data);
    StreamAppend(payloads, [data]);
    StreamOfOne(data);
    assert Stream(payloads) + EncodeChunk(data)[..k] + EncodeChunk(data)[k..] == Stream(payloads) + EncodeChunk(data);
    OneMoreWritten(s.written, w, s.conn);
    assert Wire(t, t.conn) == Wire(s, s.conn) + EncodeChunk(data)[k..];
    WholeChunksAreCarried(payloads + [data]);
    forall c: nat | 1 <= c <= t.conn ensures Carries(Wire(t, c), PayloadsOn(t, c)) {
      OneMoreWritten(s.written, w, c);
      if c < s.conn { assert Wire(t, c) == Wire(s, c) && PayloadsOn(t, c) == PayloadsOn(s, c); }
    }
  }

  lemma TakenIsNotEmpty(s: State)
    requires QueueIsSuffix(s) && NoneEmpty(s.enqueued) && s.queue != []
    ensures s.queue[0] != []
  {
    assert s.queue[0] == s.enqueued[Head(s)];
  }

  lemma StepKeepsWired(cfg: Config, s: State, e: Event)
    requires Wired(s) && Inv(cfg, s) && Gapless(s) && Enabled(s, e)
    ensures Wired(Next(cfg, s, e))
  {
    hide Accounted, InOrder, MaxQueueBytes, Trim, Bytes, Wired, QueueIsSuffix, NoneEmpty;
    match e
    case ConnectOk => ConnectKeepsWired(cfg, s);
    case Take => TakenIsNotEmpty(s); TakeKeepsWired(cfg, s);
    case SendSome(n) => SendKeepsWired(cfg, s, n);
    case WriteOk => WriteOkKeepsWired(cfg, s);
    case _ => QuietKeepsWired(s, Next(cfg, s, e));
  }

  lemma {:induction false} RunKeepsWired(cfg: Config, s: State, es: seq<Event>)
    requires Wired(s) && Inv(cfg, s) && Gapless(s) && IsRun(cfg, s, es)
    ensures Wired(After(cfg, s, es))
    decreases |es|
  {
    hide Wired, Inv, Gapless, Next, Enabled;
    if es != [] {
      StepKeepsInv(cfg, s, es[0]);
      StepKeepsGapless(cfg, s, es[0]);
      StepKeepsWired(cfg, s, es[0]);
      RunKeepsWired(cfg, Next(cfg, s, es[0]), es[1..]);
    }
  }

  /** In any interleaving and on every connection ever made: what the caster makes of the bytes that went
      out over it is a run of whole payloads, those written successfully over it, each taken once and in
      order from those enqueued. A write under way, or broken off after some bytes, adds nothing, and the
      end of the stream is never signalled. */
  lemma CasterReceives(cfg: Config, es: seq<Event>, c: nat)
    requires IsRun(cfg, Initial(cfg), es) && 1 <= c <= After(cfg, Initial(cfg), es).conn
    ensures var s := After(cfg, Initial(cfg), es);
      var ws := OnConnection(s.written, c);
      && |s.wires| == s.conn
      && Receive(s.wires[c - 1]).payloads == Datas(ws) && Receive(s.wires[c - 1]).outcome.Open?
      && TakenInOrder(Datas(ws), IdsOf(ws), s.enqueued)
  {
    var s := After(cfg, Initial(cfg), es);
    hide IsRun, After, Receive, OnConnection, Accounted, QueueIsSuffix, TakenInOrder, NoneEmpty, InOrder, IsCut;
    EveryRunIsSound(cfg, es);
    RunsAreGapless(cfg, es);
    RunsAreWired(cfg, es);
    PickedInOrder(s.written, c, s.enqueued, |s.enqueued|);
    var ws := OnConnection(s.written, c);
    DatasInOrder(ws, s.enqueued, |s.enqueued|);
    PickedAreNonEmpty(Datas(ws), IdsOf(ws), s.enqueued);
    assert Carries(Wire(s, c), PayloadsOn(s, c));
    CarriedIsReceived(s.wires[c - 1], Datas(ws));
  }

  lemma CarriedIsReceived(wire: seq<byte>, payloads: seq<Payload>)
    requires NonEmptyPayloads(payloads) && Carries(wire, payloads)
    ensures Receive(wire).payloads == payloads && Receive(wire).outcome.Open?
  {
    hide Receive, Stream, EncodeChunk;
    var data: Payload, k: nat :| IsCut(wire, payloads, data, k);
    UploadRoundTrip(payloads, data, k);
  }

  lemma RunsAreWired(cfg: Config, es: seq<Event>)
    requires IsRun(cfg, Initial(cfg), es)
    ensures Wired(After(cfg, Initial(cfg), es))
  {
    hide IsRun, After, Accounted, QueueIsSuffix, InOrder;
    InitialIsSound(cfg);
    RunKeepsWired(cfg, Initial(cfg), es);
  }

  lemma RunsAreGapless(cfg: Config, es: seq<Event>)
    requires IsRun(cfg, Initial(cfg), es)
    ensures NoneEmpty(After(cfg, Initial(cfg), es).enqueued)
  {
    hide IsRun, After, Accounted, QueueIsSuffix, InOrder;
    InitialIsSound(cfg);
    RunKeepsInv(cfg, Initial(cfg), es);
    RunKeepsGapless(cfg, Initial(cfg), es);
  }
}
