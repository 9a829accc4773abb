/** The upload session of the NATS-to-NTRIP bridge: a bounded queue between the subscription
    callback and a worker that connects, writes, fails, discards and waits. */
module StreamSession {
  import opened Bits
  import opened Backoff
  import ChunkedUpload

  type Payload = seq<byte>

  datatype Config = Config(minSec: nat, maxSec: nat, throughputLogEveryBytes: int)

  function Max(a: int, b: int): int { if a > b then a else b }

  function MaxQueueBytes(cfg: Config): (n: nat)
    ensures n >= 256 * 1024
  {
    Max(256 * 1024, Max(1, cfg.throughputLogEveryBytes) * 4)
  }

  /** The conversion of an int to an unsigned 64-bit number. */
  function ToUint64(x: int): int {
    if x < 0 then x + 0x1_0000_0000_0000_0000 else x
  }

  function Bytes(q: seq<Payload>): nat {
    if q == [] then 0 else |q[0]| + Bytes(q[1..])
  }

  function WrittenBytes(ws: seq<Write>): nat {
    if ws == [] then 0 else WrittenBytes(ws[..|ws| - 1]) + |ws[|ws| - 1].data|
  }

  function InFlight(s: State): nat {
    if s.phase.Writing? then |s.phase.data| else 0
  }

  /** Dropping from the front until the rest fits. */
  function Trim(q: seq<Payload>, limit: nat): seq<Payload> {
    if Bytes(q) > limit && q != [] then Trim(q[1..], limit) else q
  }

  // ---------- the state of a session ----------

  /** Where the worker thread is. */
  datatype Phase =
    | Idle                          // at the top of its loop
    | Connecting
    | Streaming                     // connected, about to take a payload
    | Writing(id: nat, data: Payload, sent: nat)  // and how many bytes of its chunk went out so far
    | Failed                        // connecting or writing has failed
    | Clearing                      // about to discard the queue
    | Cleared
    | Waiting
    | Done

  /** A payload that reached the caster: the id-th one enqueued, on the conn-th connection. */
  datatype Write = Write(conn: nat, id: nat, data: Payload)

  datatype State = State(queue: seq<Payload>, queuedBytes: nat, droppedBytes: nat, total: nat, lastLog: nat,
                         stop: bool, delay: nat, phase: Phase,
                         enqueued: seq<Payload>, taken: nat, lost: nat, conn: nat, written: seq<Write>,
                         wires: seq<seq<byte>>, waits: seq<nat>)

  function Initial(cfg: Config): State {
    State([], 0, 0, 0, 0, false, cfg.minSec, Idle, [], 0, 0, 0, [], [], [])
  }

  /** How many of the payloads enqueued so far are no longer queued. */
  function Head(s: State): nat {
    if |s.queue| <= |s.enqueued| then |s.enqueued| - |s.queue| else 0
  }

  /** More bytes on the wire of the latest connection. */
  function OnWire(wires: seq<seq<byte>>, more: seq<byte>): (r: seq<seq<byte>>)
    ensures |r| == |wires|
  {
    if wires == [] then [] else wires[..|wires| - 1] + [wires[|wires| - 1] + more]
  }

  /** The bytes of the chunk from i on, at most n of them. */
  function ChunkPart(data: Payload, i: nat, n: nat): seq<byte> {
    var chunk := ChunkedUpload.EncodeChunk(data);
    if i + n <= |chunk| then chunk[i..i + n] else []
  }

  function ChunkRest(data: Payload, i: nat): seq<byte> {
    var chunk := ChunkedUpload.EncodeChunk(data);
    if i <= |chunk| then chunk[i..] else []
  }

  datatype Event =
    | Enqueue(data: Payload)
    | Stop
    | CheckLoop
    | ConnectOk
    | ConnectFail
    | Take
    | ReturnOnStop
    | SendSome(n: nat)
    | WriteOk
    | WriteFail
    | Catch
    | Clear
    | BeginWait
    | Wake

  predicate Enabled(s: State, e: Event) {
    match e
    case Enqueue(data) => data != []
    case Stop => true
    case CheckLoop => s.phase == Idle
    case ConnectOk => s.phase == Connecting
    case ConnectFail => s.phase == Connecting
    case Take => s.phase == Streaming && !s.stop && s.queue != []
    case ReturnOnStop => s.phase == Streaming && s.stop
    case SendSome(n) => s.phase.Writing? && s.phase.sent + n < |ChunkedUpload.EncodeChunk(s.phase.data)|
    case WriteOk => s.phase.Writing?
    case WriteFail => s.phase.Writing?
    case Catch => s.phase == Failed
    case Clear => s.phase == Clearing
    case BeginWait => s.phase == Cleared
    case Wake => s.phase == Waiting
  }

  function AfterEnqueue(cfg: Config, s: State, data: Payload): State {
    var q := s.queue + [data];
    var kept := Trim(q, MaxQueueBytes(cfg));
    var total := s.total + |data|;
    TrimShrinks(q, MaxQueueBytes(cfg));
    s.(queue := kept, queuedBytes := Bytes(kept), droppedBytes := s.droppedBytes + (Bytes(q) - Bytes(kept)),
       total := total,
       lastLog := if total - s.lastLog >= ToUint64(cfg.throughputLogEveryBytes) then total else s.lastLog,
       enqueued := s.enqueued + [data])
  }

  function Next(cfg: Config, s: State, e: Event): State
    requires Enabled(s, e)
  {
    match e
    case Enqueue(data) => AfterEnqueue(cfg, s, data)
    case Stop => s.(stop := true)
    case CheckLoop => s.(phase := if s.stop then Done else Connecting)
    case ConnectOk => s.(phase := Streaming, conn := s.conn + 1, wires := s.wires + [[]])
    case ConnectFail => s.(phase := Failed)
    case Take =>
      var data := s.queue[0];
      s.(queue := s.queue[1..], queuedBytes := Bytes(s.queue[1..]), taken := s.taken + |data|,
         phase := Writing(Head(s), data, 0))
    case ReturnOnStop => s.(phase := Idle, delay := cfg.minSec)
    case SendSome(n) =>
      s.(phase := s.phase.(sent := s.phase.sent + n),
         wires := OnWire(s.wires, ChunkPart(s.phase.data, s.phase.sent, n)))
    case WriteOk =>
      s.(phase := Streaming, written := s.written + [Write(s.conn, s.phase.id, s.phase.data)],
         wires := OnWire(s.wires, ChunkRest(s.phase.data, s.phase.sent)))
    case WriteFail => s.(phase := Failed, lost := s.lost + |s.phase.data|)
    case Catch => s.(phase := if s.stop then Done else Clearing)
    case Clear => s.(phase := Cleared, queue := [], queuedBytes := 0, droppedBytes := s.droppedBytes + Bytes(s.queue))
    case BeginWait => s.(phase := Waiting, waits := s.waits + [s.delay])
    case Wake => s.(phase := Idle, delay := Min(s.delay * 2, cfg.maxSec))
  }

  /** Every event of the run can happen where it does: callbacks, worker and stop in any interleaving. */
  predicate IsRun(cfg: Config, s: State, es: seq<Event>)
    decreases |es|
  {
    es == [] || (Enabled(s, es[0]) && IsRun(cfg, Next(cfg, s, es[0]), es[1..]))
  }

  function After(cfg: Config, s: State, es: seq<Event>): State
    requires IsRun(cfg, s, es)
    decreases |es|
  {
    if es == [] then s else After(cfg, Next(cfg, s, es[0]), es[1..])
  }

  // ---------- trimming ----------

  lemma {:induction false} BytesAppend(a: seq<Payload>, b: seq<Payload>)
    ensures Bytes(a + b) == Bytes(a) + Bytes(b)
    decreases |a|
  {
    if a == [] {
      assert a + b == b;
    } else {
      BytesAppend(a[1..], b);
      assert a + b == [a[0]] + (a[1..] + b);
    }
  }

  lemma {:induction false} TrimShrinks(q: seq<Payload>, limit: nat)
    ensures var kept := Trim(q, limit);
      |kept| <= |q| && kept == q[|q| - |kept|..] && Bytes(kept) <= limit && Bytes(kept) <= Bytes(q)
    decreases |q|
  {
    if Bytes(q) > limit && q != [] {
      TrimShrinks(q[1..], limit);
      var kept := Trim(q, limit);
      assert q[1..][|q| - 1 - |kept|..] == q[|q| - |kept|..];
    } else {
      assert q[0..] == q;
    }
  }

  /** Trim keeps the longest part of the queue, counted from its end, that fits. */
  lemma {:induction false} TrimIsLongest(q: seq<Payload>, limit: nat, n: nat)
    requires n <= |q|
    ensures Bytes(q[|q| - n..]) <= limit <==> n <= |Trim(q, limit)|
    decreases |q|
  {
    if Bytes(q) > limit && q != [] {
      if n == |q| {
        assert q[0..] == q;
        TrimShrinks(q[1..], limit);
      } else {
        assert q[1..][|q| - 1 - n..] == q[|q| - n..];
        TrimIsLongest(q[1..], limit, n);
      }
    } else {
      BytesAppend(q[..|q| - n], q[|q| - n..]);
      assert q == q[..|q| - n] + q[|q| - n..];
    }
  }

  /** The limit, in the bytes of the throughput option. */
  lemma LimitByNumbers(cfg: Config)
    ensures var every := cfg.throughputLogEveryBytes;
      MaxQueueBytes(cfg) == if every >= 65536 then 4 * every else 262144
  {
  }

  /** Keeping the whole queue if it fits the limit, and otherwise dropping the oldest payloads, one more of which
      would not fit. */
  predicate KeptWithin(q: seq<Payload>, kept: seq<Payload>, dropped: int, limit: nat) {
    && |kept| <= |q| && kept == q[|q| - |kept|..] && dropped == Bytes(q) - Bytes(kept)
    && if Bytes(q) <= limit then kept == q && dropped == 0
       else
         |kept| < |q| && dropped > 0 && Bytes(kept) <= limit && Bytes(q[|q| - |kept| - 1..]) > limit
  }

  lemma TrimKeepsWithin(q: seq<Payload>, limit: nat)
    ensures KeptWithin(q, Trim(q, limit), Bytes(q) - Bytes(Trim(q, limit)), limit)
  {
    TrimShrinks(q, limit);
    if Bytes(q) <= limit { TrimOfFitting(q, limit); }
    else if |Trim(q, limit)| < |q| { TrimIsLongest(q, limit, |Trim(q, limit)| + 1); }
  }

  lemma TrimOfFitting(q: seq<Payload>, limit: nat)
    requires Bytes(q) <= limit
    ensures Trim(q, limit) == q
  {
  }

  // ---------- what every step keeps ----------

  /** Byte accounting: what is queued, dropped and taken adds up to what came in, and what was taken
      has been written, is being written, or was lost in a failed write. */
  predicate Accounted(cfg: Config, s: State) {
    && s.queuedBytes == Bytes(s.queue) <= MaxQueueBytes(cfg)
    && s.total == Bytes(s.enqueued) == s.queuedBytes + s.droppedBytes + s.taken
    && s.taken == WrittenBytes(s.written) + InFlight(s) + s.lost
  }

  /** The queue is the latest part of what was enqueued. */
  predicate QueueIsSuffix(s: State) {
    |s.queue| <= |s.enqueued| && s.queue == s.enqueued[Head(s)..]
  }

  /** Writes are payloads that were enqueued, each at most once and in the order they came in. */
  predicate InOrder(written: seq<Write>, enqueued: seq<Payload>, head: nat) {
    && (forall i :: 0 <= i < |written| ==>
         written[i].id < head && written[i].id < |enqueued| && written[i].data == enqueued[written[i].id])
    && forall i, j :: 0 <= i < j < |written| ==> written[i].id < written[j].id && written[i].conn <= written[j].conn
  }

  predicate Ordered(s: State) {
    && InOrder(s.written, s.enqueued, Head(s))
    && (forall i :: 0 <= i < |s.written| ==> s.written[i].conn <= s.conn)
    && (s.phase.Writing? ==>
         && s.phase.id < Head(s) && s.phase.id < |s.enqueued| && s.phase.data == s.enqueued[s.phase.id]
         && forall i :: 0 <= i < |s.written| ==> s.written[i].id < s.phase.id)
  }

  predicate Inv(cfg: Config, s: State) {
    Accounted(cfg, s) && QueueIsSuffix(s) && Ordered(s)
  }

  lemma EnqueueKeepsInv(cfg: Config, s: State, data: Payload)
    requires Inv(cfg, s)
    ensures Inv(cfg, AfterEnqueue(cfg, s, data)) && Head(AfterEnqueue(cfg, s, data)) >= Head(s)
  {
    var q, t := s.queue + [data], AfterEnqueue(cfg, s, data);
    TrimShrinks(q, MaxQueueBytes(cfg));
    BytesAppend(s.queue, [data]);
    BytesAppend(s.enqueued, [data]);
    OnePayload(data);
    hide Bytes, Trim, MaxQueueBytes, WrittenBytes;
    assert q == t.enqueued[Head(s)..];
    assert t.queue == t.enqueued[Head(t)..];
  }

  lemma OnePayload(data: Payload)
    ensures Bytes([data]) == |data|
  {
    assert [data][1..] == [];
  }

  lemma TakeKeepsInv(cfg: Config, s: State)
    requires Inv(cfg, s) && Enabled(s, Take)
    ensures Inv(cfg, Next(cfg, s, Take))
  {
    var t := Next(cfg, s, Take);
    hide MaxQueueBytes;
    assert s.queue[0] == s.enqueued[Head(s)];
    assert t.queue == t.enqueued[Head(t)..];
  }

  lemma ClearKeepsInv(cfg: Config, s: State)
    requires Inv(cfg, s) && Enabled(s, Clear)
    ensures Inv(cfg, Next(cfg, s, Clear))
  {
    hide MaxQueueBytes, WrittenBytes;
    assert s.enqueued[|s.enqueued|..] == [];
    assert Bytes([]) == 0;
  }

  lemma WriteOkKeepsAccount(cfg: Config, s: State)
    requires Accounted(cfg, s) && Enabled(s, WriteOk)
    ensures Accounted(cfg, Next(cfg, s, WriteOk))
  {
    hide MaxQueueBytes, Bytes;
    assert Next(cfg, s, WriteOk).written[..|s.written|] == s.written;
  }

  lemma WriteOkKeepsOrder(cfg: Config, s: State)
    requires Ordered(s) && Enabled(s, WriteOk)
    ensures Ordered(Next(cfg, s, WriteOk))
  {
    hide MaxQueueBytes, Bytes, WrittenBytes, Accounted, Trim, AfterEnqueue;
    var t := Next(cfg, s, WriteOk);
    assert forall i :: 0 <= i < |s.written| ==> t.written[i] == s.written[i];
  }

  lemma WriteOkKeepsInv(cfg: Config, s: State)
    requires Inv(cfg, s) && Enabled(s, WriteOk)
    ensures Inv(cfg, Next(cfg, s, WriteOk))
  {
    hide Accounted, Ordered;
    WriteOkKeepsAccount(cfg, s);
    WriteOkKeepsOrder(cfg, s);
  }

  lemma WriteFailKeepsInv(cfg: Config, s: State)
    requires Inv(cfg, s) && Enabled(s, WriteFail)
    ensures Inv(cfg, Next(cfg, s, WriteFail))
  {
    hide MaxQueueBytes, Bytes, WrittenBytes;
  }

  /** Every step of every thread keeps accounting, queue and order intact. */
  lemma StepKeepsInv(cfg: Config, s: State, e: Event)
    requires Inv(cfg, s) && Enabled(s, e)
    ensures Inv(cfg, Next(cfg, s, e))
  {
    hide MaxQueueBytes, Bytes, WrittenBytes, Trim, Min, ToUint64, AfterEnqueue;
    match e
    case Enqueue(data) => EnqueueKeepsInv(cfg, s, data);
    case Take => TakeKeepsInv(cfg, s);
    case Clear => ClearKeepsInv(cfg, s);
    case WriteOk => WriteOkKeepsInv(cfg, s);
    case WriteFail => WriteFailKeepsInv(cfg, s);
    case _ =>
  }

  lemma {:induction false} RunKeepsInv(cfg: Config, s: State, es: seq<Event>)
    requires Inv(cfg, s) && IsRun(cfg, s, es)
    ensures Inv(cfg, After(cfg, s, es))
    decreases |es|
  {
    hide Inv, Next, Enabled;
    if es != [] {
      StepKeepsInv(cfg, s, es[0]);
      RunKeepsInv(cfg, Next(cfg, s, es[0]), es[1..]);
    }
  }

  /** Over every interleaving from the start: accounting adds up, the queue stays within its limit,
      and the writes are a subsequence of what was enqueued. */
  lemma EveryRunIsSound(cfg: Config, es: seq<Event>)
    requires IsRun(cfg, Initial(cfg), es)
    ensures var s := After(cfg, Initial(cfg), es);
      Accounted(cfg, s) && QueueIsSuffix(s) && InOrder(s.written, s.enqueued, |s.enqueued|)
  {
    assert Inv(cfg, Initial(cfg));
    RunKeepsInv(cfg, Initial(cfg), es);
  }

  // ---------- nothing stale is written ----------

  /** Nothing with a number below n is queued, in flight or among the writes after the m-th. */
  predicate NoneBelow(s: State, n: nat, m: nat) {
    && n <= Head(s) && m <= |s.written|
    && (s.phase.Writing? ==> s.phase.id >= n)
    && forall i :: m <= i < |s.written| ==> s.written[i].id >= n
  }

  lemma StepKeepsFloor(cfg: Config, s: State, e: Event, n: nat, m: nat)
    requires Inv(cfg, s) && Enabled(s, e) && NoneBelow(s, n, m)
    ensures NoneBelow(Next(cfg, s, e), n, m)
  {
    hide MaxQueueBytes, Bytes, Trim;
    match e
    case Enqueue(data) => EnqueueKeepsInv(cfg, s, data);
    case _ =>
  }

  lemma {:induction false} RunKeepsFloor(cfg: Config, s: State, es: seq<Event>, n: nat, m: nat)
    requires Inv(cfg, s) && IsRun(cfg, s, es) && NoneBelow(s, n, m)
    ensures NoneBelow(After(cfg, s, es), n, m)
    decreases |es|
  {
    hide Inv, Next, Enabled, NoneBelow;
    if es != [] {
      StepKeepsInv(cfg, s, es[0]);
      StepKeepsFloor(cfg, s, es[0], n, m);
      RunKeepsFloor(cfg, Next(cfg, s, es[0]), es[1..], n, m);
    }
  }

  /** Whatever was enqueued before the queue was cleared after a failure is never written later. */
  lemma NothingStaleIsWritten(cfg: Config, before: seq<Event>, later: seq<Event>)
    requires IsRun(cfg, Initial(cfg), before)
    requires After(cfg, Initial(cfg), before).phase == Clearing
    requires IsRun(cfg, Next(cfg, After(cfg, Initial(cfg), before), Clear), later)
    ensures var s := After(cfg, Initial(cfg), before);
      var t := After(cfg, Next(cfg, s, Clear), later);
      && |s.written| <= |t.written|
      && forall i :: |s.written| <= i < |t.written| ==> t.written[i].id >= |s.enqueued|
  {
    var s := After(cfg, Initial(cfg), before);
    assert Inv(cfg, Initial(cfg));
    RunKeepsInv(cfg, Initial(cfg), before);
    StepKeepsInv(cfg, s, Clear);
    RunKeepsFloor(cfg, Next(cfg, s, Clear), later, |s.enqueued|, |s.written|);
  }

  // ---------- nothing is skipped without being accounted for ----------

  predicate NoneEmpty(q: seq<Payload>) {
    forall i :: 0 <= i < |q| ==> q[i] != []
  }

  /** As long as no byte was dropped or lost, the writes are all that left the queue, one by one. */
  predicate Gapless(s: State) {
    && NoneEmpty(s.enqueued)
    && (s.droppedBytes == 0 && s.lost == 0 ==>
         && |s.written| + (if s.phase.Writing? then 1 else 0) == Head(s)
         && (forall i :: 0 <= i < |s.written| ==> s.written[i].id == i)
         && (s.phase.Writing? ==> s.phase.id == |s.written|))
  }

  lemma {:induction false} NonEmptyHasBytes(q: seq<Payload>)
    requires NoneEmpty(q) && Bytes(q) == 0
    ensures q == []
  {
  }

  /** A trim that drops no byte drops no payload. */
  lemma TrimDropsBytes(q: seq<Payload>, limit: nat)
    requires NoneEmpty(q) && Bytes(Trim(q, limit)) == Bytes(q)
    ensures Trim(q, limit) == q
  {
    TrimShrinks(q, limit);
    var n := |q| - |Trim(q, limit)|;
    BytesAppend(q[..n], q[n..]);
    assert q == q[..n] + q[n..];
    NonEmptyHasBytes(q[..n]);
  }

  lemma WritingIsEnqueued(s: State)
    requires Ordered(s)
    ensures s.phase.Writing? ==> s.phase.data in s.enqueued
  {
  }

  lemma EnqueueKeepsGapless(cfg: Config, s: State, data: Payload)
    requires Inv(cfg, s) && Gapless(s) && data != []
    ensures Gapless(AfterEnqueue(cfg, s, data))
  {
    var q, t := s.queue + [data], AfterEnqueue(cfg, s, data);
    TrimShrinks(q, MaxQueueBytes(cfg));
    if t.droppedBytes == 0 {
      TrimDropsBytes(q, MaxQueueBytes(cfg));
    }
    hide Bytes, Trim, MaxQueueBytes, WrittenBytes, Ordered;
  }

  lemma StepKeepsGapless(cfg: Config, s: State, e: Event)
    requires Inv(cfg, s) && Gapless(s) && Enabled(s, e)
    ensures Gapless(Next(cfg, s, e))
  {
    hide MaxQueueBytes, Trim, WrittenBytes, Accounted, Ordered, AfterEnqueue, Min, Bytes;
    match e
    case Enqueue(data) => EnqueueKeepsGapless(cfg, s, data);
    case Clear => ClearKeepsGapless(cfg, s);
    case WriteFail => WriteFailKeepsGapless(cfg, s);
    case _ =>
  }

  lemma ClearKeepsGapless(cfg: Config, s: State)
    requires QueueIsSuffix(s) && Gapless(s) && Enabled(s, Clear)
    ensures Gapless(Next(cfg, s, Clear))
  {
    if Bytes(s.queue) == 0 { NonEmptyHasBytes(s.queue); }
    hide Bytes;
  }

  lemma WriteFailKeepsGapless(cfg: Config, s: State)
    requires Ordered(s) && Gapless(s) && Enabled(s, WriteFail)
    ensures Gapless(Next(cfg, s, WriteFail))
  {
    WritingIsEnqueued(s);
    hide Ordered;
    assert s.phase.data != [];
  }

  lemma {:induction false} RunKeepsGapless(cfg: Config, s: State, es: seq<Event>)
    requires Inv(cfg, s) && Gapless(s) && IsRun(cfg, s, es)
    ensures Gapless(After(cfg, s, es))
    decreases |es|
  {
    hide Inv, Gapless, Next, Enabled;
    if es != [] {
      StepKeepsInv(cfg, s, es[0]);
      StepKeepsGapless(cfg, s, es[0]);
      RunKeepsGapless(cfg, Next(cfg, s, es[0]), es[1..]);
    }
  }

  function Datas(ws: seq<Write>): (ds: seq<Payload>)
    ensures |ds| == |ws|
  {
    seq(|ws|, i requires 0 <= i < |ws| => ws[i].data)
  }

  /** While the counters of dropped and lost bytes are zero, what was written, then what is being
      written, then what is queued, is exactly what was enqueued: no payload is skipped silently. */
  lemma NothingIsSkipped(cfg: Config, es: seq<Event>)
    requires IsRun(cfg, Initial(cfg), es)
    ensures var s := After(cfg, Initial(cfg), es);
      s.droppedBytes == 0 && s.lost == 0 ==>
        Datas(s.written) + (if s.phase.Writing? then [s.phase.data] else []) + s.queue == s.enqueued
  {
    hide Accounted, IsRun;
    var s := After(cfg, Initial(cfg), es);
    InitialIsSound(cfg);
    RunKeepsInv(cfg, Initial(cfg), es);
    RunKeepsGapless(cfg, Initial(cfg), es);
  }

  lemma InitialIsSound(cfg: Config)
    ensures Inv(cfg, Initial(cfg)) && Gapless(Initial(cfg))
  {
    hide MaxQueueBytes;
  }

  // ---------- waiting times ----------

  predicate Paced(cfg: Config, s: State) {
    && (forall k :: 0 <= k < |s.waits| ==> s.waits[k] == Delay(cfg.minSec, cfg.maxSec, k))
    && (s.phase == Waiting ==> |s.waits| > 0 && s.delay == Delay(cfg.minSec, cfg.maxSec, |s.waits| - 1))
    && (s.phase != Waiting && s.phase != Done && !(s.phase == Idle && s.stop) ==>
         s.delay == Delay(cfg.minSec, cfg.maxSec, |s.waits|))
  }

  lemma StepKeepsPace(cfg: Config, s: State, e: Event)
    requires Enabled(s, e) && Paced(cfg, s)
    ensures Paced(cfg, Next(cfg, s, e))
  {
    hide MaxQueueBytes, Bytes, Trim;
  }

  lemma {:induction false} RunKeepsPace(cfg: Config, s: State, es: seq<Event>)
    requires Paced(cfg, s) && IsRun(cfg, s, es)
    ensures Paced(cfg, After(cfg, s, es))
    decreases |es|
  {
    hide Paced, Next, Enabled;
    if es != [] {
      StepKeepsPace(cfg, s, es[0]);
      RunKeepsPace(cfg, Next(cfg, s, es[0]), es[1..]);
    }
  }

  /** The k-th wait of a session is min*2^k seconds, at most max, however often connecting succeeds in
      between: the delay is only reset when the session is stopping. */
  lemma WaitsDouble(cfg: Config, es: seq<Event>)
    requires cfg.minSec <= cfg.maxSec && IsRun(cfg, Initial(cfg), es)
    ensures var waits := After(cfg, Initial(cfg), es).waits;
      forall k :: 0 <= k < |waits| ==> waits[k] == Min(cfg.minSec * Pow2(k), cfg.maxSec)
  {
    hide Next, Enabled, Min;
    RunKeepsPace(cfg, Initial(cfg), es);
    var waits := After(cfg, Initial(cfg), es).waits;
    forall k | 0 <= k < |waits| ensures waits[k] == Min(cfg.minSec * Pow2(k), cfg.maxSec) {
      DelayClosedForm(cfg.minSec, cfg.maxSec, k);
    }
  }

  // ---------- the session object ----------

  class UploadSession {
    const cfg: Config
    var queue: seq<Payload>
    var queuedBytes: nat
    var droppedBytes: nat
    var total: nat
    var lastLog: nat
    var stop: bool
    var reconnectDelay: nat
    ghost var phase: Phase
    ghost var enqueued: seq<Payload>
    ghost var taken: nat
    ghost var lost: nat
    ghost var conn: nat
    ghost var written: seq<Write>
    ghost var wires: seq<seq<byte>>
    ghost var waits: seq<nat>

    ghost function View(): State
      reads this
    {
      State(queue, queuedBytes, droppedBytes, total, lastLog, stop, reconnectDelay, phase,
            enqueued, taken, lost, conn, written, wires, waits)
    }

    ghost predicate Valid()
      reads this
    {
      Inv(cfg, View())
    }

    constructor (cfg: Config)
      ensures this.cfg == cfg && View() == Initial(cfg) && Valid()
    {
      this.cfg := cfg;
      queue, queuedBytes, droppedBytes, total, lastLog := [], 0, 0, 0, 0;
      stop, reconnectDelay := false, cfg.minSec;
      phase, enqueued, taken, lost, conn, written, wires, waits := Idle, [], 0, 0, 0, [], [], [];
      new;
      hide Inv, Gapless;
      InitialIsSound(cfg);
    }

    /** The subscription callback, under the lock. */
    method Enqueue(data: Payload)
      requires Valid() && data != []
      modifies this
      ensures Valid() && View() == Next(cfg, old(View()), Event.Enqueue(data))
      ensures KeptWithin(old(queue) + [data], queue, droppedBytes - old(droppedBytes),
                         if cfg.throughputLogEveryBytes >= 65536 then 4 * cfg.throughputLogEveryBytes else 262144)
      ensures total == old(total) + |data|
      ensures cfg.throughputLogEveryBytes >= 0 ==>
        lastLog == if total - old(lastLog) >= cfg.throughputLogEveryBytes then total else old(lastLog)
      ensures phase == old(phase) && stop == old(stop) && reconnectDelay == old(reconnectDelay)
    {
      hide Inv, Bytes, Trim, MaxQueueBytes, Next, ToUint64, AfterEnqueue, Head, KeptWithin;
      ghost var s := View();
      ghost var q := queue + [data];
      ghost var kept := Trim(q, MaxQueueBytes(cfg));
      BeforeEnqueue(cfg, s, data);
      EnqueueKeepsWithin(cfg, s, data);
      queue := queue + [data];
      queuedBytes := queuedBytes + |data|;
      total := total + |data|;
      TrimQueueLocked();
      enqueued := enqueued + [data];
      Trimmed(cfg, s, data, q, kept, View());
      if total - lastLog >= ToUint64(cfg.throughputLogEveryBytes) {
        lastLog := total;
      }
    }

    method TrimQueueLocked()
      requires queuedBytes == Bytes(queue)
      modifies `queue, `queuedBytes, `droppedBytes
      ensures queue == Trim(old(queue), MaxQueueBytes(cfg)) && queuedBytes == Bytes(queue)
      ensures Bytes(queue) <= Bytes(old(queue))
      ensures droppedBytes == old(droppedBytes) + (Bytes(old(queue)) - Bytes(queue))
    {
      while queuedBytes > MaxQueueBytes(cfg) && queue != []
        invariant queuedBytes == Bytes(queue) <= Bytes(old(queue))
        invariant Trim(queue, MaxQueueBytes(cfg)) == Trim(old(queue), MaxQueueBytes(cfg))
        invariant droppedBytes == old(droppedBytes) + (Bytes(old(queue)) - Bytes(queue))
        decreases |queue|
      {
        droppedBytes := droppedBytes + |queue[0]|;
        queuedBytes := queuedBytes - |queue[0]|;
        queue := queue[1..];
      }
    }

    /** Discards everything queued, under the lock, after a failure. */
    method ClearQueueLocked()
      requires Valid() && phase == Clearing
      modifies this
      ensures Valid() && View() == Next(cfg, old(View()), Clear)
      ensures phase == Cleared && queue == []
    {
      hide Inv, Next;
      ClearIs(cfg, View());
      StepKeepsInv(cfg, View(), Clear);
      NothingQueuedIsNoBytes(cfg, View());
      phase := Cleared;
      if queue == [] {
        return;
      }
      var clearedBytes := 0;
      while queue != []
        invariant View() == old(View()).(phase := Cleared, queue := queue)
        invariant clearedBytes + Bytes(queue) == Bytes(old(queue))
        decreases |queue|
      {
        clearedBytes := clearedBytes + |queue[0]|;
        queue := queue[1..];
      }
      queuedBytes := 0;
      droppedBytes := droppedBytes + clearedBytes;
    }

    /** The worker takes the oldest payload, under the lock. */
    method TakeFront() returns (payload: Payload)
      requires Valid() && phase == Streaming && !stop && queue != []
      modifies this
      ensures Valid() && View() == Next(cfg, old(View()), Take) && payload == old(queue)[0]
      ensures phase.Writing? && phase.data == payload && phase.sent == 0
    {
      hide Inv, MaxQueueBytes, Trim;
      StepKeepsInv(cfg, View(), Take);
      QueuedBytesAre(cfg, View(), []);
      ghost var id := Head(View());
      payload := queue[0];
      queue := queue[1..];
      queuedBytes := queuedBytes - |payload|;
      taken := taken + |payload|;
      phase := Writing(id, payload, 0);
    }

    /** The socket took some more bytes of the chunk being written, but not yet the last one. */
    method BytesWentOut(n: nat)
      requires Valid() && phase.Writing? && phase.sent + n < |ChunkedUpload.EncodeChunk(phase.data)|
      modifies this
      ensures Valid() && View() == Next(cfg, old(View()), SendSome(n))
      ensures phase == old(phase).(sent := old(phase).sent + n)
    {
      hide Inv, MaxQueueBytes, Trim, Bytes, Head;
      StepKeepsInv(cfg, View(), SendSome(n));
      wires := OnWire(wires, ChunkPart(phase.data, phase.sent, n));
      phase := phase.(sent := phase.sent + n);
    }

    /** The caster connection reported the outcome of a write. */
    method WriteReturned(ok: bool)
      requires Valid() && phase.Writing?
      modifies this
      ensures Valid() && View() == Next(cfg, old(View()), if ok then WriteOk else WriteFail)
      ensures phase == if ok then Streaming else Failed
    {
      hide Inv, MaxQueueBytes, Trim, Bytes, Head;
      StepKeepsInv(cfg, View(), if ok then WriteOk else WriteFail);
      if ok {
        written := written + [Write(conn, phase.id, phase.data)];
        wires := OnWire(wires, ChunkRest(phase.data, phase.sent));
        phase := Streaming;
      } else {
        lost := lost + |phase.data|;
        phase := Failed;
      }
    }

    /** Another thread asks the session to end, under the lock. */
    method RequestStop()
      requires Valid()
      modifies this
      ensures Valid() && View() == Next(cfg, old(View()), Stop)
      ensures phase == old(phase) && stop
    {
      hide Inv, MaxQueueBytes, Trim, Bytes, Head;
      StepKeepsInv(cfg, View(), Stop);
      stop := true;
    }

    /** The condition of the worker's loop. */
    method KeepsRunning() returns (go: bool)
      requires Valid() && phase == Idle
      modifies this
      ensures Valid() && View() == Next(cfg, old(View()), CheckLoop) && go == !old(stop)
      ensures phase == if go then Connecting else Done
    {
      hide Inv, MaxQueueBytes, Trim, Bytes, Head;
      StepKeepsInv(cfg, View(), CheckLoop);
      go := !stop;
      phase := if stop then Done else Connecting;
    }

    /** The attempt to open the source on the caster returned. */
    method SourceReturned(ok: bool)
      requires Valid() && phase == Connecting
      modifies this
      ensures Valid() && View() == Next(cfg, old(View()), if ok then ConnectOk else ConnectFail)
      ensures phase == if ok then Streaming else Failed
    {
      hide Inv, MaxQueueBytes, Trim, Bytes, Head;
      StepKeepsInv(cfg, View(), if ok then ConnectOk else ConnectFail);
      if ok {
        conn := conn + 1;
        wires := wires + [[]];
        phase := Streaming;
      } else {
        phase := Failed;
      }
    }

    /** The handler of a failure: leave the loop when stopping, otherwise go on to discard the queue. */
    method Caught() returns (leave: bool)
      requires Valid() && phase == Failed
      modifies this
      ensures Valid() && View() == Next(cfg, old(View()), Catch) && leave == old(stop)
      ensures phase == if leave then Done else Clearing
    {
      hide Inv, MaxQueueBytes, Trim, Bytes, Head;
      StepKeepsInv(cfg, View(), Catch);
      leave := stop;
      phase := if stop then Done else Clearing;
    }

    /** How long to wait before the next attempt, in milliseconds. */
    method WaitBegins(jitter: nat) returns (ms: nat)
      requires Valid() && phase == Cleared
      modifies this
      ensures Valid() && View() == Next(cfg, old(View()), BeginWait)
      ensures ms == old(reconnectDelay) * 1000 + jitter
      ensures phase == Waiting
    {
      hide Inv, MaxQueueBytes, Trim, Bytes, Head;
      StepKeepsInv(cfg, View(), BeginWait);
      ms := reconnectDelay * 1000 + jitter;
      waits := waits + [reconnectDelay];
      phase := Waiting;
    }

    /** The wait after a failure is over: the next one will be twice as long, up to the maximum. */
    method WaitEnded()
      requires Valid() && phase == Waiting
      modifies this
      ensures Valid() && View() == Next(cfg, old(View()), Wake)
      ensures phase == Idle
    {
      hide Inv, MaxQueueBytes, Trim, Bytes, Head;
      StepKeepsInv(cfg, View(), Wake);
      reconnectDelay := Min(reconnectDelay * 2, cfg.maxSec);
      phase := Idle;
    }

    /** The streaming loop ended without an exception, which it only does when the session is stopping. */
    method StreamingReturned()
      requires Valid() && phase == Streaming && stop
      modifies this
      ensures Valid() && View() == Next(cfg, old(View()), ReturnOnStop)
      ensures phase == Idle && stop && reconnectDelay == cfg.minSec
    {
      hide Inv, MaxQueueBytes, Trim, Bytes, Head;
      StepKeepsInv(cfg, View(), ReturnOnStop);
      reconnectDelay := cfg.minSec;
      phase := Idle;
    }
  }

  lemma BeforeEnqueue(cfg: Config, s: State, data: Payload)
    requires Inv(cfg, s) && data != []
    ensures Next(cfg, s, Enqueue(data)) == AfterEnqueue(cfg, s, data) && Inv(cfg, AfterEnqueue(cfg, s, data))
    ensures s.queuedBytes + |data| == Bytes(s.queue + [data])
  {
    hide AfterEnqueue, Inv;
    EnqueueKeepsInv(cfg, s, data);
    QueuedBytesAre(cfg, s, data);
  }

  /** What an arrival leaves in the queue, in the bytes of the throughput option. */
  lemma EnqueueKeepsWithin(cfg: Config, s: State, data: Payload)
    ensures var every, t := cfg.throughputLogEveryBytes, AfterEnqueue(cfg, s, data);
      && KeptWithin(s.queue + [data], t.queue, t.droppedBytes - s.droppedBytes,
                    if every >= 65536 then 4 * every else 262144)
      && t.total == s.total + |data|
      && (every >= 0 ==> t.lastLog == if t.total - s.lastLog >= every then t.total else s.lastLog)
  {
    LimitByNumbers(cfg);
    TrimKeepsWithin(s.queue + [data], MaxQueueBytes(cfg));
    hide MaxQueueBytes, KeptWithin, Trim;
  }

  /** A state with these fields is the one after the payload was enqueued, but for the log. */
  lemma Trimmed(cfg: Config, s: State, data: Payload, q: seq<Payload>, kept: seq<Payload>, t: State)
    requires q == s.queue + [data] && kept == Trim(q, MaxQueueBytes(cfg)) && Bytes(kept) <= Bytes(q)
    requires t == s.(queue := kept, queuedBytes := Bytes(kept),
                     droppedBytes := s.droppedBytes + (Bytes(q) - Bytes(kept)),
                     total := s.total + |data|, enqueued := s.enqueued + [data])
    ensures AfterEnqueue(cfg, s, data)
         == if t.total - t.lastLog >= ToUint64(cfg.throughputLogEveryBytes) then t.(lastLog := t.total) else t
  {
  }

  lemma ClearIs(cfg: Config, s: State)
    requires s.phase == Clearing
    ensures Next(cfg, s, Clear)
         == s.(phase := Cleared, queue := [], queuedBytes := 0, droppedBytes := s.droppedBytes + Bytes(s.queue))
  {
  }

  lemma NothingQueuedIsNoBytes(cfg: Config, s: State)
    requires Inv(cfg, s)
    ensures s.queue == [] ==> s.queuedBytes == 0
  {
  }

  lemma QueuedBytesAre(cfg: Config, s: State, data: Payload)
    requires Inv(cfg, s)
    ensures s.queuedBytes + |data| == Bytes(s.queue + [data]) && s.queuedBytes == Bytes(s.queue)
  {
    BytesAppend(s.queue, [data]);
    OnePayload(data);
  }
}
