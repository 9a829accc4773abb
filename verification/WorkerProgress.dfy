/** The progress a worker makes: it delivers as much as could be delivered, and it keeps trying to connect. */
module WorkerProgress {
  import opened Backoff
  import opened StreamSession
  import opened WorkerScript

  // ---------- what comes in ----------

  /** The payloads callbacks bring; one without data brings none. */
  function Real(arrivals: seq<Payload>): seq<Payload> {
    if arrivals == [] then []
    else (if arrivals[0] == [] then [] else [arrivals[0]]) + Real(arrivals[1..])
  }

  /** All that comes in during the turns from j on. */
  function Coming(turns: seq<Turn>, j: nat): seq<Payload>
    requires j <= |turns|
    decreases |turns| - j
  {
    if j == |turns| then []
    else Real(turns[j].before.arrivals) + Real(turns[j].during.arrivals) + Coming(turns, j + 1)
  }

  /** How many payloads have come in from turn j on when the worker decides in turn i. */
  function HereBy(turns: seq<Turn>, j: nat, i: nat): nat
    requires j <= i < |turns|
    decreases i - j
  {
    var before := |Real(turns[j].before.arrivals)|;
    if i == j then before else before + |Real(turns[j].during.arrivals)| + HereBy(turns, j + 1, i)
  }

  /** No stop is requested in the turns from j on. */
  predicate Undisturbed(turns: seq<Turn>, j: nat) {
    forall i :: j <= i < |turns| ==> !turns[i].before.stop && !turns[i].during.stop
  }

  predicate AllSucceed(turns: seq<Turn>, j: nat) {
    forall i :: j <= i < |turns| ==> turns[i].ok
  }

  /** m is the most that can be written in the turns from j on, one payload a turn and none before it is there,
      with `waiting` payloads in the queue at first. */
  ghost predicate IsMost(m: nat, waiting: nat, turns: seq<Turn>, j: nat)
    requires j <= |turns|
  {
    && m <= |turns| - j
    && (forall i :: j <= i < |turns| ==> m <= waiting + HereBy(turns, j, i) + (|turns| - 1 - i))
    && (m == |turns| - j
        || exists i :: j <= i < |turns| && m == waiting + HereBy(turns, j, i) + (|turns| - 1 - i))
  }

  // ---------- one turn ----------

  /** Nothing but the queue and its counters has changed. */
  predicate SameWorker(s: State, t: State) {
    && t.phase == s.phase && t.stop == s.stop && t.lost == s.lost
    && t.conn == s.conn && t.written == s.written && t.waits == s.waits && t.delay == s.delay
  }

  /** Nor has anything been dropped. */
  predicate OnlyQueued(s: State, t: State) {
    SameWorker(s, t) && t.droppedBytes == s.droppedBytes
  }

  lemma RoomForFirst(q: seq<Payload>, first: Payload, rest: seq<Payload>)
    ensures Bytes(q + [first]) <= Bytes(q + ([first] + rest)) && q + ([first] + rest) == q + [first] + rest
  {
    assert q + ([first] + rest) == q + [first] + rest;
    BytesAppend(q + [first], rest);
  }

  lemma OneArrives(cfg: Config, s: State, data: Payload)
    requires Bytes(s.queue + [data]) <= MaxQueueBytes(cfg)
    ensures var t := AfterEnqueue(cfg, s, data); t.queue == s.queue + [data] && OnlyQueued(s, t)
  {
    TrimOfFitting(s.queue + [data], MaxQueueBytes(cfg));
    hide MaxQueueBytes, Bytes, Trim;
  }

  /** What comes in is queued behind what is queued, as long as there is room. */
  lemma {:induction false} AllArrive(cfg: Config, p: Path, arrivals: seq<Payload>)
    requires Bytes(p.s.queue + Real(arrivals)) <= MaxQueueBytes(cfg)
    ensures var t := Arrive(cfg, p, arrivals).s; t.queue == p.s.queue + Real(arrivals) && OnlyQueued(p.s, t)
    decreases |arrivals|
  {
    hide MaxQueueBytes, Bytes, AfterEnqueue;
    if arrivals == [] {
      assert p.s.queue + [] == p.s.queue;
    } else if arrivals[0] == [] {
      assert [] + Real(arrivals[1..]) == Real(arrivals[1..]);
      AllArrive(cfg, p, arrivals[1..]);
    } else {
      RoomForFirst(p.s.queue, arrivals[0], Real(arrivals[1..]));
      OneArrives(cfg, p.s, arrivals[0]);
      AllArrive(cfg, Go(cfg, p, Enqueue(arrivals[0])), arrivals[1..]);
    }
  }

  lemma OthersArrive(cfg: Config, p: Path, outside: Outside)
    requires !outside.stop && Bytes(p.s.queue + Real(outside.arrivals)) <= MaxQueueBytes(cfg)
    ensures var t := OthersOn(cfg, p, outside).s;
      t.queue == p.s.queue + Real(outside.arrivals) && OnlyQueued(p.s, t)
  {
    hide MaxQueueBytes, Bytes, OnlyQueued, Arrive;
    AllArrive(cfg, p, outside.arrivals);
  }

  /** The payloads given, and no others, have been written since, in their order and on the same connection. */
  predicate Delivered(s: State, t: State, payloads: seq<Payload>) {
    && s.written <= t.written
    && Carry(t.written[|s.written|..], payloads, s.conn)
  }

  predicate Carry(writes: seq<Write>, payloads: seq<Payload>, conn: nat) {
    && |writes| == |payloads|
    && forall k :: 0 <= k < |writes| ==> writes[k].data == payloads[k] && writes[k].conn == conn
  }

  /** A session that streams and is not stopped, and nothing was dropped or lost on the way there. */
  predicate StillStreams(s: State, t: State) {
    && t.phase == Streaming && !t.stop && t.conn == s.conn
    && t.droppedBytes == s.droppedBytes && t.lost == s.lost && t.waits == s.waits
  }

  predicate Smooth(turn: Turn) {
    turn.ok && !turn.before.stop && !turn.during.stop
  }

  lemma LessIsQueued(q: seq<Payload>, more: seq<Payload>)
    ensures Bytes(q) <= Bytes(q + more) && (q != [] ==> Bytes(q[1..] + more) <= Bytes(q + more))
  {
    BytesAppend(q, more);
    if q != [] { BytesAppend(q[1..], more); }
  }

  lemma IdleTurn(cfg: Config, p: Path, turn: Turn)
    requires p.s.phase == Streaming && !p.s.stop && Smooth(turn)
    requires p.s.queue + Real(turn.before.arrivals) == [] && Bytes(Real(turn.during.arrivals)) <= MaxQueueBytes(cfg)
    ensures var q := OthersOn(cfg, p, turn.before);
      && q.s.queue == [] && !q.s.stop
      && var t := OthersOn(cfg, q, turn.during).s;
      t.queue == Real(turn.during.arrivals) && StillStreams(p.s, t) && Delivered(p.s, t, [])
  {
    hide MaxQueueBytes, OthersOn, Real;
    assert Bytes(p.s.queue + Real(turn.before.arrivals)) == 0;
    OthersArrive(cfg, p, turn.before);
    var q := OthersOn(cfg, p, turn.before);
    assert [] + Real(turn.during.arrivals) == Real(turn.during.arrivals);
    OthersArrive(cfg, q, turn.during);
  }

  lemma TakenAndWritten(cfg: Config, q: Path, turn: Turn)
    requires q.s.phase == Streaming && !q.s.stop && q.s.queue != [] && Smooth(turn)
    requires Bytes(q.s.queue[1..] + Real(turn.during.arrivals)) <= MaxQueueBytes(cfg)
    ensures var t := WriteOn(cfg, Go(cfg, q, Take), turn).s;
      && t.queue == q.s.queue[1..] + Real(turn.during.arrivals)
      && StillStreams(q.s, t) && Delivered(q.s, t, [q.s.queue[0]])
  {
    hide MaxQueueBytes, OthersOn, Real, Bytes, OnWire, ChunkPart, ChunkRest, AfterEnqueue;
    var taken := Go(cfg, q, Take);
    OthersArrive(cfg, taken, turn.during);
  }

  lemma BusyTurn(cfg: Config, p: Path, turn: Turn, here: seq<Payload>)
    requires p.s.phase == Streaming && !p.s.stop && Smooth(turn)
    requires here == p.s.queue + Real(turn.before.arrivals) && here != []
    requires Bytes(here + Real(turn.during.arrivals)) <= MaxQueueBytes(cfg)
    ensures var q := OthersOn(cfg, p, turn.before);
      && q.s.queue == here && !q.s.stop
      && var t := WriteOn(cfg, Go(cfg, q, Take), turn).s;
      t.queue == here[1..] + Real(turn.during.arrivals) && StillStreams(p.s, t) && Delivered(p.s, t, [here[0]])
  {
    hide MaxQueueBytes, OthersOn, Real, Bytes, WriteOn, Go;
    LessIsQueued(here, Real(turn.during.arrivals));
    OthersArrive(cfg, p, turn.before);
    TakenAndWritten(cfg, OthersOn(cfg, p, turn.before), turn);
  }

  /** The same, seen from a state with the same writes and connection. */
  lemma DeliveredFrom(s: State, s': State, t: State, payloads: seq<Payload>)
    requires Delivered(s, t, payloads) && s'.written == s.written && s'.conn == s.conn
    ensures Delivered(s', t, payloads)
  {
  }

  // ---------- streaming ----------

  lemma DeliveredOn(s: State, t: State, u: State, a: seq<Payload>, b: seq<Payload>)
    requires Delivered(s, t, a) && Delivered(t, u, b) && t.conn == s.conn
    ensures Delivered(s, u, a + b)
  {
    var x, y := t.written[|s.written|..], u.written[|t.written|..];
    assert u.written[|s.written|..] == x + y;
  }

  /** One turn more in front: an idle one, or one in which a payload is written. */
  lemma MostOneMore(m: nat, waiting: nat, left: nat, turns: seq<Turn>, j: nat)
    requires j < |turns| && IsMost(m, left, turns, j + 1)
    requires var here := waiting + |Real(turns[j].before.arrivals)|; var later := |Real(turns[j].during.arrivals)|;
      left == (if here == 0 then 0 else here - 1) + later
    ensures IsMost(if waiting + |Real(turns[j].before.arrivals)| == 0 then m else m + 1, waiting, turns, j)
  {
    hide Real;
    var here := waiting + |Real(turns[j].before.arrivals)|;
    var m' := if here == 0 then m else m + 1;
    assert waiting + HereBy(turns, j, j) == here;
    forall i | j <= i < |turns| ensures m' <= waiting + HereBy(turns, j, i) + (|turns| - 1 - i) {
      if i > j { assert m <= left + HereBy(turns, j + 1, i) + (|turns| - 1 - i); }
    }
    if m == |turns| - (j + 1) {
      if here == 0 { assert m' == waiting + HereBy(turns, j, j) + (|turns| - 1 - j); }
    } else {
      var i :| j + 1 <= i < |turns| && m == left + HereBy(turns, j + 1, i) + (|turns| - 1 - i);
      assert m' == waiting + HereBy(turns, j, i) + (|turns| - 1 - i);
    }
  }

  /** A payload written in one turn, and those written in the later ones. */
  lemma OneMoreDelivered(s: State, t: State, u: State, here: seq<Payload>, all: seq<Payload>, m: nat)
    requires here != [] && Delivered(s, t, [here[0]]) && StillStreams(s, t) && all != [] && all[0] == here[0]
    requires m <= |all| - 1 && u.queue == all[1..][m..] && Delivered(t, u, all[1..][..m]) && StillStreams(t, u)
    ensures u.queue == all[m + 1..] && Delivered(s, u, all[..m + 1]) && StillStreams(s, u)
  {
    DeliveredOn(s, t, u, [here[0]], all[1..][..m]);
    assert [here[0]] + all[1..][..m] == all[..m + 1];
    assert all[1..][m..] == all[m + 1..];
  }

  /** Connected, with no stop, no failing write and room for everything: as many payloads as possible are
      written, in the order they were queued and came in, and the others are queued. */
  lemma {:induction false} StreamDelivers(cfg: Config, p: Path, turns: seq<Turn>, j: nat) returns (m: nat)
    requires p.s.phase == Streaming && !p.s.stop && j <= |turns|
    requires Undisturbed(turns, j) && AllSucceed(turns, j)
    requires Bytes(p.s.queue + Coming(turns, j)) <= MaxQueueBytes(cfg)
    ensures var all, r := p.s.queue + Coming(turns, j), StreamOn(cfg, p, turns, j);
      && IsMost(m, |p.s.queue|, turns, j) && m <= |all|
      && r.ending == OutOfTurns && r.j == |turns| && StillStreams(p.s, r.p.s)
      && r.p.s.queue == all[m..] && Delivered(p.s, r.p.s, all[..m])
    decreases |turns| - j
  {
    hide MaxQueueBytes, OthersOn, Real, Bytes, WriteOn, Go, IsMost, Delivered;
    if j == |turns| {
      m := 0;
      NothingToDo(|p.s.queue|, turns);
      NothingDelivered(p.s);
      assert p.s.queue + [] == p.s.queue;
    } else {
      var turn := turns[j];
      var b, d, later := Real(turn.before.arrivals), Real(turn.during.arrivals), Coming(turns, j + 1);
      var here, all := p.s.queue + b, p.s.queue + Coming(turns, j);
      var q := OthersOn(cfg, p, turn.before);
      AllOfTurn(cfg, p.s.queue, turns, j);
      if here == [] {
        IdleTurn(cfg, p, turn);
        var t := OthersOn(cfg, q, turn.during);
        m := StreamDelivers(cfg, t, turns, j + 1);
        MostOneMore(m, |p.s.queue|, |d|, turns, j);
        DeliveredOn(p.s, t.s, StreamOn(cfg, t, turns, j + 1).p.s, [], all[..m]);
        assert [] + all[..m] == all[..m];
      } else {
        BusyTurn(cfg, p, turn, here);
        var t := WriteOn(cfg, Go(cfg, q, Take), turn);
        var m' := StreamDelivers(cfg, t, turns, j + 1);
        MostOneMore(m', |p.s.queue|, |here| - 1 + |d|, turns, j);
        OneMoreDelivered(p.s, t.s, StreamOn(cfg, t, turns, j + 1).p.s, here, all, m');
        m := m' + 1;
      }
    }
  }

  lemma NothingDelivered(s: State)
    ensures Delivered(s, s, [])
  {
  }

  /** What is queued and comes in, split at the turn's decision and behind the turn, and that it all fits. */
  lemma AllOfTurn(cfg: Config, queue: seq<Payload>, turns: seq<Turn>, j: nat)
    requires j < |turns| && Bytes(queue + Coming(turns, j)) <= MaxQueueBytes(cfg)
    ensures var b, d := Real(turns[j].before.arrivals), Real(turns[j].during.arrivals);
      var here, later, all := queue + b, Coming(turns, j + 1), queue + Coming(turns, j);
      && Bytes(here + d) <= MaxQueueBytes(cfg) && Bytes(d) <= MaxQueueBytes(cfg)
      && (here == [] ==> all == d + later)
      && (here != [] ==> all[0] == here[0] && all[1..] == here[1..] + d + later
                         && Bytes(all[1..]) <= MaxQueueBytes(cfg))
  {
    hide MaxQueueBytes, Real, Bytes;
    var b, d := Real(turns[j].before.arrivals), Real(turns[j].during.arrivals);
    var here, later, all := queue + b, Coming(turns, j + 1), queue + Coming(turns, j);
    assert all == (here + d) + later;
    LessIsQueued(here + d, later);
    BytesAppend(here, d);
    LessIsQueued(all, []);
    assert all + [] == all;
    if here != [] { assert all[1..] + [] == all[1..]; }
  }

  lemma NothingToDo(waiting: nat, turns: seq<Turn>)
    ensures IsMost(0, waiting, turns, |turns|)
  {
  }

  // ---------- connecting ----------

  lemma {:induction false} ArriveLeavesWorker(cfg: Config, p: Path, arrivals: seq<Payload>)
    ensures SameWorker(p.s, Arrive(cfg, p, arrivals).s)
    decreases |arrivals|
  {
    hide MaxQueueBytes, Bytes, Trim, ToUint64;
    if arrivals != [] { ArriveLeavesWorker(cfg, Go(cfg, p, Enqueue(arrivals[0])), arrivals[1..]); }
  }

  lemma OthersLeaveWorker(cfg: Config, p: Path, outside: Outside)
    requires !outside.stop
    ensures SameWorker(p.s, OthersOn(cfg, p, outside).s)
  {
    hide Arrive;
    ArriveLeavesWorker(cfg, p, outside.arrivals);
  }

  /** From the top of its loop the worker connects, and streams from then on. */
  lemma Connects(cfg: Config, p: Path, turns: seq<Turn>, j: nat) returns (c: Path)
    requires p.s.phase == Idle && !p.s.stop && j < |turns| && Smooth(turns[j])
    requires Bytes(p.s.queue + Real(turns[j].before.arrivals) + Real(turns[j].during.arrivals)) <= MaxQueueBytes(cfg)
    ensures RunOn(cfg, p, turns, j) == AfterStreaming(cfg, StreamOn(cfg, c, turns, j + 1), turns)
    ensures c.s.phase == Streaming && !c.s.stop && c.s.conn == p.s.conn + 1
    ensures c.s.queue == p.s.queue + Real(turns[j].before.arrivals) + Real(turns[j].during.arrivals)
    ensures c.s.written == p.s.written && c.s.waits == p.s.waits
    ensures c.s.droppedBytes == p.s.droppedBytes && c.s.lost == p.s.lost
  {
    hide MaxQueueBytes, OthersOn, Real, Bytes, StreamOn, RecoverOn, AfterEnqueue;
    var turn := turns[j];
    LessIsQueued(p.s.queue + Real(turn.before.arrivals), Real(turn.during.arrivals));
    OthersArrive(cfg, p, turn.before);
    var q := Go(cfg, OthersOn(cfg, p, turn.before), CheckLoop);
    OthersArrive(cfg, q, turn.during);
    c := Go(cfg, OthersOn(cfg, q, turn.during), ConnectOk);
  }

  /** How the worker goes on when streaming has ended. */
  function AfterStreaming(cfg: Config, a: Streamed, turns: seq<Turn>): Path
    requires a.j <= |turns|
  {
    match a.ending
    case OutOfTurns => a.p
    case Returned => RunOn(cfg, a.p, turns, a.j)
    case Threw =>
      if a.j == |turns| then a.p else
      var r := RecoverOn(cfg, a.p, turns[a.j]);
      if r.s.phase == Done then r else RunOn(cfg, r, turns, a.j + 1)
  }

  /** Not stopped, with no failure and room for everything: the worker connects once, and then delivers as much
      as possible over that connection. */
  lemma RunDelivers(cfg: Config, p: Path, turns: seq<Turn>, j: nat) returns (m: nat)
    requires p.s.phase == Idle && !p.s.stop && j < |turns|
    requires Undisturbed(turns, j) && AllSucceed(turns, j)
    requires Bytes(p.s.queue + Coming(turns, j)) <= MaxQueueBytes(cfg)
    ensures var s, t, all := p.s, RunOn(cfg, p, turns, j).s, p.s.queue + Coming(turns, j);
      var waiting := |s.queue| + |Real(turns[j].before.arrivals)| + |Real(turns[j].during.arrivals)|;
      && IsMost(m, waiting, turns, j + 1) && m <= |all|
      && StillStreams(s.(phase := Streaming, conn := s.conn + 1), t)
      && t.queue == all[m..] && Delivered(s.(conn := s.conn + 1), t, all[..m])
  {
    hide MaxQueueBytes, OthersOn, Real, Bytes, StreamOn, RunOn, IsMost, Delivered;
    var b, d := Real(turns[j].before.arrivals), Real(turns[j].during.arrivals);
    var later := Coming(turns, j + 1);
    assert p.s.queue + Coming(turns, j) == (p.s.queue + b + d) + later;
    LessIsQueued(p.s.queue + b + d, later);
    var c := Connects(cfg, p, turns, j);
    m := StreamDelivers(cfg, c, turns, j + 1);
    DeliveredFrom(c.s, p.s.(conn := p.s.conn + 1), RunOn(cfg, p, turns, j).s, (p.s.queue + Coming(turns, j))[..m]);
  }

  // ---------- trying again ----------

  /** The next k attempts to connect fail: one turn for each, and one for the wait behind it. */
  predicate AttemptsFail(turns: seq<Turn>, j: nat, k: nat)
    decreases k
  {
    k == 0 || (j + 2 <= |turns| && !turns[j].ok && AttemptsFail(turns, j + 2, k - 1))
  }

  /** An attempt fails: the worker waits, and is back at the top of its loop, with what came in meanwhile. */
  lemma TriesAgain(cfg: Config, p: Path, turns: seq<Turn>, j: nat) returns (t: Path)
    requires p.s.phase == Idle && !p.s.stop && j + 2 <= |turns| && !turns[j].ok
    requires Undisturbed(turns, j)
    ensures RunOn(cfg, p, turns, j) == RunOn(cfg, t, turns, j + 2)
    ensures t.s.phase == Idle && !t.s.stop && t.s.conn == p.s.conn && t.s.written == p.s.written
    ensures t.s.lost == p.s.lost && t.s.waits == p.s.waits + [p.s.delay] && t.s.delay == Min(p.s.delay * 2, cfg.maxSec)
    ensures var came := Real(turns[j + 1].during.arrivals);
      Bytes(came) <= MaxQueueBytes(cfg) ==> t.s.queue == came
  {
    hide MaxQueueBytes, OthersOn, Real, Bytes, StreamOn, WaitOn, AfterEnqueue, Min;
    OthersLeaveWorker(cfg, p, turns[j].before);
    var q := Go(cfg, OthersOn(cfg, p, turns[j].before), CheckLoop);
    OthersLeaveWorker(cfg, q, turns[j].during);
    var f := Go(cfg, OthersOn(cfg, q, turns[j].during), ConnectFail);
    OthersLeaveWorker(cfg, f, turns[j + 1].before);
    var c := Go(cfg, OthersOn(cfg, f, turns[j + 1].before), Catch);
    WaitsAndIsBack(cfg, c, turns[j + 1]);
    t := WaitOn(cfg, c, turns[j + 1]);
  }

  lemma WaitsAndIsBack(cfg: Config, c: Path, turn: Turn)
    requires c.s.phase == Clearing && !c.s.stop && !turn.during.stop
    ensures var t := WaitOn(cfg, c, turn);
      && t.s.phase == Idle && !t.s.stop && t.s.conn == c.s.conn && t.s.written == c.s.written
      && t.s.lost == c.s.lost && t.s.waits == c.s.waits + [c.s.delay] && t.s.delay == Min(c.s.delay * 2, cfg.maxSec)
      && (Bytes(Real(turn.during.arrivals)) <= MaxQueueBytes(cfg) ==> t.s.queue == Real(turn.during.arrivals))
  {
    hide MaxQueueBytes, OthersOn, Real, Bytes, AfterEnqueue, Min;
    var w := Go(cfg, Go(cfg, c, Clear), BeginWait);
    OthersLeaveWorker(cfg, w, turn.during);
    assert [] + Real(turn.during.arrivals) == Real(turn.during.arrivals);
    if Bytes(Real(turn.during.arrivals)) <= MaxQueueBytes(cfg) { OthersArrive(cfg, w, turn.during); }
  }

  /** However often connecting fails, the worker waits and tries again. */
  lemma {:induction false} TriesOn(cfg: Config, p: Path, turns: seq<Turn>, j: nat, k: nat) returns (t: Path)
    requires p.s.phase == Idle && !p.s.stop && j + 2 * k <= |turns| && AttemptsFail(turns, j, k)
    requires Undisturbed(turns, j)
    ensures RunOn(cfg, p, turns, j) == RunOn(cfg, t, turns, j + 2 * k)
    ensures t.s.phase == Idle && !t.s.stop && t.s.conn == p.s.conn && t.s.written == p.s.written
    ensures t.s.lost == p.s.lost && |t.s.waits| == |p.s.waits| + k
    ensures k == 0 ==> t == p
    ensures k > 0 ==> var came := Real(turns[j + 2 * k - 1].during.arrivals);
      Bytes(came) <= MaxQueueBytes(cfg) ==> t.s.queue == came
    decreases k
  {
    hide RunOn, Real, Bytes, MaxQueueBytes, Min;
    if k == 0 {
      t := p;
    } else {
      var next := TriesAgain(cfg, p, turns, j);
      t := TriesOn(cfg, next, turns, j + 2, k - 1);
    }
  }

  /** After any number of failed attempts: what came in during the last wait and later is delivered, as much of
      it as possible. */
  lemma TriesThenDelivers(cfg: Config, p: Path, turns: seq<Turn>, k: nat) returns (m: nat)
    requires p.s.phase == Idle && !p.s.stop && 0 < 2 * k < |turns| && AttemptsFail(turns, 0, k)
    requires Undisturbed(turns, 0) && AllSucceed(turns, 2 * k)
    requires Bytes(Real(turns[2 * k - 1].during.arrivals) + Coming(turns, 2 * k)) <= MaxQueueBytes(cfg)
    ensures var j := 2 * k; var held := Real(turns[j - 1].during.arrivals);
      var s, t, all := p.s, RunOn(cfg, p, turns, 0).s, held + Coming(turns, j);
      var waiting := |held| + |Real(turns[j].before.arrivals)| + |Real(turns[j].during.arrivals)|;
      && |t.waits| == |s.waits| + k && t.phase == Streaming && !t.stop && t.conn == s.conn + 1 && t.lost == s.lost
      && IsMost(m, waiting, turns, j + 1) && m <= |all|
      && t.queue == all[m..] && Delivered(s.(conn := s.conn + 1), t, all[..m])
  {
    hide RunOn, Real, Bytes, MaxQueueBytes, IsMost, Coming, Delivered;
    LessIsQueued(Real(turns[2 * k - 1].during.arrivals), Coming(turns, 2 * k));
    var t := TriesOn(cfg, p, turns, 0, k);
    m := RunDelivers(cfg, t, turns, 2 * k);
    DeliveredFrom(t.s.(conn := t.s.conn + 1), p.s.(conn := p.s.conn + 1), RunOn(cfg, p, turns, 0).s,
                  (t.s.queue + Coming(turns, 2 * k))[..m]);
  }

  // ---------- as contracts ----------

  /** Nothing interferes in the turns from j on: no stop, no failure, and room for all that is and comes in. */
  predicate Unhindered(cfg: Config, s: State, turns: seq<Turn>, j: nat)
    requires j <= |turns|
  {
    !s.stop && Undisturbed(turns, j) && AllSucceed(turns, j) && Bytes(s.queue + Coming(turns, j)) <= MaxQueueBytes(cfg)
  }

  /** As much as possible has been written over the latest connection, in order, with `waiting` payloads queued
      before turn j; the others are queued. */
  ghost predicate DeliversMost(s: State, t: State, conn: nat, waiting: nat, coming: seq<Payload>, turns: seq<Turn>,
                               j: nat)
    requires j <= |turns|
  {
    var all := s.queue + coming;
    && t.phase == Streaming && !t.stop && t.conn == conn && t.droppedBytes == s.droppedBytes && t.lost == s.lost
    && exists m: nat :: IsMost(m, waiting, turns, j) && m <= |all|
         && t.queue == all[m..] && Delivered(s.(conn := conn), t, all[..m])
  }

  /** What streaming from state s in the turns from j on promises of the state t and of how it ended. */
  ghost predicate StreamPromise(cfg: Config, s: State, t: State, ending: Ending, turns: seq<Turn>, j: nat)
    requires j <= |turns|
  {
    Unhindered(cfg, s, turns, j) ==>
      ending == OutOfTurns && DeliversMost(s, t, s.conn, |s.queue|, Coming(turns, j), turns, j)
  }

  /** What the worker promises, at the top of its loop in state s, of the state t after all turns: the first of
      them is used up in connecting. */
  ghost predicate RunPromise(cfg: Config, s: State, t: State, turns: seq<Turn>) {
    turns != [] && Unhindered(cfg, s, turns, 0) ==>
      DeliversMost(s, t, s.conn + 1,
                   |s.queue| + |Real(turns[0].before.arrivals)| + |Real(turns[0].during.arrivals)|,
                   Coming(turns, 0), turns, 1)
  }

  lemma StreamingKeepsPromise(cfg: Config, p: Path, turns: seq<Turn>, j: nat)
    requires p.s.phase == Streaming && j <= |turns|
    ensures var r := StreamOn(cfg, p, turns, j); StreamPromise(cfg, p.s, r.p.s, r.ending, turns, j)
  {
    hide StreamOn, IsMost, Delivered, Bytes, MaxQueueBytes;
    if Unhindered(cfg, p.s, turns, j) {
      var m := StreamDelivers(cfg, p, turns, j);
      DeliveredFrom(p.s, p.s.(conn := p.s.conn), StreamOn(cfg, p, turns, j).p.s,
                    (p.s.queue + Coming(turns, j))[..m]);
    }
  }

  lemma RunKeepsPromise(cfg: Config, s: State, turns: seq<Turn>)
    requires s.phase == Idle
    ensures RunPromise(cfg, s, RunOn(cfg, Path([], s), turns, 0).s, turns)
  {
    hide RunOn, IsMost, Delivered, Bytes, MaxQueueBytes, Real, Coming;
    if turns != [] && Unhindered(cfg, s, turns, 0) {
      var m := RunDelivers(cfg, Path([], s), turns, 0);
    }
  }

  /** When nothing comes in, one payload a turn is written, until the queue is empty. */
  lemma MostOfQueue(m: nat, waiting: nat, turns: seq<Turn>, j: nat)
    requires j <= |turns| && Coming(turns, j) == [] && IsMost(m, waiting, turns, j)
    ensures m == if waiting < |turns| - j then waiting else |turns| - j
  {
    forall i | j <= i < |turns| ensures HereBy(turns, j, i) == 0 {
      NothingHere(turns, j, i);
    }
    if j < |turns| { assert m <= waiting + HereBy(turns, j, |turns| - 1) + 0; }
  }

  lemma {:induction false} NothingHere(turns: seq<Turn>, j: nat, i: nat)
    requires j <= i < |turns| && Coming(turns, j) == []
    ensures HereBy(turns, j, i) == 0
    decreases i - j
  {
    hide Real;
    if j < i { NothingHere(turns, j + 1, i); }
  }
}
