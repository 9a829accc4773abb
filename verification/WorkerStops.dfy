/** A request to stop ends the worker's control flow, wherever it is. */
module WorkerStops {
  import opened StreamSession
  import opened WorkerScript
  import opened WorkerProgress

  predicate Requests(turn: Turn) {
    turn.before.stop || turn.during.stop
  }

  lemma OthersStop(cfg: Config, p: Path, outside: Outside)
    ensures var t := OthersOn(cfg, p, outside).s;
      t.phase == p.s.phase && (t.stop <==> p.s.stop || outside.stop)
  {
    hide Arrive;
    ArriveLeavesWorker(cfg, p, outside.arrivals);
  }

  lemma WriteEnds(cfg: Config, q: Path, turn: Turn)
    requires q.s.phase == Streaming && !q.s.stop && q.s.queue != []
    ensures var t := WriteOn(cfg, Go(cfg, q, Take), turn).s;
      t.phase == (if turn.ok then Streaming else Failed) && (t.stop <==> turn.during.stop)
  {
    hide OthersOn, OnWire, ChunkPart, ChunkRest, Bytes, AfterEnqueue, MaxQueueBytes;
    OthersStop(cfg, Go(cfg, q, Take), turn.during);
  }

  /** Streaming ends in the turn behind turn i at the latest, if a stop is set or requested in turn i. */
  lemma {:induction false} StreamStops(cfg: Config, p: Path, turns: seq<Turn>, j: nat, i: nat)
    requires p.s.phase == Streaming && i + 1 < |turns|
    requires if p.s.stop then j == i + 1 else j <= i && Requests(turns[i])
    ensures var r := StreamOn(cfg, p, turns, j);
      && r.j <= i + 2
      && match r.ending
         case Returned => r.p.s.phase == Idle && r.p.s.stop
         case Threw => r.p.s.phase == Failed && (r.p.s.stop || r.j <= i)
         case OutOfTurns => false
    decreases |turns| - j
  {
    hide OthersOn, WriteOn, AfterEnqueue, Bytes, MaxQueueBytes;
    var turn := turns[j];
    var q := OthersOn(cfg, p, turn.before);
    OthersStop(cfg, p, turn.before);
    if !q.s.stop {
      if q.s.queue == [] {
        OthersStop(cfg, q, turn.during);
        var t := OthersOn(cfg, q, turn.during);
        StreamStops(cfg, t, turns, j + 1, if t.s.stop then j else i);
      } else {
        WriteEnds(cfg, q, turn);
        var t := WriteOn(cfg, Go(cfg, q, Take), turn);
        if turn.ok { StreamStops(cfg, t, turns, j + 1, if t.s.stop then j else i); }
      }
    }
  }

  /** At the top of its loop with a stop set, the worker leaves. */
  lemma LeavesAtOnce(cfg: Config, p: Path, turns: seq<Turn>, j: nat)
    requires p.s.phase == Idle && p.s.stop && j < |turns|
    ensures RunOn(cfg, p, turns, j).s.phase == Done
  {
    hide OthersOn, AttemptOn, RecoverOn;
    OthersStop(cfg, p, turns[j].before);
  }

  lemma AttemptStops(cfg: Config, p: Path, turns: seq<Turn>, j: nat, i: nat)
    requires p.s.phase == Connecting && !p.s.stop && j <= i && i + 2 < |turns|
    requires if j == i then turns[j].during.stop else Requests(turns[i])
    ensures var r := AttemptOn(cfg, p, turns, j);
      && r.j <= i + 2
      && match r.ending
         case Returned => r.p.s.phase == Idle && r.p.s.stop
         case Threw => r.p.s.phase == Failed && (r.p.s.stop || r.j <= i)
         case OutOfTurns => false
  {
    hide OthersOn, StreamOn, AfterEnqueue;
    OthersStop(cfg, p, turns[j].during);
    var q := Go(cfg, OthersOn(cfg, p, turns[j].during), if turns[j].ok then ConnectOk else ConnectFail);
    if turns[j].ok { StreamStops(cfg, q, turns, j + 1, if q.s.stop then j else i); }
  }

  lemma RecoverStops(cfg: Config, p: Path, turn: Turn)
    requires p.s.phase == Failed
    ensures var t := RecoverOn(cfg, p, turn).s;
      if p.s.stop || turn.before.stop then t.phase == Done
      else t.phase == Idle && (t.stop <==> turn.during.stop)
  {
    hide OthersOn, AfterEnqueue, Bytes;
    OthersStop(cfg, p, turn.before);
    var q := Go(cfg, OthersOn(cfg, p, turn.before), Catch);
    OthersStop(cfg, Go(cfg, Go(cfg, q, Clear), BeginWait), turn.during);
  }

  /** A stop requested in any turn, with two more behind it, ends the worker: whatever comes in, connects, fails or
      is written before and after. */
  lemma {:induction false} RunStops(cfg: Config, p: Path, turns: seq<Turn>, j: nat, i: nat)
    requires p.s.phase == Idle && !p.s.stop && j <= i && i + 2 < |turns| && Requests(turns[i])
    ensures RunOn(cfg, p, turns, j).s.phase == Done
    decreases |turns| - j
  {
    hide OthersOn, AttemptOn, RecoverOn, AfterEnqueue;
    OthersStop(cfg, p, turns[j].before);
    var q := Go(cfg, OthersOn(cfg, p, turns[j].before), CheckLoop);
    if q.s.phase != Done {
      AttemptStops(cfg, q, turns, j, i);
      var a := AttemptOn(cfg, q, turns, j);
      if a.ending == Returned {
        LeavesAtOnce(cfg, a.p, turns, a.j);
      } else {
        RecoverStops(cfg, a.p, turns[a.j]);
        var r := RecoverOn(cfg, a.p, turns[a.j]);
        if r.s.phase != Done {
          if r.s.stop { LeavesAtOnce(cfg, r, turns, a.j + 1); } else { RunStops(cfg, r, turns, a.j + 1, i); }
        }
      }
    }
  }
}
