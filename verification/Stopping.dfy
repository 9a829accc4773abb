/** A stop ends the worker of an upload session within a fixed number of its steps. */
module Stopping {
  import opened StreamSession
  import opened UploadWaits

  /** At most how many steps of the worker lie between a phase and its end, once a stop was requested. */
  function Rank(s: State): nat {
    match s.phase
    case Done => 0
    case Idle => 1
    case Failed => 1
    case Streaming => 2
    case Waiting => 2
    case Writing(_, _, _) => 3
    case Connecting => 3
    case Cleared => 3
    case Clearing => 4
  }

  /** A step that changes where the worker is: neither another thread's, nor bytes of a chunk going out. */
  predicate IsWorkerStep(e: Event) {
    !e.Enqueue? && !e.Stop? && !e.SendSome?
  }

  function WorkerSteps(es: seq<Event>): nat {
    if es == [] then 0 else (if IsWorkerStep(es[0]) then 1 else 0) + WorkerSteps(es[1..])
  }

  /** The writes there will be at most, and the connections: those made, and the one under way. */
  function WritesAhead(s: State): nat { |s.written| + if s.phase.Writing? then 1 else 0 }

  function ConnectionsAhead(s: State): nat { s.conn + if s.phase == Connecting then 1 else 0 }

  lemma StopLowersRank(cfg: Config, s: State, e: Event)
    requires s.stop && Enabled(s, e)
    ensures var t := Next(cfg, s, e);
      && t.stop && !e.Take? && Rank(t) + (if IsWorkerStep(e) then 1 else 0) <= Rank(s)
      && WritesAhead(t) <= WritesAhead(s) && ConnectionsAhead(t) <= ConnectionsAhead(s)
  {
    hide AfterEnqueue;
    if e.Enqueue? { EnqueueLeavesWorker(cfg, s, e.data); }
  }

  lemma EnqueueLeavesWorker(cfg: Config, s: State, data: Payload)
    ensures var t := AfterEnqueue(cfg, s, data);
      t.phase == s.phase && t.stop == s.stop && t.written == s.written && t.conn == s.conn
  {
  }

  /** With stop set, whatever the threads do: no payload is taken any more, only the write and the
      connection under way are completed, and at most Rank(s) <= 4 steps of the worker follow, after which
      it is done. */
  lemma {:induction false} StopEndsTheWorker(cfg: Config, s: State, es: seq<Event>)
    requires s.stop && IsRun(cfg, s, es)
    ensures var t := After(cfg, s, es);
      && t.stop && Take !in es
      && WorkerSteps(es) + Rank(t) <= Rank(s) <= 4
      && (WorkerSteps(es) == Rank(s) ==> t.phase == Done)
      && WritesAhead(t) <= WritesAhead(s) && ConnectionsAhead(t) <= ConnectionsAhead(s)
    decreases |es|
  {
    hide Next, Enabled;
    if es != [] {
      StopLowersRank(cfg, s, es[0]);
      StopEndsTheWorker(cfg, Next(cfg, s, es[0]), es[1..]);
      assert es == [es[0]] + es[1..];
    }
  }

  /** What the worker can do next. */
  function WorkerStep(s: State): (e: Event)
    requires s.stop && s.phase != Done
    ensures Enabled(s, e) && IsWorkerStep(e)
  {
    match s.phase
    case Idle => CheckLoop
    case Connecting => ConnectFail
    case Streaming => ReturnOnStop
    case Writing(_, _, _) => WriteFail
    case Failed => Catch
    case Clearing => Clear
    case Cleared => BeginWait
    case Waiting => Wake
  }

  /** It is never stuck before it is done: from every state with stop set its own steps lead to the end. */
  lemma {:induction false} StoppedWorkerFinishes(cfg: Config, s: State) returns (es: seq<Event>)
    requires s.stop
    ensures IsRun(cfg, s, es) && After(cfg, s, es).phase == Done
    ensures |es| <= Rank(s) && forall e :: e in es ==> IsWorkerStep(e)
    decreases Rank(s)
  {
    hide Next, Enabled;
    if s.phase == Done {
      es := [];
    } else {
      var e := WorkerStep(s);
      StopLowersRank(cfg, s, e);
      var later := StoppedWorkerFinishes(cfg, Next(cfg, s, e));
      RunCons(cfg, s, e, later);
      es := [e] + later;
    }
  }
}
