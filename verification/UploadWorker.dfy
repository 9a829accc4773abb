/** The worker of an upload session: its control flow over the steps of the session, with the other threads
    acting in between. What it does is a function of the session and of what happens to it. */
module UploadWorker {
  import opened StreamSession
  import opened WorkerScript
  import opened WorkerProgress

  /** Callbacks and stop between two steps of the worker. */
  method Others(session: UploadSession, outside: Outside, ghost p: Path) returns (ghost p': Path)
    requires session.Valid() && p.s == session.View()
    modifies session
    ensures session.Valid() && p' == OthersOn(session.cfg, p, outside) && p'.s == session.View()
    ensures session.phase == old(session.phase)
  {
    hide Inv, Next;
    p' := p;
    assert outside.arrivals[0..] == outside.arrivals;
    for i := 0 to |outside.arrivals|
      invariant session.Valid() && p'.s == session.View() && session.phase == old(session.phase)
      invariant Arrive(session.cfg, p', outside.arrivals[i..]) == Arrive(session.cfg, p, outside.arrivals)
    {
      assert outside.arrivals[i..][1..] == outside.arrivals[i + 1..];
      p' := Go(session.cfg, p', Event.Enqueue(outside.arrivals[i]));
      if outside.arrivals[i] != [] {
        session.Enqueue(outside.arrivals[i]);
      }
    }
    if outside.stop {
      p' := Go(session.cfg, p', Stop);
      session.RequestStop();
    }
  }

  method WriteChunk(session: UploadSession, payload: Payload, turn: Turn, ghost p: Path)
    returns (ok: bool, ghost p': Path)
    requires session.Valid() && p.s == session.View()
    requires session.phase.Writing? && session.phase.data == payload && session.phase.sent == 0
    modifies session
    ensures session.Valid() && p' == WriteOn(session.cfg, p, turn) && p'.s == session.View()
    ensures ok == turn.ok && session.phase == if ok then Streaming else Failed
  {
    hide Inv, Next;
    p' := Others(session, turn.during, p);
    p' := Go(session.cfg, p', SendSome(turn.sent));
    if turn.sent < |ChunkedUpload.EncodeChunk(payload)| {
      session.BytesWentOut(turn.sent);
    }
    ok := turn.ok;
    p' := Go(session.cfg, p', if ok then WriteOk else WriteFail);
    session.WriteReturned(ok);
  }

  /** The streaming loop: wait for a payload or a stop, take, write. */
  method StreamPayloads(session: UploadSession, turns: seq<Turn>, first: nat, ghost p: Path)
    returns (j: nat, ending: Ending, ghost p': Path)
    requires session.Valid() && p.s == session.View() && session.phase == Streaming && first <= |turns|
    modifies session
    ensures session.Valid() && p'.s == session.View()
    ensures Streamed(p', j, ending) == StreamOn(session.cfg, p, turns, first)
    ensures StreamPromise(session.cfg, old(session.View()), session.View(), ending, turns, first)
    ensures ending.Returned? ==> session.phase == Idle && session.stop
    ensures ending.Threw? ==> session.phase == Failed
    ensures ending.OutOfTurns? ==> session.phase == Streaming
  {
    hide Inv, Next, OthersOn, WriteOn, StreamPromise;
    StreamingKeepsPromise(session.cfg, p, turns, first);
    j, p' := first, p;
    while j < |turns|
      invariant first <= j <= |turns| && session.phase == Streaming
      invariant session.Valid() && p'.s == session.View()
      invariant StreamOn(session.cfg, p', turns, j) == StreamOn(session.cfg, p, turns, first)
    {
      var turn := turns[j];
      j := j + 1;
      p' := Others(session, turn.before, p');
      if session.stop {
        p' := Go(session.cfg, p', ReturnOnStop);
        session.StreamingReturned();
        ending := Returned;
        return;
      }
      if session.queue != [] {
        p' := Go(session.cfg, p', Take);
        var payload := session.TakeFront();
        var ok;
        ok, p' := WriteChunk(session, payload, turn, p');
        if !ok {
          ending := Threw;
          return;
        }
      } else {
        p' := Others(session, turn.during, p');
      }
    }
    ending := OutOfTurns;
  }

  method ConnectAndStream(session: UploadSession, turns: seq<Turn>, first: nat, ghost p: Path)
    returns (j: nat, ending: Ending, ghost p': Path)
    requires session.Valid() && p.s == session.View() && session.phase == Connecting && first < |turns|
    modifies session
    ensures session.Valid() && p'.s == session.View()
    ensures Streamed(p', j, ending) == AttemptOn(session.cfg, p, turns, first)
    ensures ending.Returned? ==> session.phase == Idle && session.stop
    ensures ending.Threw? ==> session.phase == Failed
    ensures ending.OutOfTurns? ==> session.phase == Streaming
  {
    hide Inv, Next, OthersOn, StreamOn;
    var turn := turns[first];
    p' := Others(session, turn.during, p);
    p' := Go(session.cfg, p', if turn.ok then ConnectOk else ConnectFail);
    session.SourceReturned(turn.ok);
    if !turn.ok {
      return first + 1, Threw, p';
    }
    j, ending, p' := StreamPayloads(session, turns, first + 1, p');
  }

  /** What follows an exception: leave when stopping, otherwise discard the queue and wait. */
  method Recover(session: UploadSession, turn: Turn, ghost p: Path) returns (leave: bool, ghost p': Path)
    requires session.Valid() && p.s == session.View() && session.phase == Failed
    modifies session
    ensures session.Valid() && p' == RecoverOn(session.cfg, p, turn) && p'.s == session.View()
    ensures session.phase == if leave then Done else Idle
  {
    hide Inv, Next, OthersOn, WaitOn;
    p' := Others(session, turn.before, p);
    p' := Go(session.cfg, p', Catch);
    leave := session.Caught();
    if leave {
      return;
    }
    p' := DiscardAndWait(session, turn, p');
  }

  method DiscardAndWait(session: UploadSession, turn: Turn, ghost p: Path) returns (ghost p': Path)
    requires session.Valid() && p.s == session.View() && session.phase == Clearing
    modifies session
    ensures session.Valid() && p' == WaitOn(session.cfg, p, turn) && p'.s == session.View()
    ensures session.phase == Idle
  {
    hide Inv, Next, OthersOn;
    p' := Go(session.cfg, p, Clear);
    session.ClearQueueLocked();
    p' := Go(session.cfg, p', BeginWait);
    var ms := session.WaitBegins(turn.jitter);
    p' := Others(session, turn.during, p');
    p' := Go(session.cfg, p', Wake);
    session.WaitEnded();
  }

  /** The worker: connect and stream, recover, and again, until it leaves or the turns considered are over.
      The events are those of the script, and the session has gone through them as a run of the transition
      system. */
  method Run(session: UploadSession, turns: seq<Turn>) returns (done: bool, ghost es: seq<Event>)
    requires session.Valid() && session.phase == Idle
    modifies session
    ensures session.Valid()
    ensures Path(es, session.View()) == RunOn(session.cfg, Path([], old(session.View())), turns, 0)
    ensures IsRun(session.cfg, old(session.View()), es)
    ensures session.View() == After(session.cfg, old(session.View()), es)
    ensures done <==> session.phase == Done
    ensures RunPromise(session.cfg, old(session.View()), session.View(), turns)
  {
    hide Inv, Next, IsRun, After, OthersOn, AttemptOn, RecoverOn, RunPromise;
    ghost var start := session.View();
    RunKeepsPromise(session.cfg, start, turns);
    ghost var p := Path([], start);
    WholeRunLeads(session.cfg, start, turns);
    es := [];
    var j := 0;
    while j < |turns|
      invariant j <= |turns| && session.phase == Idle
      invariant session.Valid() && p.s == session.View() && p.es == es
      invariant RunOn(session.cfg, p, turns, j) == RunOn(session.cfg, Path([], start), turns, 0)
    {
      p := Others(session, turns[j].before, p);
      p := Go(session.cfg, p, CheckLoop);
      var go := session.KeepsRunning();
      if !go {
        return true, p.es;
      }
      var ending;
      j, ending, p := ConnectAndStream(session, turns, j, p);
      if ending.OutOfTurns? || (ending.Threw? && j == |turns|) {
        return false, p.es;
      }
      if ending.Threw? {
        var leave;
        leave, p := Recover(session, turns[j], p);
        j := j + 1;
        if leave {
          return true, p.es;
        }
      }
      es := p.es;
    }
    done := false;
  }

  lemma WholeRunLeads(cfg: Config, start: State, turns: seq<Turn>)
    ensures var p := RunOn(cfg, Path([], start), turns, 0);
      IsRun(cfg, start, p.es) && After(cfg, start, p.es) == p.s
  {
    hide RunOn;
    assert Leads(cfg, start, Path([], start));
    RunLeads(cfg, start, Path([], start), turns, 0);
  }
}
