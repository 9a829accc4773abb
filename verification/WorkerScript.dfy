/** What the worker of an upload session does, as a function of the session's state and of what happens to it:
    the events of its control flow, and the progress they make. */
module WorkerScript {
  import opened StreamSession

  /** What callbacks and a request to stop do at one point of the worker. */
  datatype Outside = Outside(arrivals: seq<Payload>, stop: bool)

  /** One action of the worker: what happens before it and while it lasts, its outcome, how many bytes of a
      chunk the socket took first, and the jitter of a wait. */
  datatype Turn = Turn(before: Outside, during: Outside, ok: bool, sent: nat, jitter: nat)

  /** The events so far, and the state they have led to. */
  datatype Path = Path(es: seq<Event>, s: State)

  /** One more event, if it can happen. */
  function Go(cfg: Config, p: Path, e: Event): Path {
    if Enabled(p.s, e) then Path(p.es + [e], Next(cfg, p.s, e)) else p
  }

  // ---------- the other threads ----------

  /** Callbacks; one without data changes nothing. */
  function Arrive(cfg: Config, p: Path, arrivals: seq<Payload>): Path
    decreases |arrivals|
  {
    if arrivals == [] then p else Arrive(cfg, Go(cfg, p, Enqueue(arrivals[0])), arrivals[1..])
  }

  function OthersOn(cfg: Config, p: Path, outside: Outside): Path {
    var q := Arrive(cfg, p, outside.arrivals);
    if outside.stop then Go(cfg, q, Stop) else q
  }

  // ---------- the worker ----------

  /** How connecting and streaming ends: on a stop, by an exception, or not within the turns considered. */
  datatype Ending = Returned | Threw | OutOfTurns

  datatype Streamed = Streamed(p: Path, j: nat, ending: Ending)

  /** The write of the payload taken: maybe a part of its chunk, then the outcome. */
  function WriteOn(cfg: Config, p: Path, turn: Turn): Path {
    var q := Go(cfg, OthersOn(cfg, p, turn.during), SendSome(turn.sent));
    Go(cfg, q, if turn.ok then WriteOk else WriteFail)
  }

  /** Streaming in the turns from j on. */
  function StreamOn(cfg: Config, p: Path, turns: seq<Turn>, j: nat): (r: Streamed)
    requires j <= |turns|
    ensures j <= r.j <= |turns|
    decreases |turns| - j
  {
    if j == |turns| then Streamed(p, j, OutOfTurns) else
    var q := OthersOn(cfg, p, turns[j].before);
    if q.s.stop then Streamed(Go(cfg, q, ReturnOnStop), j + 1, Returned)
    else if q.s.queue == [] then StreamOn(cfg, OthersOn(cfg, q, turns[j].during), turns, j + 1)
    else
      var w := WriteOn(cfg, Go(cfg, q, Take), turns[j]);
      if turns[j].ok then StreamOn(cfg, w, turns, j + 1) else Streamed(w, j + 1, Threw)
  }

  function AttemptOn(cfg: Config, p: Path, turns: seq<Turn>, j: nat): (r: Streamed)
    requires j < |turns|
    ensures j < r.j <= |turns|
  {
    var q := Go(cfg, OthersOn(cfg, p, turns[j].during), if turns[j].ok then ConnectOk else ConnectFail);
    if turns[j].ok then StreamOn(cfg, q, turns, j + 1) else Streamed(q, j + 1, Threw)
  }

  function WaitOn(cfg: Config, p: Path, turn: Turn): Path {
    Go(cfg, OthersOn(cfg, Go(cfg, Go(cfg, p, Clear), BeginWait), turn.during), Wake)
  }

  /** What follows an exception. */
  function RecoverOn(cfg: Config, p: Path, turn: Turn): Path {
    var q := Go(cfg, OthersOn(cfg, p, turn.before), Catch);
    if q.s.phase == Done then q else WaitOn(cfg, q, turn)
  }

  /** The worker in the turns from j on. */
  function RunOn(cfg: Config, p: Path, turns: seq<Turn>, j: nat): Path
    requires j <= |turns|
    decreases |turns| - j
  {
    if j == |turns| then p else
    var q := Go(cfg, OthersOn(cfg, p, turns[j].before), CheckLoop);
    if q.s.phase == Done then q else
    var a := AttemptOn(cfg, q, turns, j);
    match a.ending
    case OutOfTurns => a.p
    case Returned => RunOn(cfg, a.p, turns, a.j)
    case Threw =>
      if a.j == |turns| then a.p else
      var r := RecoverOn(cfg, a.p, turns[a.j]);
      if r.s.phase == Done then r else RunOn(cfg, r, turns, a.j + 1)
  }

  // ---------- whatever the worker does is a run ----------

  lemma {:induction false} RunSnoc(cfg: Config, s: State, es: seq<Event>, e: Event)
    requires IsRun(cfg, s, es) && Enabled(After(cfg, s, es), e)
    ensures IsRun(cfg, s, es + [e]) && After(cfg, s, es + [e]) == Next(cfg, After(cfg, s, es), e)
    decreases |es|
  {
    hide Enabled, Next;
    if es == [] {
      assert [] + [e] == [e] && [e][1..] == [];
      assert IsRun(cfg, Next(cfg, s, e), [e][1..]);
    } else {
      RunSnoc(cfg, Next(cfg, s, es[0]), es[1..], e);
      assert (es + [e])[1..] == es[1..] + [e];
    }
  }

  /** The events lead from the first state to the present one. */
  ghost predicate Leads(cfg: Config, start: State, p: Path) {
    IsRun(cfg, start, p.es) && After(cfg, start, p.es) == p.s
  }

  lemma GoLeads(cfg: Config, start: State, p: Path, e: Event)
    requires Leads(cfg, start, p)
    ensures Leads(cfg, start, Go(cfg, p, e))
  {
    hide Enabled, Next, IsRun, After;
    if Enabled(p.s, e) { RunSnoc(cfg, start, p.es, e); }
  }

  lemma {:induction false} ArriveLeads(cfg: Config, start: State, p: Path, arrivals: seq<Payload>)
    requires Leads(cfg, start, p)
    ensures Leads(cfg, start, Arrive(cfg, p, arrivals))
    decreases |arrivals|
  {
    hide Leads, Go;
    if arrivals != [] {
      GoLeads(cfg, start, p, Enqueue(arrivals[0]));
      ArriveLeads(cfg, start, Go(cfg, p, Enqueue(arrivals[0])), arrivals[1..]);
    }
  }

  lemma OthersLead(cfg: Config, start: State, p: Path, outside: Outside)
    requires Leads(cfg, start, p)
    ensures Leads(cfg, start, OthersOn(cfg, p, outside))
  {
    hide Leads, Go, Arrive;
    ArriveLeads(cfg, start, p, outside.arrivals);
    GoLeads(cfg, start, Arrive(cfg, p, outside.arrivals), Stop);
  }

  lemma WriteLeads(cfg: Config, start: State, p: Path, turn: Turn)
    requires Leads(cfg, start, p)
    ensures Leads(cfg, start, WriteOn(cfg, p, turn))
  {
    hide Leads, Go, OthersOn;
    OthersLead(cfg, start, p, turn.during);
    GoLeads(cfg, start, OthersOn(cfg, p, turn.during), SendSome(turn.sent));
    GoLeads(cfg, start, Go(cfg, OthersOn(cfg, p, turn.during), SendSome(turn.sent)),
            if turn.ok then WriteOk else WriteFail);
  }

  lemma {:induction false} StreamLeads(cfg: Config, start: State, p: Path, turns: seq<Turn>, j: nat)
    requires Leads(cfg, start, p) && j <= |turns|
    ensures Leads(cfg, start, StreamOn(cfg, p, turns, j).p)
    decreases |turns| - j
  {
    hide Leads, Go, OthersOn, WriteOn;
    if j < |turns| {
      var q := OthersOn(cfg, p, turns[j].before);
      OthersLead(cfg, start, p, turns[j].before);
      GoLeads(cfg, start, q, ReturnOnStop);
      GoLeads(cfg, start, q, Take);
      OthersLead(cfg, start, q, turns[j].during);
      WriteLeads(cfg, start, Go(cfg, q, Take), turns[j]);
      StreamLeads(cfg, start, OthersOn(cfg, q, turns[j].during), turns, j + 1);
      StreamLeads(cfg, start, WriteOn(cfg, Go(cfg, q, Take), turns[j]), turns, j + 1);
    }
  }

  lemma AttemptLeads(cfg: Config, start: State, p: Path, turns: seq<Turn>, j: nat)
    requires Leads(cfg, start, p) && j < |turns|
    ensures Leads(cfg, start, AttemptOn(cfg, p, turns, j).p)
  {
    hide Leads, Go, OthersOn, StreamOn;
    OthersLead(cfg, start, p, turns[j].during);
    var e := if turns[j].ok then ConnectOk else ConnectFail;
    GoLeads(cfg, start, OthersOn(cfg, p, turns[j].during), e);
    StreamLeads(cfg, start, Go(cfg, OthersOn(cfg, p, turns[j].during), e), turns, j + 1);
  }

  lemma RecoverLeads(cfg: Config, start: State, p: Path, turn: Turn)
    requires Leads(cfg, start, p)
    ensures Leads(cfg, start, RecoverOn(cfg, p, turn))
  {
    hide Leads, Go, OthersOn;
    OthersLead(cfg, start, p, turn.before);
    var q := Go(cfg, OthersOn(cfg, p, turn.before), Catch);
    GoLeads(cfg, start, OthersOn(cfg, p, turn.before), Catch);
    GoLeads(cfg, start, q, Clear);
    GoLeads(cfg, start, Go(cfg, q, Clear), BeginWait);
    var w := Go(cfg, Go(cfg, q, Clear), BeginWait);
    OthersLead(cfg, start, w, turn.during);
    GoLeads(cfg, start, OthersOn(cfg, w, turn.during), Wake);
  }

  lemma {:induction false} RunLeads(cfg: Config, start: State, p: Path, turns: seq<Turn>, j: nat)
    requires Leads(cfg, start, p) && j <= |turns|
    ensures Leads(cfg, start, RunOn(cfg, p, turns, j))
    decreases |turns| - j
  {
    hide Leads, Go, OthersOn, AttemptOn, RecoverOn;
    if j < |turns| {
      var q := Go(cfg, OthersOn(cfg, p, turns[j].before), CheckLoop);
      OthersLead(cfg, start, p, turns[j].before);
      GoLeads(cfg, start, OthersOn(cfg, p, turns[j].before), CheckLoop);
      AttemptLeads(cfg, start, q, turns, j);
      var a := AttemptOn(cfg, q, turns, j);
      RunLeads(cfg, start, a.p, turns, a.j);
      if a.j < |turns| {
        RecoverLeads(cfg, start, a.p, turns[a.j]);
        RunLeads(cfg, start, RecoverOn(cfg, a.p, turns[a.j]), turns, a.j + 1);
      }
    }
  }
}
