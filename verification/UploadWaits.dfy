/** Whether the int arithmetic of an upload session's waits can overflow, over all its runs. */
module UploadWaits {
  import opened Bits
  import opened MachineInt
  import opened Backoff
  import opened StreamSession

  /** The two int products the code forms from a delay of w seconds. */
  predicate FitsInt(w: nat, jitter: nat) {
    w * 1000 + jitter <= INT_MAX && w * 2 <= INT_MAX
  }

  ghost predicate NoRunOverflows(cfg: Config, jitter: nat) {
    forall es: seq<Event> :: IsRun(cfg, Initial(cfg), es) ==> AllFit(After(cfg, Initial(cfg), es).waits, jitter)
  }

  predicate AllFit(waits: seq<nat>, jitter: nat) {
    forall k :: 0 <= k < |waits| ==> FitsInt(waits[k], jitter)
  }

  // ---------- a run in which every attempt to connect fails ----------

  lemma RunCons(cfg: Config, s: State, e: Event, es: seq<Event>)
    requires Enabled(s, e) && IsRun(cfg, Next(cfg, s, e), es)
    ensures IsRun(cfg, s, [e] + es) && After(cfg, s, [e] + es) == After(cfg, Next(cfg, s, e), es)
  {
    hide Enabled, Next;
    assert ([e] + es)[1..] == es;
  }

  /** One failed attempt and the wait after it. */
  function Attempt(later: seq<Event>): seq<Event> {
    [CheckLoop] + ([ConnectFail] + ([Catch] + ([Clear] + ([BeginWait] + ([Wake] + later)))))
  }

  function AfterAttempt(cfg: Config, s: State): State {
    s.(queue := [], queuedBytes := 0, droppedBytes := s.droppedBytes + Bytes(s.queue),
       waits := s.waits + [s.delay], delay := Min(s.delay * 2, cfg.maxSec))
  }

  /** What a failure leads to, until the wait has begun. */
  function AfterFailure(s: State): State {
    s.(phase := Waiting, queue := [], queuedBytes := 0, droppedBytes := s.droppedBytes + Bytes(s.queue),
       waits := s.waits + [s.delay])
  }

  lemma FailAndWait(cfg: Config, s: State, later: seq<Event>)
    requires s.phase == Failed && !s.stop && IsRun(cfg, AfterFailure(s), later)
    ensures var es := [Catch] + ([Clear] + ([BeginWait] + later));
      IsRun(cfg, s, es) && After(cfg, s, es) == After(cfg, AfterFailure(s), later)
  {
    hide IsRun, After, Bytes;
    var s1 := Next(cfg, s, Catch);
    var s2 := Next(cfg, s1, Clear);
    RunCons(cfg, s2, BeginWait, later);
    RunCons(cfg, s1, Clear, [BeginWait] + later);
    RunCons(cfg, s, Catch, [Clear] + ([BeginWait] + later));
  }

  lemma AttemptRuns(cfg: Config, s: State, later: seq<Event>)
    requires s.phase == Idle && !s.stop && IsRun(cfg, AfterAttempt(cfg, s), later)
    ensures IsRun(cfg, s, Attempt(later)) && After(cfg, s, Attempt(later)) == After(cfg, AfterAttempt(cfg, s), later)
  {
    hide IsRun, After, Bytes, Min;
    var s1 := Next(cfg, s, CheckLoop);
    var s2 := Next(cfg, s1, ConnectFail);
    RunCons(cfg, AfterFailure(s2), Wake, later);
    FailAndWait(cfg, s2, [Wake] + later);
    var es := [Catch] + ([Clear] + ([BeginWait] + ([Wake] + later)));
    RunCons(cfg, s1, ConnectFail, es);
    RunCons(cfg, s, CheckLoop, [ConnectFail] + es);
  }

  function Failing(n: nat): seq<Event> {
    if n == 0 then [] else Attempt(Failing(n - 1))
  }

  lemma {:induction false} FailingRuns(cfg: Config, s: State, n: nat)
    requires s.phase == Idle && !s.stop
    ensures IsRun(cfg, s, Failing(n)) && |After(cfg, s, Failing(n)).waits| == |s.waits| + n
    decreases n
  {
    hide Attempt, Bytes, Min;
    if n > 0 {
      FailingRuns(cfg, AfterAttempt(cfg, s), n - 1);
      AttemptRuns(cfg, s, Failing(n - 1));
    }
  }

  // ---------- a run in which a connection succeeds in between ----------

  /** A connection that is made and breaks while a payload is written, and the wait begun after it. */
  function Broken(data: Payload): seq<Event> {
    [CheckLoop] + ([ConnectOk] + ([Enqueue(data)] + ([Take] + ([WriteFail]
      + ([Catch] + ([Clear] + ([BeginWait] + [])))))))
  }

  lemma OneQueued(cfg: Config, s: State, data: Payload)
    requires s.phase == Streaming && !s.stop && s.queue == [] && 0 < |data| <= 256 * 1024
    ensures var t := AfterEnqueue(cfg, s, data);
      t == s.(queue := [data], queuedBytes := t.queuedBytes, droppedBytes := t.droppedBytes, total := t.total,
              lastLog := t.lastLog, enqueued := t.enqueued)
  {
    hide MaxQueueBytes;
    assert s.queue + [data] == [data];
    OnePayload(data);
  }

  lemma TakeAndFail(cfg: Config, s: State, data: Payload)
    requires s.phase == Streaming && !s.stop && s.queue == [data]
    ensures Enabled(s, Take) && Enabled(Next(cfg, s, Take), WriteFail)
    ensures var t := Next(cfg, Next(cfg, s, Take), WriteFail);
      t.phase == Failed && !t.stop && t.waits == s.waits && t.delay == s.delay && t.conn == s.conn
  {
    hide Bytes, MaxQueueBytes, AfterEnqueue;
  }

  lemma NoSteps(cfg: Config, s: State)
    ensures IsRun(cfg, s, []) && After(cfg, s, []) == s
  {
  }

  lemma BrokenRuns(cfg: Config, s: State, data: Payload)
    requires s.phase == Idle && !s.stop && s.queue == [] && 0 < |data| <= 256 * 1024
    ensures IsRun(cfg, s, Broken(data))
    ensures var t := After(cfg, s, Broken(data)); t.waits == s.waits + [s.delay] && t.conn == s.conn + 1
  {
    hide IsRun, After, Bytes, AfterEnqueue;
    var s1 := Next(cfg, s, CheckLoop);
    var s2 := Next(cfg, s1, ConnectOk);
    var s3 := Next(cfg, s2, Enqueue(data));
    OneQueued(cfg, s2, data);
    TakeAndFail(cfg, s3, data);
    var s4 := Next(cfg, s3, Take);
    var s5 := Next(cfg, s4, WriteFail);
    NoSteps(cfg, AfterFailure(s5));
    FailAndWait(cfg, s5, []);
    hide Next, Enabled;
    var es := [Catch] + ([Clear] + ([BeginWait] + []));
    BrokenRest(cfg, s, s1, s2, s3, s4, s5, data, es);
  }

  lemma BrokenRest(cfg: Config, s: State, s1: State, s2: State, s3: State, s4: State, s5: State, data: Payload,
                   es: seq<Event>)
    requires Enabled(s, CheckLoop) && s1 == Next(cfg, s, CheckLoop)
    requires Enabled(s1, ConnectOk) && s2 == Next(cfg, s1, ConnectOk)
    requires Enabled(s2, Enqueue(data)) && s3 == Next(cfg, s2, Enqueue(data))
    requires Enabled(s3, Take) && s4 == Next(cfg, s3, Take)
    requires Enabled(s4, WriteFail) && s5 == Next(cfg, s4, WriteFail) && IsRun(cfg, s5, es)
    ensures var all := [CheckLoop] + ([ConnectOk] + ([Enqueue(data)] + ([Take] + ([WriteFail] + es))));
      IsRun(cfg, s, all) && After(cfg, s, all) == After(cfg, s5, es)
  {
    hide IsRun, After, Next, Enabled;
    RunCons(cfg, s4, WriteFail, es);
    RunCons(cfg, s3, Take, [WriteFail] + es);
    RunCons(cfg, s2, Enqueue(data), [Take] + ([WriteFail] + es));
    RunCons(cfg, s1, ConnectOk, [Enqueue(data)] + ([Take] + ([WriteFail] + es)));
    RunCons(cfg, s, CheckLoop, [ConnectOk] + ([Enqueue(data)] + ([Take] + ([WriteFail] + es))));
  }

  /** After one failed attempt a connection is made and breaks: the wait after it is already the second,
      twice as long as the first. */
  lemma SuccessKeepsTheDelay(cfg: Config, data: Payload)
    requires 2 * cfg.minSec <= cfg.maxSec && 0 < |data| <= 256 * 1024
    ensures var es := Attempt(Broken(data));
      && IsRun(cfg, Initial(cfg), es)
      && var t := After(cfg, Initial(cfg), es); t.conn == 1 && t.waits == [cfg.minSec, 2 * cfg.minSec]
  {
    hide IsRun, After, Bytes, Attempt, Broken;
    var s := AfterAttempt(cfg, Initial(cfg));
    BrokenRuns(cfg, s, data);
    AttemptRuns(cfg, Initial(cfg), Broken(data));
  }

  // ---------- the exact condition ----------

  predicate AllBelow(waits: seq<nat>, max: nat) {
    forall k :: 0 <= k < |waits| ==> waits[k] <= max
  }

  lemma BoundedWaitsFit(cfg: Config, jitter: nat, waits: seq<nat>)
    requires cfg.maxSec * 1000 + jitter <= INT_MAX && AllBelow(waits, cfg.maxSec)
    ensures AllFit(waits, jitter)
  {
  }

  lemma WaitsStayBelow(cfg: Config, es: seq<Event>)
    requires cfg.minSec <= cfg.maxSec && IsRun(cfg, Initial(cfg), es)
    ensures AllBelow(After(cfg, Initial(cfg), es).waits, cfg.maxSec)
  {
    hide IsRun, After;
    WaitsDouble(cfg, es);
  }

  /** In all runs, over any number of failures, no product overflows an int exactly when the configured
      maximum in milliseconds, the jitter added, is an int. */
  lemma RunsFitExactly(cfg: Config, jitter: nat)
    requires 1 <= cfg.minSec <= cfg.maxSec && jitter < 1000
    ensures NoRunOverflows(cfg, jitter) <==> cfg.maxSec * 1000 + jitter <= INT_MAX
  {
    hide IsRun, After, AllFit, FitsInt;
    if cfg.maxSec * 1000 + jitter <= INT_MAX {
      forall es: seq<Event> | IsRun(cfg, Initial(cfg), es) ensures AllFit(After(cfg, Initial(cfg), es).waits, jitter) {
        WaitsStayBelow(cfg, es);
        BoundedWaitsFit(cfg, jitter, After(cfg, Initial(cfg), es).waits);
      }
    }
    if NoRunOverflows(cfg, jitter) {
      var es := Failing(cfg.maxSec + 1);
      FailingRuns(cfg, Initial(cfg), cfg.maxSec + 1);
      LastWait(cfg, es);
      WaitOfMaximum(After(cfg, Initial(cfg), es).waits, cfg.maxSec, jitter);
    }
  }

  lemma LastWait(cfg: Config, es: seq<Event>)
    requires 1 <= cfg.minSec <= cfg.maxSec && IsRun(cfg, Initial(cfg), es)
    requires |After(cfg, Initial(cfg), es).waits| == cfg.maxSec + 1
    ensures After(cfg, Initial(cfg), es).waits[cfg.maxSec] == cfg.maxSec
  {
    hide IsRun, After, Pow2, Delay, Min;
    WaitsDouble(cfg, es);
    MaximumIsReached(cfg.minSec, cfg.maxSec);
    DelayClosedForm(cfg.minSec, cfg.maxSec, cfg.maxSec);
  }

  lemma WaitOfMaximum(waits: seq<nat>, max: nat, jitter: nat)
    requires |waits| == max + 1 && waits[max] == max && AllFit(waits, jitter)
    ensures max * 1000 + jitter <= INT_MAX
  {
    assert FitsInt(waits[max], jitter);
  }
}
