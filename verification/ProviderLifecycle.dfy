/**
 The start-up protocol of one MCP provider as atomic steps between awaits
 (butler/mcp_client/client.py, `_async_ensure_started`, `_on_start_task_done`,
 `_schedule_background_start`, `_background_warmup`).
 */
module ProviderLifecycle {
  import opened PyText
  import opened ProviderStatus

  /** `InStart`: `connection.start()` has not finished.  `Cleaning`: a failed warmup is stopping the connection. */
  datatype Phase = InStart | Cleaning | DoneOk | DoneBad

  /** A task that calls `connection.start()`: a foreground start with its done callback, or a background warmup. */
  datatype Task = Task(warmup: bool, phase: Phase, callbackDue: bool)

  /** Where a foreground call is suspended; `cause` is the start whose failure is about to be marked, `None` for an operation. */
  datatype Caller = Waiting(task: nat) | Failing(cause: Option<nat>) | Using

  datatype State = State(
    record: Record,
    running: bool,                 // connection.is_running
    pending: Option<nat>,          // the entry of _pending_starts
    tasks: seq<Task>,
    callers: map<nat, Caller>,
    failing: set<nat>)             // the starts whose failure marking, spawned by a done callback, has yet to run

  datatype Step =
    | Enter(call: nat, force: bool)        // _async_ensure_started up to its first await
    | UseReady(call: nat)                  // discovery talks to a deferred provider that is ready
    | Wake(call: nat)                      // asyncio.wait returned a finished task
    | TimeOut(call: nat)
    | CancelCall(call: nat)
    | Cleaned(call: nat, stopped: bool)    // the stop() before a failure marking is over; it may fail or time out
    | Used(call: nat, ok: bool)            // the operation on the connection returned or raised
    | Schedule                             // _schedule_background_start
    | StopAll                              // _async_stop
    | SessionOpens(task: nat)              // is_running turns true during start()
    | ConnectionDown                       // it turns false: the process died, or a stop() under way has taken effect
    | Finishes(task: nat, ok: bool)        // connection.start() returns, or raises or is cancelled
    | CancelledUnstarted(task: nat)        // a warmup is cancelled before its first instruction
    | Callback(task: nat)                  // _on_start_task_done
    | FailureMarked(task: nat, stopped: bool) // a failure task spawned by a callback has run
    | WarmupCleaned(task: nat, stopped: bool) // the warmup's own failure marking, and its `finally`

  const START: State := State(NEW_PROVIDER, false, None, [], map[], {})

  predicate Finished(t: Task) {
    t.phase == DoneOk || t.phase == DoneBad
  }

  predicate WellFormed(s: State) {
    && (s.pending.Some? ==> s.pending.value < |s.tasks|)
    && (forall call :: call in s.callers && s.callers[call].Waiting? ==> s.callers[call].task < |s.tasks|)
    && (forall call :: call in s.callers && s.callers[call].Failing? && s.callers[call].cause.Some? ==>
          s.callers[call].cause.value < |s.tasks|)
    && (forall t :: t in s.failing ==> t < |s.tasks| && !s.tasks[t].warmup && s.tasks[t].phase == DoneBad && !s.tasks[t].callbackDue)
  }

  predicate PendingFinished(s: State)
    requires WellFormed(s)
  {
    s.pending.Some? && Finished(s.tasks[s.pending.value])
  }

  predicate Enabled(s: State, step: Step)
    requires WellFormed(s)
  {
    match step
    case Enter(call, _) => call !in s.callers
    case UseReady(call) => call !in s.callers && s.record.healthy && s.running
    case Wake(call) => call in s.callers && s.callers[call].Waiting? && Finished(s.tasks[s.callers[call].task])
    case TimeOut(call) => call in s.callers && s.callers[call].Waiting? && !Finished(s.tasks[s.callers[call].task])
    case CancelCall(call) => call in s.callers
    case Cleaned(call, _) => call in s.callers && s.callers[call].Failing?
    case Used(call, _) => call in s.callers && s.callers[call].Using?
    case Schedule => true
    case StopAll => true
    case SessionOpens(t) => t < |s.tasks| && s.tasks[t].phase == InStart
    case ConnectionDown => s.running
    case Finishes(t, _) => t < |s.tasks| && s.tasks[t].phase == InStart
    case CancelledUnstarted(t) => t < |s.tasks| && s.tasks[t].warmup && s.tasks[t].phase == InStart
    case Callback(t) => t < |s.tasks| && !s.tasks[t].warmup && Finished(s.tasks[t]) && s.tasks[t].callbackDue
    case FailureMarked(t, _) => t in s.failing
    case WarmupCleaned(t, _) => t < |s.tasks| && s.tasks[t].warmup && s.tasks[t].phase == Cleaning
  }

  function Fail(r: Record, threshold: nat): Record {
    MarkedFailed(r, "startup failed", threshold, true)
  }

  /** `if self._pending_starts.get(name) is task: pop` */
  function PopIf(pending: Option<nat>, task: nat): Option<nat> {
    if pending == Some(task) then None else pending
  }

  /** The phase shown while a start that is already in flight is left alone. */
  function InFlightPhase(r: Record): Status {
    if r.status == Warming then Warming else if r.failures > 0 then Reconnecting else Starting
  }

  function EnterStep(s: State, call: nat, force: bool): State
    requires WellFormed(s)
  {
    if s.running then
      s.(record := MarkedHealthy(s.record), callers := s.callers[call := Using])
    else if PendingFinished(s) then
      if s.tasks[s.pending.value].phase == DoneOk
      then s.(pending := None, record := MarkedHealthy(s.record), callers := s.callers[call := Using])
      else s.(pending := None, callers := s.callers[call := Failing(s.pending)])
    else if s.pending.Some? then
      s.(record := Transitioned(s.record, InFlightPhase(s.record), false, Some("startup is already in progress")))
    else if s.record.failures > 0 && !force then
      s
    else
      s.(record := Transitioned(s.record, if s.record.failures > 0 then Reconnecting else Starting, false, None),
         tasks := s.tasks + [Task(false, InStart, false)],
         pending := Some(|s.tasks|),
         callers := s.callers[call := Waiting(|s.tasks|)])
  }

  function ScheduleStep(s: State): State
    requires WellFormed(s)
  {
    if s.running then
      s.(record := MarkedHealthy(s.record))
    else if s.pending.Some? && !PendingFinished(s) then
      s
    else
      s.(record := Transitioned(s.record, Warming, false, None),
         tasks := s.tasks + [Task(true, InStart, false)],
         pending := Some(|s.tasks|))
  }

  function FinishStep(s: State, t: nat, ok: bool): State
    requires t < |s.tasks|
  {
    if !s.tasks[t].warmup then
      s.(tasks := s.tasks[t := Task(false, if ok then DoneOk else DoneBad, true)])
    else if ok then
      s.(tasks := s.tasks[t := Task(true, DoneOk, false)],
         pending := PopIf(s.pending, t),
         record := MarkedHealthy(s.record))
    else
      s.(tasks := s.tasks[t := Task(true, Cleaning, false)])
  }

  function Apply(s: State, step: Step, threshold: nat): State
    requires WellFormed(s) && Enabled(s, step)
  {
    match step
    case Enter(call, force) => EnterStep(s, call, force)
    case UseReady(call) => s.(callers := s.callers[call := Using])
    case Wake(call) =>
      // The entry is popped whatever it holds.
      if s.tasks[s.callers[call].task].phase == DoneOk
      then s.(pending := None, record := MarkedHealthy(s.record), callers := s.callers[call := Using])
      else s.(pending := None, callers := s.callers[call := Failing(Some(s.callers[call].task))])
    case TimeOut(call) => s.(record := Fail(s.record, threshold), callers := s.callers - {call})
    case CancelCall(call) =>
      if s.callers[call].Waiting? && Finished(s.tasks[s.callers[call].task])
      then s.(callers := s.callers[call := Failing(Some(s.callers[call].task))])
      else s.(callers := s.callers - {call})
    case Cleaned(call, stopped) => s.(record := Fail(s.record, threshold), running := s.running && !stopped, callers := s.callers - {call})
    case Used(call, ok) =>
      if ok then s.(record := MarkedHealthy(s.record), callers := s.callers - {call})
      else s.(callers := s.callers[call := Failing(None)])
    case Schedule => ScheduleStep(s)
    case StopAll => s.(record := MarkedStopped(s.record), running := false)
    case SessionOpens(_) => s.(running := true)
    case ConnectionDown => s.(running := false)
    case Finishes(t, ok) => FinishStep(s, t, ok)
    case CancelledUnstarted(t) => s.(tasks := s.tasks[t := Task(true, DoneBad, false)])
    case Callback(t) =>
      var popped := s.(tasks := s.tasks[t := s.tasks[t].(callbackDue := false)], pending := PopIf(s.pending, t));
      if s.tasks[t].phase == DoneOk then popped.(record := MarkedHealthy(s.record))
      else popped.(failing := s.failing + {t})
    case FailureMarked(t, stopped) => s.(record := Fail(s.record, threshold), running := s.running && !stopped, failing := s.failing - {t})
    case WarmupCleaned(t, stopped) =>
      s.(tasks := s.tasks[t := Task(true, DoneOk, false)],
         record := Fail(s.record, threshold), running := s.running && !stopped, pending := PopIf(s.pending, t))
  }

  /** A run: each step is enabled when its turn comes. */
  ghost predicate Run(from: State, steps: seq<Step>, to: State, threshold: nat)
    decreases |steps|
  {
    WellFormed(from) &&
    if steps == [] then from == to
    else Enabled(from, steps[0]) && Run(Apply(from, steps[0], threshold), steps[1..], to, threshold)
  }

  // ---------------------------------------------------------------------------
  // The record is consistent in every interleaving
  // ---------------------------------------------------------------------------

  lemma EntryKeepsWellFormed(s: State, step: Step, threshold: nat)
    requires WellFormed(s) && Enabled(s, step) && (step.Enter? || step.Schedule?)
    ensures WellFormed(Apply(s, step, threshold))
  {
    hide MarkedHealthy;
    hide Transitioned;
  }

  lemma CallKeepsWellFormed(s: State, step: Step, threshold: nat)
    requires WellFormed(s) && Enabled(s, step)
    requires step.UseReady? || step.Wake? || step.TimeOut? || step.CancelCall? || step.Cleaned? || step.Used?
    ensures WellFormed(Apply(s, step, threshold))
  {
    hide MarkedHealthy;
    hide MarkedFailed;
  }

  lemma TaskKeepsWellFormed(s: State, step: Step, threshold: nat)
    requires WellFormed(s) && Enabled(s, step) && !step.Enter? && !step.Schedule?
    requires !(step.UseReady? || step.Wake? || step.TimeOut? || step.CancelCall? || step.Cleaned? || step.Used?)
    ensures WellFormed(Apply(s, step, threshold))
  {
    hide MarkedHealthy;
    hide MarkedFailed;
    hide MarkedStopped;
  }

  lemma StepKeepsWellFormed(s: State, step: Step, threshold: nat)
    requires WellFormed(s) && Enabled(s, step)
    ensures WellFormed(Apply(s, step, threshold))
  {
    hide Apply;
    hide Enabled;
    if step.Enter? || step.Schedule? {
      EntryKeepsWellFormed(s, step, threshold);
    } else if step.UseReady? || step.Wake? || step.TimeOut? || step.CancelCall? || step.Cleaned? || step.Used? {
      CallKeepsWellFormed(s, step, threshold);
    } else {
      TaskKeepsWellFormed(s, step, threshold);
    }
  }

  lemma EntryKeepsRecord(s: State, step: Step, threshold: nat)
    requires WellFormed(s) && Enabled(s, step) && Consistent(s.record, threshold) && (step.Enter? || step.Schedule?)
    ensures Consistent(Apply(s, step, threshold).record, threshold)
  {
  }

  lemma MarksAreConsistent(r: Record, threshold: nat)
    requires Consistent(r, threshold)
    ensures Consistent(MarkedHealthy(r), threshold)
    ensures Consistent(MarkedStopped(r), threshold)
    ensures Consistent(Fail(r, threshold), threshold)
  {
  }

  lemma StepKeepsRecord(s: State, step: Step, threshold: nat)
    requires WellFormed(s) && Enabled(s, step) && Consistent(s.record, threshold)
    ensures Consistent(Apply(s, step, threshold).record, threshold)
  {
    hide Consistent;
    hide Fail;
    hide MarkedHealthy;
    hide MarkedStopped;
    if step.Enter? || step.Schedule? {
      EntryKeepsRecord(s, step, threshold);
    } else {
      MarksAreConsistent(s.record, threshold);
    }
  }

  lemma {:induction false} RecordStaysConsistent(from: State, steps: seq<Step>, to: State, threshold: nat)
    requires Run(from, steps, to, threshold) && Consistent(from.record, threshold)
    ensures Consistent(to.record, threshold) && WellFormed(to)
    decreases |steps|
  {
    if steps != [] {
      StepKeepsRecord(from, steps[0], threshold);
      RecordStaysConsistent(Apply(from, steps[0], threshold), steps[1..], to, threshold);
    }
  }

  /** Whatever calls, tasks, callbacks and failures interleave, the status record is never contradictory. */
  lemma EveryRunIsConsistent(steps: seq<Step>, to: State, threshold: nat)
    requires Run(START, steps, to, threshold)
    ensures Consistent(to.record, threshold)
  {
    RecordStaysConsistent(START, steps, to, threshold);
  }

  lemma RunCons(from: State, step: Step, steps: seq<Step>, to: State, threshold: nat)
    requires WellFormed(from) && Enabled(from, step) && Run(Apply(from, step, threshold), steps, to, threshold)
    ensures Run(from, [step] + steps, to, threshold)
  {
    assert ([step] + steps)[1..] == steps;
  }
}
