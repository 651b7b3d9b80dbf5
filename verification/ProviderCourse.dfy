/**
 What can happen to a connection, to the pending entry and to a call, one by one: which steps change each of them, and to
 what (butler/mcp_client/client.py, `_async_ensure_started` and the starts it begins).
 */
module ProviderCourse {
  import opened PyText
  import opened ProviderStatus
  import opened ProviderLifecycle

  // ---------------------------------------------------------------------------
  // The connection
  // ---------------------------------------------------------------------------

  /** A connection comes up only while a start of it is under way. */
  lemma ComesUpInAStart(s: State, step: Step, threshold: nat)
    requires WellFormed(s) && Enabled(s, step)
    ensures !s.running && Apply(s, step, threshold).running ==>
              exists t: nat :: t < |s.tasks| && s.tasks[t].phase == InStart && step == SessionOpens(t)
  {
  }

  /** A start under way can bring its connection up, and end in either way. */
  lemma StartCanGoOn(s: State, t: nat, ok: bool, threshold: nat)
    requires WellFormed(s) && t < |s.tasks| && s.tasks[t].phase == InStart
    ensures Enabled(s, SessionOpens(t)) && Apply(s, SessionOpens(t), threshold) == s.(running := true)
    ensures Enabled(s, Finishes(t, ok))
    ensures Enabled(s, StopAll) && Enabled(s, Schedule)
  {
  }

  /** A connection goes down when it breaks, when it is stopped, or when a failure is cleaned up; a cleanup that fails leaves it. */
  lemma GoesDown(s: State, step: Step, threshold: nat)
    requires WellFormed(s) && Enabled(s, step) && s.running
    ensures Apply(s, step, threshold).running <==>
              !(step.ConnectionDown? || step.StopAll? || (step.Cleaned? && step.stopped)
                || (step.FailureMarked? && step.stopped) || (step.WarmupCleaned? && step.stopped))
  {
  }

  /** A provider begins as not started and with nothing to its name. */
  lemma BeginsFresh()
    ensures !START.running && START.pending == None && START.tasks == [] && START.callers == map[] && START.failing == {}
    ensures var r := START.record;
            r.status == NotStarted && !r.healthy && r.failures == 0 && r.lastError == None && !r.retryAt && !r.warmingSince
  {
  }

  // ---------------------------------------------------------------------------
  // The calls
  // ---------------------------------------------------------------------------

  predicate OfACall(step: Step) {
    step.Enter? || step.UseReady? || step.Wake? || step.TimeOut? || step.CancelCall? || step.Cleaned? || step.Used?
  }

  /** A call is moved by its own steps only. */
  lemma CallsMoveThemselves(s: State, step: Step, threshold: nat, call: nat)
    requires WellFormed(s) && Enabled(s, step) && (OfACall(step) ==> step.call != call)
    ensures var next := Apply(s, step, threshold);
            && (call in next.callers <==> call in s.callers)
            && (call in s.callers ==> next.callers[call] == s.callers[call])
  {
  }

  /** A call gets to use the provider when it runs or its start has succeeded, and the provider is healthy then. */
  lemma UsesAHealthyProvider(s: State, step: Step, threshold: nat, call: nat)
    requires WellFormed(s) && Enabled(s, step)
    requires var next := Apply(s, step, threshold);
             call in next.callers && next.callers[call] == Using && !(call in s.callers && s.callers[call] == Using)
    ensures OfACall(step) && step.call == call && Apply(s, step, threshold).record.healthy
    ensures s.running || (step.Enter? && s.pending.Some? && s.tasks[s.pending.value].phase == DoneOk)
            || (step.Wake? && s.tasks[s.callers[call].task].phase == DoneOk)
  {
  }

  /** A call on a running provider, or on one whose start has just succeeded, gets to use it. */
  lemma WorkingProviderIsUsed(s: State, call: nat, force: bool, threshold: nat)
    requires WellFormed(s) && call !in s.callers
    requires s.running || (s.pending.Some? && s.tasks[s.pending.value].phase == DoneOk)
    ensures var next := Apply(s, Enter(call, force), threshold);
            && next.callers == s.callers[call := Using] && next.tasks == s.tasks && next.running == s.running
            && next.pending == if s.running then s.pending else None
  {
  }

  /** A call that finds a start failed takes its entry away and is left with marking the failure. */
  lemma FailedStartIsTakenOver(s: State, call: nat, force: bool, threshold: nat)
    requires WellFormed(s) && call !in s.callers && !s.running
    requires s.pending.Some? && s.tasks[s.pending.value].phase == DoneBad
    ensures Apply(s, Enter(call, force), threshold) == s.(pending := None, callers := s.callers[call := Failing(s.pending)])
  {
  }

  /** A waiting call wakes when its start has ended: it uses the provider, or is left with marking the failure. */
  lemma WaitingEnds(s: State, call: nat, threshold: nat)
    requires WellFormed(s) && call in s.callers && s.callers[call].Waiting?
    ensures var t := s.callers[call].task;
            && (Enabled(s, Wake(call)) <==> Finished(s.tasks[t])) && (Enabled(s, TimeOut(call)) <==> !Finished(s.tasks[t]))
            && (s.tasks[t].phase == DoneOk ==>
                  Apply(s, Wake(call), threshold).callers == s.callers[call := Using])
            && (s.tasks[t].phase == DoneBad ==>
                  Apply(s, Wake(call), threshold) == s.(pending := None, callers := s.callers[call := Failing(Some(t))]))
            && (Finished(s.tasks[t]) ==> Apply(s, Wake(call), threshold).pending == None)
            && (!Finished(s.tasks[t]) ==>
                  var late := Apply(s, TimeOut(call), threshold);
                  call !in late.callers && late.tasks == s.tasks && late.pending == s.pending && late.running == s.running)
  {
  }

  /** A cancelled call leaves, unless its start has ended: then the failure is still marked. */
  lemma CancelledCallLeaves(s: State, call: nat, threshold: nat)
    requires WellFormed(s) && call in s.callers
    ensures var next := Apply(s, CancelCall(call), threshold);
            if s.callers[call].Waiting? && Finished(s.tasks[s.callers[call].task])
            then next == s.(callers := s.callers[call := Failing(Some(s.callers[call].task))])
            else next == s.(callers := s.callers - {call})
  {
  }

  /** A call that has marked its failure, or has done its operation, leaves; a failed operation is marked first. */
  lemma CallLeaves(s: State, call: nat, stopped: bool, threshold: nat)
    requires WellFormed(s) && call in s.callers
    ensures Enabled(s, Cleaned(call, stopped)) <==> s.callers[call].Failing?
    ensures Enabled(s, Used(call, true)) <==> s.callers[call] == Using
    ensures s.callers[call].Failing? ==>
              var next := Apply(s, Cleaned(call, stopped), threshold);
              call !in next.callers && next.tasks == s.tasks && next.pending == s.pending
    ensures s.callers[call] == Using ==>
              var next := Apply(s, Used(call, true), threshold);
              call !in next.callers && next.tasks == s.tasks && next.pending == s.pending && next.running == s.running
    ensures s.callers[call] == Using ==>
              Apply(s, Used(call, false), threshold) == s.(callers := s.callers[call := Failing(None)])
  {
  }

  /** A provider that is ready can be used without the protocol, and only then. */
  lemma ReadyIff(s: State, call: nat, threshold: nat)
    requires WellFormed(s)
    ensures Enabled(s, UseReady(call)) <==> call !in s.callers && s.running && s.record.healthy
    ensures Enabled(s, UseReady(call)) ==> Apply(s, UseReady(call), threshold) == s.(callers := s.callers[call := Using])
  {
  }

  // ---------------------------------------------------------------------------
  // The starts
  // ---------------------------------------------------------------------------

  /** A start that a call began ends once, owes its callback then, and its callback runs once. */
  lemma ForegroundStartEnds(s: State, t: nat, ok: bool, threshold: nat)
    requires WellFormed(s) && t < |s.tasks| && !s.tasks[t].warmup && s.tasks[t].phase == InStart
    ensures var ended := Apply(s, Finishes(t, ok), threshold);
            && ended == s.(tasks := s.tasks[t := Task(false, if ok then DoneOk else DoneBad, true)])
            && !Enabled(ended, Finishes(t, ok)) && Enabled(ended, Callback(t))
            && var called := Apply(ended, Callback(t), threshold);
            && !Enabled(called, Callback(t))
            && called.tasks == s.tasks[t := Task(false, if ok then DoneOk else DoneBad, false)]
            && called.pending == (if s.pending == Some(t) then None else s.pending)
            && called.callers == s.callers && called.running == s.running
            && (t in called.failing <==> !ok || t in s.failing)
  {
  }

  /** A warmup that succeeds is over; one that fails is cleaned up and marked, and either way only its own entry goes. */
  lemma WarmupEnds(s: State, t: nat, stopped: bool, threshold: nat)
    requires WellFormed(s) && t < |s.tasks| && s.tasks[t].warmup && s.tasks[t].phase == InStart
    ensures var good := Apply(s, Finishes(t, true), threshold);
            && good.tasks == s.tasks[t := Task(true, DoneOk, false)] && good.callers == s.callers && good.running == s.running
            && good.pending == (if s.pending == Some(t) then None else s.pending) && good.failing == s.failing
    ensures var bad := Apply(s, Finishes(t, false), threshold);
            && bad == s.(tasks := s.tasks[t := Task(true, Cleaning, false)]) && Enabled(bad, WarmupCleaned(t, stopped))
            && var clean := Apply(bad, WarmupCleaned(t, stopped), threshold);
            && clean.tasks == s.tasks[t := Task(true, DoneOk, false)] && clean.callers == s.callers
            && clean.pending == (if s.pending == Some(t) then None else s.pending) && clean.failing == s.failing
    ensures Enabled(s, CancelledUnstarted(t))
    ensures Apply(s, CancelledUnstarted(t), threshold) == s.(tasks := s.tasks[t := Task(true, DoneBad, false)])
  {
  }

  /** The marking that a callback has spawned runs once. */
  lemma SpawnedMarkingRunsOnce(s: State, t: nat, stopped: bool, threshold: nat)
    requires WellFormed(s)
    ensures Enabled(s, FailureMarked(t, stopped)) <==> t in s.failing
    ensures t in s.failing ==>
              var next := Apply(s, FailureMarked(t, stopped), threshold);
              && next.failing == s.failing - {t} && next.tasks == s.tasks && next.pending == s.pending && next.callers == s.callers
  {
  }

  /** A stop marks the provider stopped and takes the connection down; calls and starts go on. */
  lemma StopKeepsTheRest(s: State, threshold: nat)
    requires WellFormed(s)
    ensures var next := Apply(s, StopAll, threshold);
            && !next.running && next.record.status == Stopped
            && next.tasks == s.tasks && next.pending == s.pending && next.callers == s.callers && next.failing == s.failing
  {
  }
}
