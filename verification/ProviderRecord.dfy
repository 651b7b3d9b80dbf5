/**
 What the status record of a provider says of what has happened to it, field by field
 (butler/mcp_client/client.py, `_mark_server_*` as they are reached from the start-up protocol).
 */
module ProviderRecord {
  import opened PyText
  import opened ProviderStatus
  import opened ProviderLifecycle
  import opened ProviderStarts
  import opened ProviderFailures

  // ---------------------------------------------------------------------------
  // The steps that change the record
  // ---------------------------------------------------------------------------

  /** The provider was seen to work: it is running, a start of it succeeded, or an operation on it did. */
  predicate Works(s: State, step: Step)
    requires WellFormed(s) && Enabled(s, step)
  {
    match step
    case Enter(_, _) => s.running || (s.pending.Some? && s.tasks[s.pending.value].phase == DoneOk)
    case Wake(call) => s.tasks[s.callers[call].task].phase == DoneOk
    case Used(_, ok) => ok
    case Schedule => s.running
    case Finishes(t, ok) => ok && s.tasks[t].warmup
    case Callback(t) => s.tasks[t].phase == DoneOk
    case _ => false
  }

  predicate Breaks(step: Step) {
    step.TimeOut? || step.Cleaned? || step.FailureMarked? || step.WarmupCleaned?
  }

  /** A provider that was seen to work is healthy, without failures, error, retry or timer. */
  lemma WorkingIsHealthy(s: State, step: Step, threshold: nat)
    requires WellFormed(s) && Enabled(s, step) && Works(s, step)
    ensures var r := Apply(s, step, threshold).record;
            r.status == Healthy && r.healthy && r.failures == 0 && r.lastError == None && !r.retryAt && !r.warmingSince
  {
  }

  /** A failure is counted once; at the threshold the provider has failed, below it is degraded. */
  lemma BreakingIsCounted(s: State, step: Step, threshold: nat)
    requires WellFormed(s) && Enabled(s, step) && Breaks(step)
    ensures var before, r := s.record, Apply(s, step, threshold).record;
            && r.failures == before.failures + 1 && !r.healthy && r.lastError.Some? && r.retryAt && !r.warmingSince
            && (before.failures + 1 >= threshold ==> r.status == Failed)
            && (before.failures + 1 < threshold ==> r.status == Degraded)
  {
  }

  /** A step that starts a process, or finds one starting, shows the phase and keeps the count. */
  lemma StartingIsShown(s: State, step: Step, threshold: nat)
    requires WellFormed(s) && Enabled(s, step) && (step.Enter? || step.Schedule?) && !Works(s, step)
    ensures var next := Apply(s, step, threshold);
            var before, r := s.record, next.record;
            && r.failures == before.failures && r.retryAt == before.retryAt
            && (|next.tasks| > |s.tasks| ==> !r.healthy && r.lastError == None && r.warmingSince)
            && (|next.tasks| > |s.tasks| ==>
                  r.status == if step.Schedule? then Warming else if before.failures > 0 then Reconnecting else Starting)
  {
  }

  /** A call that meets a start in flight says so, leaves a warmup warming, and starts nothing. */
  lemma InFlightIsLeftAlone(s: State, call: nat, force: bool, threshold: nat)
    requires WellFormed(s) && Enabled(s, Enter(call, force)) && !s.running
    requires s.pending.Some? && !Finished(s.tasks[s.pending.value])
    ensures var next := Apply(s, Enter(call, force), threshold);
            var before, r := s.record, next.record;
            && next.tasks == s.tasks && next.pending == s.pending && next.callers == s.callers && next.running == s.running
            && !r.healthy && r.lastError.Some? && r.warmingSince && r.failures == before.failures
            && r.status == if before.status == Warming then Warming else if before.failures > 0 then Reconnecting else Starting
  {
  }

  /** Whatever neither works nor breaks leaves the count alone; only a stop and a start in flight change the rest. */
  lemma OthersKeepTheCount(s: State, step: Step, threshold: nat)
    requires WellFormed(s) && Enabled(s, step) && !Works(s, step) && !Breaks(step)
    ensures var before, r := s.record, Apply(s, step, threshold).record;
            && r.failures == before.failures
            && (step.StopAll? ==> r == before.(status := Stopped, healthy := false, retryAt := false, warmingSince := false))
            && (!step.StopAll? && !step.Enter? && !step.Schedule? ==> r == before)
            && (r.healthy ==> r == before)
  {
  }

  // ---------------------------------------------------------------------------
  // When a call starts a process
  // ---------------------------------------------------------------------------

  /** A call starts a process exactly when nothing runs or is in flight and, unless it is forced, nothing has failed. */
  lemma StartsIff(s: State, call: nat, force: bool, threshold: nat)
    requires WellFormed(s) && Enabled(s, Enter(call, force))
    ensures var next := Apply(s, Enter(call, force), threshold);
            && (|next.tasks| > |s.tasks| <==> !s.running && s.pending.None? && (force || s.record.failures == 0))
            && (|next.tasks| > |s.tasks| ==>
                  && next.tasks == s.tasks + [Task(false, InStart, false)]
                  && next.pending == Some(|s.tasks|) && next.callers == s.callers[call := Waiting(|s.tasks|)])
            && (|next.tasks| <= |s.tasks| ==> next.tasks == s.tasks)
  {
  }

  /** A call that is not forced changes nothing at a provider that has failed since it last worked. */
  lemma FailedProviderIsLeftAlone(s: State, call: nat, threshold: nat)
    requires WellFormed(s) && Enabled(s, Enter(call, false)) && !s.running && s.pending.None? && s.record.failures > 0
    ensures Apply(s, Enter(call, false), threshold) == s
  {
  }

  /** A background start begins exactly when nothing runs and nothing is in flight. */
  lemma WarmupStartsIff(s: State, threshold: nat)
    requires WellFormed(s)
    ensures var next := Apply(s, Schedule, threshold);
            var free := s.pending.None? || Finished(s.tasks[s.pending.value]);
            && next.tasks == (if !s.running && free then s.tasks + [Task(true, InStart, false)] else s.tasks)
            && next.pending == (if !s.running && free then Some(|s.tasks|) else s.pending)
            && (!s.running && !free ==> next == s)
  {
  }

  // ---------------------------------------------------------------------------
  // The count along a run
  // ---------------------------------------------------------------------------

  /** The failures marked since the last step in which the provider was seen to work; `before` is the count at the start. */
  function SinceItWorked(from: State, steps: seq<Step>, threshold: nat, before: nat): nat
    decreases |steps|
  {
    if steps == [] || !WellFormed(from) || !Enabled(from, steps[0]) then before
    else
      SinceItWorked(Apply(from, steps[0], threshold), steps[1..], threshold,
                    if Works(from, steps[0]) then 0 else if Breaks(steps[0]) then before + 1 else before)
  }

  /** In every run the failure count is the number of failures marked since the provider was last seen to work. */
  lemma {:induction false} CountIsSinceItWorked(from: State, steps: seq<Step>, to: State, threshold: nat)
    requires Run(from, steps, to, threshold)
    ensures to.record.failures == SinceItWorked(from, steps, threshold, from.record.failures)
    decreases |steps|
  {
    hide Apply;
    hide Enabled;
    hide Works;
    if steps != [] {
      var next := Apply(from, steps[0], threshold);
      if Works(from, steps[0]) {
        WorkingIsHealthy(from, steps[0], threshold);
      } else if Breaks(steps[0]) {
        BreakingIsCounted(from, steps[0], threshold);
      } else {
        OthersKeepTheCount(from, steps[0], threshold);
      }
      CountIsSinceItWorked(next, steps[1..], to, threshold);
    }
  }

  /** Nothing is seen to work along the run. */
  predicate NeverWorks(from: State, steps: seq<Step>, threshold: nat)
    decreases |steps|
  {
    steps != [] && WellFormed(from) && Enabled(from, steps[0]) ==>
      !Works(from, steps[0]) && NeverWorks(Apply(from, steps[0], threshold), steps[1..], threshold)
  }

  /** How many failures the run marks. */
  function Markings(steps: seq<Step>): nat {
    if steps == [] then 0 else (if Breaks(steps[0]) then 1 else 0) + Markings(steps[1..])
  }

  lemma {:induction false} CountIsMarkings(from: State, steps: seq<Step>, to: State, threshold: nat)
    requires Run(from, steps, to, threshold) && NeverWorks(from, steps, threshold)
    ensures to.record.failures == from.record.failures + Markings(steps)
    decreases |steps|
  {
    hide Apply;
    hide Enabled;
    hide Works;
    if steps != [] {
      var next := Apply(from, steps[0], threshold);
      if Breaks(steps[0]) {
        BreakingIsCounted(from, steps[0], threshold);
      } else {
        OthersKeepTheCount(from, steps[0], threshold);
      }
      CountIsMarkings(next, steps[1..], to, threshold);
    }
  }

  // ---------------------------------------------------------------------------
  // Whose failures they are
  // ---------------------------------------------------------------------------

  /** The marking belongs to an operation on a connection, not to a start. */
  predicate MarksOperation(s: State, step: Step)
    requires WellFormed(s) && Enabled(s, step)
  {
    step.Cleaned? && s.callers[step.call].cause.None?
  }

  function OperationMarks(from: State, steps: seq<Step>, threshold: nat): nat
    decreases |steps|
  {
    if steps == [] || !WellFormed(from) || !Enabled(from, steps[0]) then 0
    else (if MarksOperation(from, steps[0]) then 1 else 0)
         + OperationMarks(Apply(from, steps[0], threshold), steps[1..], threshold)
  }

  /** How many failures are marked for the first `n` starts. */
  function StartMarks(from: State, steps: seq<Step>, threshold: nat, n: nat): nat {
    if n == 0 then 0 else StartMarks(from, steps, threshold, n - 1) + Account(from, steps, threshold, n - 1).marks
  }

  /** How many of the first `n` starts one step marks. */
  function MarkedNow(s: State, step: Step, n: nat): nat
    requires WellFormed(s) && Enabled(s, step)
  {
    if n == 0 then 0 else MarkedNow(s, step, n - 1) + if Marks(s, step, n - 1) then 1 else 0
  }

  /** A marking is for one start, or for an operation. */
  lemma {:induction false} MarkIsForOne(s: State, step: Step, n: nat)
    requires WellFormed(s) && Enabled(s, step)
    ensures MarkedNow(s, step, n) == if Breaks(step) && !MarksOperation(s, step) && Marked(s, step) < n then 1 else 0
  {
    if n > 0 {
      MarkIsForOne(s, step, n - 1);
    }
  }

  /** The start that a marking is for. */
  function Marked(s: State, step: Step): nat
    requires WellFormed(s) && Enabled(s, step)
  {
    match step
    case TimeOut(call) => s.callers[call].task
    case Cleaned(call, _) => if s.callers[call].cause.Some? then s.callers[call].cause.value else 0
    case FailureMarked(t, _) => t
    case WarmupCleaned(t, _) => t
    case _ => 0
  }

  lemma MarkedExists(s: State, step: Step)
    requires WellFormed(s) && Enabled(s, step) && Breaks(step) && !MarksOperation(s, step)
    ensures Marked(s, step) < |s.tasks|
  {
  }

  lemma {:induction false} StartMarksStep(from: State, steps: seq<Step>, threshold: nat, n: nat)
    requires steps != [] && WellFormed(from) && Enabled(from, steps[0])
    ensures StartMarks(from, steps, threshold, n)
            == MarkedNow(from, steps[0], n) + StartMarks(Apply(from, steps[0], threshold), steps[1..], threshold, n)
  {
    hide Marks;
    hide Account;
    hide Apply;
    hide Enabled;
    hide WellFormed;
    if n > 0 {
      StartMarksStep(from, steps, threshold, n - 1);
      AccountStep(from, steps, threshold, n - 1);
    }
  }

  lemma AccountStep(from: State, steps: seq<Step>, threshold: nat, t: nat)
    requires steps != [] && WellFormed(from) && Enabled(from, steps[0])
    ensures Account(from, steps, threshold, t).marks
            == (if Marks(from, steps[0], t) then 1 else 0) + Account(Apply(from, steps[0], threshold), steps[1..], threshold, t).marks
  {
    hide Marks;
    hide Drops;
    hide Finds;
    hide Apply;
    hide Enabled;
    hide WellFormed;
  }

  lemma {:induction false} NoStartMarks(from: State, threshold: nat, n: nat)
    ensures StartMarks(from, [], threshold, n) == 0
  {
    if n > 0 {
      NoStartMarks(from, threshold, n - 1);
    }
  }

  /** Every marking of a run is counted for one of its starts or for an operation. */
  lemma {:induction false} MarkingsAreShared(from: State, steps: seq<Step>, to: State, threshold: nat, n: nat)
    requires Run(from, steps, to, threshold) && |to.tasks| <= n
    ensures Markings(steps) == StartMarks(from, steps, threshold, n) + OperationMarks(from, steps, threshold)
    decreases |steps|
  {
    hide Apply;
    hide Enabled;
    hide Marks;
    hide Marked;
    if steps == [] {
      NoStartMarks(from, threshold, n);
    } else {
      MarkingsAreShared(Apply(from, steps[0], threshold), steps[1..], to, threshold, n);
      StartMarksStep(from, steps, threshold, n);
      MarkIsForOne(from, steps[0], n);
      if Breaks(steps[0]) && !MarksOperation(from, steps[0]) {
        MarkedExists(from, steps[0]);
        StartsOnlyGrow(from, steps, to, threshold);
      }
      OnlyBreaksMark(from, steps[0]);
    }
  }

  lemma OnlyBreaksMark(s: State, step: Step)
    requires WellFormed(s) && Enabled(s, step)
    ensures MarksOperation(s, step) ==> Breaks(step)
  {
  }

  lemma {:induction false} StartsOnlyGrow(from: State, steps: seq<Step>, to: State, threshold: nat)
    requires Run(from, steps, to, threshold)
    ensures |from.tasks| <= |to.tasks|
    decreases |steps|
  {
    if steps != [] {
      StartsOnlyGrow(Apply(from, steps[0], threshold), steps[1..], to, threshold);
    }
  }

  /**
   As long as nothing is seen to work, the failure count on the record is exactly what the accounts of all starts and
   the failed operations add up to.
   */
  lemma RecordIsTheAccounts(steps: seq<Step>, to: State, threshold: nat)
    requires Run(START, steps, to, threshold) && NeverWorks(START, steps, threshold)
    ensures to.record.failures == StartMarks(START, steps, threshold, |to.tasks|) + OperationMarks(START, steps, threshold)
  {
    CountIsMarkings(START, steps, to, threshold);
    MarkingsAreShared(START, steps, to, threshold, |to.tasks|);
  }

  /** A start that is made without force comes behind no failure that was marked since the provider last worked. */
  lemma UnforcedStartFollowsNoFailure(steps: seq<Step>, to: State, threshold: nat, call: nat)
    requires Run(START, steps, to, threshold) && WellFormed(to) && Enabled(to, Enter(call, false))
    requires |Apply(to, Enter(call, false), threshold).tasks| > |to.tasks|
    ensures SinceItWorked(START, steps, threshold, 0) == 0
  {
    CountIsSinceItWorked(START, steps, to, threshold);
    StartsIff(to, call, false, threshold);
  }
}
