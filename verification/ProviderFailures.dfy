/**
 How often one start is counted as failed
 (butler/mcp_client/client.py, `_async_ensure_started` and `_on_start_task_done`).
 */
module ProviderFailures {
  import opened PyText
  import opened ProviderStatus
  import opened ProviderLifecycle
  import opened ProviderStarts

  // ---------------------------------------------------------------------------
  // What is counted along a run
  // ---------------------------------------------------------------------------

  /** The step adds one to the failure count on behalf of the start `t`. */
  predicate Marks(s: State, step: Step, t: nat)
    requires WellFormed(s) && Enabled(s, step)
  {
    match step
    case TimeOut(call) => s.callers[call].task == t
    case Cleaned(call, _) => s.callers[call].cause == Some(t)
    case FailureMarked(u, _) => u == t
    case WarmupCleaned(u, _) => u == t
    case _ => false
  }

  /** The call still has to do with the start: it waits for it, or is about to mark it as failed. */
  predicate Holds(c: Caller, t: nat) {
    (c.Waiting? && c.task == t) || (c.Failing? && c.cause == Some(t))
  }

  /** A call that had to do with the start is cancelled and leaves without a mark. */
  predicate Drops(s: State, step: Step, t: nat)
    requires WellFormed(s) && Enabled(s, step)
  {
    step.CancelCall? && Holds(s.callers[step.call], t) && !(s.callers[step.call].Waiting? && Finished(s.tasks[t]))
  }

  /** A further call finds the entry of the start, finished and failed, and takes it over. */
  predicate Finds(s: State, step: Step, t: nat)
    requires WellFormed(s)
  {
    step.Enter? && !s.running && s.pending == Some(t) && s.tasks[t].phase == DoneBad
  }

  datatype Tally = Tally(marks: nat, drops: nat, finds: nat)

  function Counted(s: State, step: Step, t: nat): Tally
    requires WellFormed(s) && Enabled(s, step)
  {
    Tally(if Marks(s, step, t) then 1 else 0, if Drops(s, step, t) then 1 else 0, if Finds(s, step, t) then 1 else 0)
  }

  function Sum(a: Tally, b: Tally): Tally {
    Tally(a.marks + b.marks, a.drops + b.drops, a.finds + b.finds)
  }

  /** The events of a run that concern the start `t`. */
  function Account(from: State, steps: seq<Step>, threshold: nat, t: nat): Tally
    decreases |steps|
  {
    if steps == [] || !WellFormed(from) || !Enabled(from, steps[0]) then Tally(0, 0, 0)
    else Sum(Counted(from, steps[0], t), Account(Apply(from, steps[0], threshold), steps[1..], threshold, t))
  }

  // ---------------------------------------------------------------------------
  // What is still owed
  // ---------------------------------------------------------------------------

  function Holders(s: State, t: nat): set<nat> {
    set call | call in s.callers && Holds(s.callers[call], t)
  }

  /** The done callback has not run, or the marking it spawned has not. */
  predicate CallbackOpen(s: State, t: nat)
    requires t < |s.tasks|
  {
    t in s.failing || s.tasks[t].callbackDue || !Finished(s.tasks[t])
  }

  /** The calls that hold the start, one for a start that does not exist yet. */
  function Calls(s: State, t: nat): nat {
    if t < |s.tasks| then |Holders(s, t)| else 1
  }

  function Callbacks(s: State, t: nat): nat {
    if t < |s.tasks| && !CallbackOpen(s, t) then 0 else 1
  }

  /** The entry can still be found. */
  function Entry(s: State, t: nat): nat {
    if t >= |s.tasks| || s.pending == Some(t) then 1 else 0
  }

  /** No event can concern a start before it begins. */
  lemma NotYet(s: State, step: Step, t: nat)
    requires WellFormed(s) && Enabled(s, step) && t >= |s.tasks|
    ensures Counted(s, step, t) == Tally(0, 0, 0) && Holders(s, t) == {}
  {
  }

  /** How one caller changes the set of holders. */
  lemma HoldersChange(s: State, next: State, call: nat, t: nat)
    requires next.callers.Keys - {call} == s.callers.Keys - {call}
    requires forall other :: other in s.callers && other != call ==> other in next.callers && next.callers[other] == s.callers[other]
    ensures |Holders(next, t)| == |Holders(s, t)| - (if call in Holders(s, t) then 1 else 0) + (if call in Holders(next, t) then 1 else 0)
  {
    OthersHold(s, next, call, t);
    hide Holders;
    CountWithout(Holders(s, t), call);
    CountWithout(Holders(next, t), call);
  }

  lemma OthersHold(s: State, next: State, call: nat, t: nat)
    requires next.callers.Keys - {call} == s.callers.Keys - {call}
    requires forall other :: other in s.callers && other != call ==> other in next.callers && next.callers[other] == s.callers[other]
    ensures Holders(next, t) - {call} == Holders(s, t) - {call}
  {
    forall other | other != call ensures other in Holders(s, t) <==> other in Holders(next, t) {
      assert other in s.callers.Keys - {call} <==> other in next.callers.Keys - {call};
    }
  }

  lemma CountWithout(holders: set<nat>, call: nat)
    ensures |holders| == |holders - {call}| + if call in holders then 1 else 0
  {
    if call in holders {
      assert holders == (holders - {call}) + {call};
    } else {
      assert holders - {call} == holders;
    }
  }

  /** Steps of tasks and of the client as a whole leave the calls alone. */
  predicate ByCall(step: Step) {
    step.Enter? || step.UseReady? || step.Wake? || step.TimeOut? || step.CancelCall? || step.Cleaned? || step.Used?
  }

  lemma CallerFrame(s: State, step: Step, threshold: nat)
    requires WellFormed(s) && Enabled(s, step)
    ensures !ByCall(step) ==> Apply(s, step, threshold).callers == s.callers
    ensures ByCall(step) ==>
              var next := Apply(s, step, threshold);
              && next.callers.Keys - {step.call} == s.callers.Keys - {step.call}
              && forall other :: other in s.callers && other != step.call ==>
                   other in next.callers && next.callers[other] == s.callers[other]
  {
    hide MarkedHealthy;
    hide MarkedFailed;
    hide MarkedStopped;
    hide Transitioned;
  }

  // ---------------------------------------------------------------------------
  // One step
  // ---------------------------------------------------------------------------

  /** What a start was, and how it ended, stays so. */
  lemma StartIsPermanent(s: State, step: Step, threshold: nat, t: nat)
    requires WellFormed(s) && Enabled(s, step) && t < |s.tasks|
    ensures var next := Apply(s, step, threshold);
            && t < |next.tasks| && next.tasks[t].warmup == s.tasks[t].warmup
            && (Finished(s.tasks[t]) ==> next.tasks[t].phase == s.tasks[t].phase)
  {
    hide MarkedHealthy;
    hide MarkedFailed;
    hide MarkedStopped;
    hide Transitioned;
  }

  /** The call that acts takes up the start, lets it go, or marks it. */
  lemma ActingCall(s: State, step: Step, threshold: nat, t: nat)
    requires WellFormed(s) && Enabled(s, step) && t < |s.tasks| && ByCall(step)
    ensures var next, c := Apply(s, step, threshold), Counted(s, step, t);
            var before, after := step.call in Holders(s, t), step.call in Holders(next, t);
            && (c.drops == 1 ==> before && !after) && (c.finds == 1 ==> !before && after && c.marks == 0 && c.drops == 0)
            && c.marks + c.drops + (if after then 1 else 0) <= (if before then 1 else 0) + c.finds
            && (s.tasks[t].phase != DoneOk ==>
                  c.marks + c.drops + (if after then 1 else 0) == (if before then 1 else 0) + c.finds)
  {
    hide MarkedHealthy;
    hide MarkedFailed;
    hide Transitioned;
  }

  lemma CallStepBalances(s: State, step: Step, threshold: nat, t: nat)
    requires WellFormed(s) && Enabled(s, step) && t < |s.tasks| && ByCall(step)
    ensures var next, c := Apply(s, step, threshold), Counted(s, step, t);
            && c.marks + c.drops + |Holders(next, t)| <= |Holders(s, t)| + c.finds
            && c.drops + |Holders(next, t)| <= |Holders(s, t)| + c.finds
            && (s.tasks[t].phase != DoneOk ==> c.marks + c.drops + |Holders(next, t)| == |Holders(s, t)| + c.finds)
  {
    hide Holders;
    hide Apply;
    hide Enabled;
    hide Counted;
    ActingCall(s, step, threshold, t);
    CallerFrame(s, step, threshold);
    HoldersChange(s, Apply(s, step, threshold), step.call, t);
  }

  /** Nothing but its own task, callback and marking touches the callback of a start. */
  lemma CallbackFrame(s: State, step: Step, threshold: nat, t: nat)
    requires WellFormed(s) && Enabled(s, step) && t < |s.tasks| && ByCall(step)
    ensures var next := Apply(s, step, threshold);
            t < |next.tasks| && next.tasks[t] == s.tasks[t] && next.failing == s.failing
  {
    hide MarkedHealthy;
    hide MarkedFailed;
    hide Transitioned;
  }

  lemma TaskStepBalances(s: State, step: Step, threshold: nat, t: nat)
    requires WellFormed(s) && Enabled(s, step) && t < |s.tasks| && !ByCall(step)
    ensures var next, c := Apply(s, step, threshold), Counted(s, step, t);
            && t < |next.tasks| && c.drops == 0 && c.finds == 0 && (s.tasks[t].phase == DoneOk ==> c.marks == 0)
            && (!s.tasks[t].warmup && next.tasks[t].phase != DoneOk ==> c.marks + Callbacks(next, t) == Callbacks(s, t))
  {
    hide MarkedHealthy;
    hide MarkedFailed;
    hide MarkedStopped;
    hide Transitioned;
  }

  lemma EntryIsFoundOnce(s: State, step: Step, threshold: nat, t: nat)
    requires WellFormed(s) && Enabled(s, step)
    ensures Counted(s, step, t).finds + Entry(Apply(s, step, threshold), t) <= Entry(s, t)
  {
    hide MarkedHealthy;
    hide MarkedFailed;
    hide MarkedStopped;
    hide Transitioned;
  }

  /** A foreground start begins with one call that waits and one callback to come. */
  lemma StartBegins(s: State, step: Step, threshold: nat, t: nat)
    requires WellFormed(s) && Enabled(s, step) && t >= |s.tasks| && t < |Apply(s, step, threshold).tasks|
    ensures var next := Apply(s, step, threshold);
            && t == |s.tasks| && next.tasks[t].phase == InStart
            && (if next.tasks[t].warmup then Holders(next, t) == {} else step.Enter? && Holders(next, t) == {step.call})
  {
    hide MarkedHealthy;
    hide MarkedFailed;
    hide MarkedStopped;
    hide Transitioned;
    NotYet(s, step, t);
    assert forall call :: call in s.callers ==> !Holds(s.callers[call], t) by {
      assert forall call :: call in s.callers ==> (Holds(s.callers[call], t) ==> call in Holders(s, t));
    }
  }

  /** Every marking, every dropped one and every call still held comes from the waiter, the callback, or a finder. */
  lemma StepBalances(s: State, step: Step, threshold: nat, t: nat)
    requires WellFormed(s) && Enabled(s, step)
    ensures var next, c := Apply(s, step, threshold), Counted(s, step, t);
            && c.finds + Entry(next, t) <= Entry(s, t)
            && (t < |next.tasks| ==>
                  (!next.tasks[t].warmup ==> c.drops + Calls(next, t) <= Calls(s, t) + c.finds)
                  && (!next.tasks[t].warmup && next.tasks[t].phase != DoneOk ==>
                        c.marks + c.drops + Calls(next, t) + Callbacks(next, t) == Calls(s, t) + Callbacks(s, t) + c.finds))
  {
    hide Apply;
    hide Enabled;
    hide Counted;
    hide Holders;
    hide Entry;
    hide CallbackOpen;
    EntryIsFoundOnce(s, step, threshold, t);
    var next := Apply(s, step, threshold);
    if t < |s.tasks| {
      StartIsPermanent(s, step, threshold, t);
      if ByCall(step) {
        CallStepBalances(s, step, threshold, t);
        CallbackFrame(s, step, threshold, t);
        SameCallbacks(s, next, t);
      } else {
        TaskStepBalances(s, step, threshold, t);
        CallerFrame(s, step, threshold);
        SameHolders(s, next, t);
      }
    } else {
      NotYet(s, step, t);
      if t < |next.tasks| {
        StartBegins(s, step, threshold, t);
        FreshCallbackIsOpen(next, t);
      }
    }
  }

  lemma SameCallbacks(s: State, next: State, t: nat)
    requires t < |s.tasks| && t < |next.tasks| && next.tasks[t] == s.tasks[t] && next.failing == s.failing
    ensures Callbacks(next, t) == Callbacks(s, t)
  {
  }

  lemma SameHolders(s: State, next: State, t: nat)
    requires next.callers == s.callers
    ensures Holders(next, t) == Holders(s, t)
  {
  }

  lemma FreshCallbackIsOpen(s: State, t: nat)
    requires t < |s.tasks| && s.tasks[t].phase == InStart
    ensures Callbacks(s, t) == 1
  {
  }

  // ---------------------------------------------------------------------------
  // Whole runs
  // ---------------------------------------------------------------------------

  lemma {:induction false} StartStaysPermanent(from: State, steps: seq<Step>, to: State, threshold: nat, t: nat)
    requires Run(from, steps, to, threshold) && t < |from.tasks|
    ensures t < |to.tasks| && to.tasks[t].warmup == from.tasks[t].warmup
    ensures Finished(from.tasks[t]) ==> to.tasks[t].phase == from.tasks[t].phase
    decreases |steps|
  {
    if steps != [] {
      StartIsPermanent(from, steps[0], threshold, t);
      StartStaysPermanent(Apply(from, steps[0], threshold), steps[1..], to, threshold, t);
    }
  }

  lemma {:induction false} RunBalances(from: State, steps: seq<Step>, to: State, threshold: nat, t: nat)
    requires Run(from, steps, to, threshold) && t < |to.tasks| && !to.tasks[t].warmup
    ensures var a := Account(from, steps, threshold, t);
            && a.finds + Entry(to, t) <= Entry(from, t)
            && a.drops + Calls(to, t) <= Calls(from, t) + a.finds
            && (to.tasks[t].phase != DoneOk ==>
                  a.marks + a.drops + Calls(to, t) + Callbacks(to, t) == Calls(from, t) + Callbacks(from, t) + a.finds)
    decreases |steps|
  {
    if steps != [] {
      hide Apply;
      hide Enabled;
      hide Counted;
      hide Calls;
      hide Callbacks;
      hide Entry;
      var next := Apply(from, steps[0], threshold);
      StepBalances(from, steps[0], threshold, t);
      RunBalances(next, steps[1..], to, threshold, t);
      if t < |next.tasks| {
        StartStaysPermanent(next, steps[1..], to, threshold, t);
      } else {
        StillToCome(from, steps[0], threshold, t);
      }
    }
  }

  lemma StillToCome(s: State, step: Step, threshold: nat, t: nat)
    requires WellFormed(s) && Enabled(s, step) && t >= |Apply(s, step, threshold).tasks|
    ensures var next := Apply(s, step, threshold);
            && t >= |s.tasks| && Counted(s, step, t) == Tally(0, 0, 0)
            && Calls(next, t) == Calls(s, t) && Callbacks(next, t) == Callbacks(s, t)
  {
    if t < |s.tasks| {
      StartIsPermanent(s, step, threshold, t);
    } else {
      NotYet(s, step, t);
    }
  }

  /** The start failed and nobody has anything more to do with it. */
  predicate Settled(s: State, t: nat) {
    t < |s.tasks| && !s.tasks[t].warmup && s.tasks[t].phase == DoneBad && !CallbackOpen(s, t) && Holders(s, t) == {}
  }

  /**
   The exact count, for every run and however calls overlap: a failed foreground start is counted once by its
   callback, once by the call that waited for it, and once more by a call that found its entry before the
   callback removed it; a call counts unless it was cancelled before it got to it.
   */
  lemma FailureIsCounted(steps: seq<Step>, to: State, threshold: nat, t: nat)
    requires Run(START, steps, to, threshold) && Settled(to, t)
    ensures var a := Account(START, steps, threshold, t);
            && a.marks + a.drops == 2 + a.finds && a.finds <= 1 && a.drops <= 1 + a.finds
            && (a.marks == 1 <==> a.drops == 1 + a.finds)
            && (a.marks == 3 <==> a.finds == 1 && a.drops == 0)
            && 1 <= a.marks <= 3
  {
    RunBalances(START, steps, to, threshold, t);
  }

  // ---------------------------------------------------------------------------
  // Bounds for every start, settled or not
  // ---------------------------------------------------------------------------

  lemma GoodStepCountsHolders(s: State, step: Step, threshold: nat, t: nat)
    requires WellFormed(s) && Enabled(s, step)
    ensures var next, c := Apply(s, step, threshold), Counted(s, step, t);
            t < |next.tasks| && !next.tasks[t].warmup && next.tasks[t].phase != DoneBad ==>
              c.marks + Calls(next, t) <= Calls(s, t)
  {
    hide Apply;
    hide Enabled;
    hide Holders;
    var next := Apply(s, step, threshold);
    if t < |s.tasks| {
      StartIsPermanent(s, step, threshold, t);
      if ByCall(step) {
        CallStepBalances(s, step, threshold, t);
      } else {
        CallerFrame(s, step, threshold);
        SameHolders(s, next, t);
        OnlyBadStartsAreMarked(s, step, threshold, t);
      }
    } else {
      NotYet(s, step, t);
      if t < |next.tasks| {
        StartBegins(s, step, threshold, t);
      }
    }
  }

  lemma OnlyBadStartsAreMarked(s: State, step: Step, threshold: nat, t: nat)
    requires WellFormed(s) && Enabled(s, step) && t < |s.tasks| && !ByCall(step)
    ensures Marks(s, step, t) ==> s.tasks[t].warmup || s.tasks[t].phase == DoneBad
  {
  }

  lemma {:induction false} GoodRunCountsHolders(from: State, steps: seq<Step>, to: State, threshold: nat, t: nat)
    requires Run(from, steps, to, threshold) && t < |to.tasks| && !to.tasks[t].warmup && to.tasks[t].phase != DoneBad
    ensures Account(from, steps, threshold, t).marks + Calls(to, t) <= Calls(from, t)
    decreases |steps|
  {
    if steps != [] {
      hide Apply;
      hide Enabled;
      hide Counted;
      hide Calls;
      var next := Apply(from, steps[0], threshold);
      GoodStepCountsHolders(from, steps[0], threshold, t);
      GoodRunCountsHolders(next, steps[1..], to, threshold, t);
      if t < |next.tasks| {
        StartStaysPermanent(next, steps[1..], to, threshold, t);
      } else {
        StillToCome(from, steps[0], threshold, t);
      }
    }
  }

  /** What a warmup can still be marked for: its own end, or the one call that finds its entry if it never ran. */
  function WarmupOwes(s: State, t: nat): nat {
    if t >= |s.tasks| then 1
    else |Holders(s, t)| + if !Finished(s.tasks[t]) || (s.pending == Some(t) && s.tasks[t].phase == DoneBad) then 1 else 0
  }

  lemma WarmupTaskStep(s: State, step: Step, threshold: nat, t: nat)
    requires WellFormed(s) && Enabled(s, step) && t < |s.tasks| && s.tasks[t].warmup && !ByCall(step)
    ensures var next := Apply(s, step, threshold);
            && t < |next.tasks| && next.callers == s.callers
            && (Marks(s, step, t) ==> step.WarmupCleaned? && step.task == t && next.tasks[t].phase == DoneOk && !Finished(s.tasks[t]))
            && (next.pending == Some(t) ==> s.pending == Some(t))
            && (Finished(s.tasks[t]) ==> next.tasks[t] == s.tasks[t])
  {
    hide MarkedHealthy;
    hide MarkedFailed;
    hide MarkedStopped;
    hide Transitioned;
  }

  lemma WarmupCallStep(s: State, step: Step, threshold: nat, t: nat)
    requires WellFormed(s) && Enabled(s, step) && t < |s.tasks| && s.tasks[t].warmup && ByCall(step)
    ensures var next := Apply(s, step, threshold);
            && t < |next.tasks| && next.tasks[t] == s.tasks[t]
            && (next.pending == Some(t) ==> s.pending == Some(t) && !Finds(s, step, t))
            && (Finds(s, step, t) ==> s.pending == Some(t) && s.tasks[t].phase == DoneBad)
  {
    hide MarkedHealthy;
    hide MarkedFailed;
    hide Transitioned;
  }

  lemma WarmupStepOwes(s: State, step: Step, threshold: nat, t: nat)
    requires WellFormed(s) && Enabled(s, step)
    ensures var next, c := Apply(s, step, threshold), Counted(s, step, t);
            t < |next.tasks| && next.tasks[t].warmup ==> c.marks + WarmupOwes(next, t) <= WarmupOwes(s, t)
  {
    hide Apply;
    hide Enabled;
    hide Holders;
    hide Marks;
    hide Finds;
    var next := Apply(s, step, threshold);
    if t < |s.tasks| {
      StartIsPermanent(s, step, threshold, t);
      if t < |next.tasks| && next.tasks[t].warmup {
        if ByCall(step) {
          CallStepBalances(s, step, threshold, t);
          WarmupCallStep(s, step, threshold, t);
        } else {
          WarmupTaskStep(s, step, threshold, t);
          SameHolders(s, next, t);
        }
      }
    } else {
      NotYet(s, step, t);
      if t < |next.tasks| {
        StartBegins(s, step, threshold, t);
      }
    }
  }

  lemma {:induction false} WarmupRunOwes(from: State, steps: seq<Step>, to: State, threshold: nat, t: nat)
    requires Run(from, steps, to, threshold) && t < |to.tasks| && to.tasks[t].warmup
    ensures Account(from, steps, threshold, t).marks + WarmupOwes(to, t) <= WarmupOwes(from, t)
    decreases |steps|
  {
    if steps != [] {
      hide Apply;
      hide Enabled;
      hide Counted;
      hide WarmupOwes;
      var next := Apply(from, steps[0], threshold);
      WarmupStepOwes(from, steps[0], threshold, t);
      WarmupRunOwes(next, steps[1..], to, threshold, t);
      if t < |next.tasks| {
        StartStaysPermanent(next, steps[1..], to, threshold, t);
      } else {
        StillToCome(from, steps[0], threshold, t);
        NothingOwedYet(from, next, t);
      }
    }
  }

  lemma NothingOwedYet(s: State, next: State, t: nat)
    requires t >= |s.tasks| && t >= |next.tasks|
    ensures WarmupOwes(s, t) == WarmupOwes(next, t)
  {
  }

  /** No start is ever counted more than three times; one that did not fail, or a warmup, at most once. */
  lemma CountIsBounded(steps: seq<Step>, to: State, threshold: nat, t: nat)
    requires Run(START, steps, to, threshold) && t < |to.tasks|
    ensures var marks := Account(START, steps, threshold, t).marks;
            && marks <= 3
            && (to.tasks[t].warmup || to.tasks[t].phase != DoneBad ==> marks <= 1)
  {
    if to.tasks[t].warmup {
      WarmupRunOwes(START, steps, to, threshold, t);
    } else if to.tasks[t].phase == DoneBad {
      RunBalances(START, steps, to, threshold, t);
    } else {
      GoodRunCountsHolders(START, steps, to, threshold, t);
    }
  }

  // ---------------------------------------------------------------------------
  // One call at a time
  // ---------------------------------------------------------------------------

  /** The call that waits for the start times out, or is cancelled. */
  predicate GivesUp(s: State, step: Step, t: nat)
    requires WellFormed(s) && Enabled(s, step)
  {
    (step.TimeOut? || step.CancelCall?) && s.callers[step.call] == Waiting(t)
  }

  ghost predicate NobodyGivesUp(from: State, steps: seq<Step>, threshold: nat, t: nat)
    decreases |steps|
  {
    steps != [] && WellFormed(from) && Enabled(from, steps[0]) ==>
      !GivesUp(from, steps[0], t) && NobodyGivesUp(Apply(from, steps[0], threshold), steps[1..], threshold, t)
  }

  /** The entry of a start is guarded by the call that waits for it. */
  ghost predicate Guarded(s: State, t: nat) {
    WellFormed(s) && (t < |s.tasks| && !s.tasks[t].warmup && s.pending == Some(t) ==>
                        exists call :: call in s.callers && s.callers[call] == Waiting(t))
  }

  lemma StepKeepsGuard(s: State, step: Step, threshold: nat, t: nat)
    requires Guarded(s, t) && Enabled(s, step) && !GivesUp(s, step, t) && (Foreground(step) ==> s.callers == map[])
    ensures Guarded(Apply(s, step, threshold), t)
  {
    hide MarkedHealthy;
    hide MarkedFailed;
    hide MarkedStopped;
    hide Transitioned;
    StepKeepsWellFormed(s, step, threshold);
    var next := Apply(s, step, threshold);
    if t < |next.tasks| && !next.tasks[t].warmup && next.pending == Some(t) {
      if t < |s.tasks| {
        StartIsPermanent(s, step, threshold, t);
        var call :| call in s.callers && s.callers[call] == Waiting(t);
        assert call in next.callers && next.callers[call] == Waiting(t);
      } else {
        assert next.callers[step.call] == Waiting(t);
      }
    }
  }

  lemma {:induction false} GuardedEntryIsNotFound(from: State, steps: seq<Step>, to: State, threshold: nat, t: nat)
    requires Guarded(from, t) && Run(from, steps, to, threshold) && t < |to.tasks| && !to.tasks[t].warmup
    requires OneCallAtATime(from, steps, threshold) && NobodyGivesUp(from, steps, threshold, t)
    ensures Account(from, steps, threshold, t).finds == 0
    decreases |steps|
  {
    if steps != [] {
      var next := Apply(from, steps[0], threshold);
      StepKeepsGuard(from, steps[0], threshold, t);
      GuardedEntryIsNotFound(next, steps[1..], to, threshold, t);
      if t < |from.tasks| {
        StartStaysPermanent(from, steps, to, threshold, t);
      }
    }
  }

  /** With one call at a time a failed start is counted twice at most, unless the call that began it gave up waiting. */
  lemma SerialFailureCountsTwice(steps: seq<Step>, to: State, threshold: nat, t: nat)
    requires Run(START, steps, to, threshold) && Settled(to, t)
    requires OneCallAtATime(START, steps, threshold) && NobodyGivesUp(START, steps, threshold, t)
    ensures var a := Account(START, steps, threshold, t); a.finds == 0 && a.marks + a.drops == 2 && a.marks <= 2
  {
    GuardedEntryIsNotFound(START, steps, to, threshold, t);
    FailureIsCounted(steps, to, threshold, t);
  }

  // ---------------------------------------------------------------------------
  // Every count occurs
  // ---------------------------------------------------------------------------

  /** One more step in front of a run of serial calls with a known account. */
  lemma InFront(s: State, step: Step, steps: seq<Step>, to: State, threshold: nat, t: nat, a: Tally) returns (all: seq<Step>, b: Tally)
    requires WellFormed(s) && Enabled(s, step) && (Foreground(step) ==> s.callers == map[])
    requires var next := Apply(s, step, threshold);
             Run(next, steps, to, threshold) && OneCallAtATime(next, steps, threshold) && a == Account(next, steps, threshold, t)
    ensures Run(s, all, to, threshold) && OneCallAtATime(s, all, threshold)
    ensures b == Account(s, all, threshold, t) == Sum(Counted(s, step, t), a)
  {
    all, b := [step] + steps, Sum(Counted(s, step, t), a);
    RunCons(s, step, steps, to, threshold);
    assert all[1..] == steps;
  }

  lemma NoStep(s: State, threshold: nat, t: nat) returns (steps: seq<Step>, a: Tally)
    requires WellFormed(s)
    ensures Run(s, steps, s, threshold) && OneCallAtATime(s, steps, threshold) && a == Account(s, steps, threshold, t) == Tally(0, 0, 0)
  {
    steps, a := [], Tally(0, 0, 0);
  }

  /** A provider that is down, with one start. */
  function Down(r: Record, pending: Option<nat>, phase: Phase, due: bool, callers: map<nat, Caller>, failing: set<nat>): State {
    State(r, false, pending, [Task(false, phase, due)], callers, failing)
  }

  /** The callback of the failed start and its marking, while the calls stay where they are. */
  lemma CallbackCounts(r: Record, pending: Option<nat>, callers: map<nat, Caller>, steps: seq<Step>, to: State, threshold: nat, a: Tally)
    returns (all: seq<Step>, b: Tally)
    requires WellFormed(Down(r, pending, DoneBad, true, callers, {}))
    requires var next := Down(Fail(r, threshold), None, DoneBad, false, callers, {});
             Run(next, steps, to, threshold) && OneCallAtATime(next, steps, threshold) && a == Account(next, steps, threshold, 0)
    ensures var s := Down(r, pending, DoneBad, true, callers, {});
            && Run(s, all, to, threshold) && OneCallAtATime(s, all, threshold)
            && b == Account(s, all, threshold, 0) == Tally(a.marks + 1, a.drops, a.finds)
  {
    hide Run;
    hide Account;
    hide OneCallAtATime;
    hide MarkedFailed;
    var s := Down(r, pending, DoneBad, true, callers, {});
    var called := Down(r, None, DoneBad, false, callers, {0});
    assert Apply(s, Callback(0), threshold) == called;
    assert Apply(called, FailureMarked(0, true), threshold) == Down(Fail(r, threshold), None, DoneBad, false, callers, {});
    all, b := InFront(called, FailureMarked(0, true), steps, to, threshold, 0, a);
    all, b := InFront(s, Callback(0), all, to, threshold, 0, b);
  }

  lemma FailingCallCounts(r: Record, call: nat, threshold: nat) returns (all: seq<Step>, to: State, b: Tally)
    ensures var s := Down(r, None, DoneBad, false, map[call := Failing(Some(0))], {});
            && to == Down(Fail(r, threshold), None, DoneBad, false, map[], {})
            && Run(s, all, to, threshold) && OneCallAtATime(s, all, threshold) && b == Account(s, all, threshold, 0) == Tally(1, 0, 0)
  {
    hide MarkedFailed;
    var s := Down(r, None, DoneBad, false, map[call := Failing(Some(0))], {});
    to := Down(Fail(r, threshold), None, DoneBad, false, map[], {});
    assert s.callers - {call} == map[];
    assert Apply(s, Cleaned(call, true), threshold) == to;
    hide Run;
    hide Account;
    hide OneCallAtATime;
    all, b := NoStep(to, threshold, 0);
    all, b := InFront(s, Cleaned(call, true), all, to, threshold, 0, b);
  }

  /** The step leads from `s` to `next` and has this part in the account of the one start. */
  ghost predicate Leads(s: State, step: Step, next: State, threshold: nat, c: Tally) {
    && WellFormed(s) && Enabled(s, step) && (Foreground(step) ==> s.callers == map[])
    && Apply(s, step, threshold) == next && Counted(s, step, 0) == c
  }

  /** What is known of a run that is built from its end. */
  ghost predicate Built(s: State, steps: seq<Step>, to: State, threshold: nat, a: Tally) {
    Run(s, steps, to, threshold) && OneCallAtATime(s, steps, threshold) && a == Account(s, steps, threshold, 0)
  }

  lemma Build(s: State, step: Step, next: State, c: Tally, steps: seq<Step>, to: State, threshold: nat, a: Tally)
    returns (all: seq<Step>, b: Tally)
    requires Leads(s, step, next, threshold, c) && Built(next, steps, to, threshold, a)
    ensures Built(s, all, to, threshold, b)
    ensures b.marks == c.marks + a.marks && b.drops == c.drops + a.drops && b.finds == c.finds + a.finds
  {
    hide Run;
    hide Account;
    hide OneCallAtATime;
    hide Apply;
    hide Enabled;
    all, b := InFront(s, step, steps, to, threshold, 0, a);
  }

  function Waits(r: Record, phase: Phase, due: bool): State {
    Down(r, Some(0), phase, due, map[0 := Waiting(0)], {})
  }

  function Alone(r: Record, phase: Phase, due: bool): State {
    Down(r, Some(0), phase, due, map[], {})
  }

  function About(r: Record, call: nat, due: bool): State {
    Down(r, None, DoneBad, due, map[call := Failing(Some(0))], {})
  }

  lemma BeginLeads(threshold: nat)
    ensures Leads(START, Enter(0, false), Waits(Transitioned(NEW_PROVIDER, Starting, false, None), InStart, false), threshold, Tally(0, 0, 0))
  {
  }

  lemma WaiterLeads(r: Record, threshold: nat)
    ensures Leads(Waits(r, InStart, false), TimeOut(0), Alone(Fail(r, threshold), InStart, false), threshold, Tally(1, 0, 0))
    ensures Leads(Waits(r, InStart, false), CancelCall(0), Alone(r, InStart, false), threshold, Tally(0, 1, 0))
    ensures Leads(Waits(r, InStart, false), Finishes(0, false), Waits(r, DoneBad, true), threshold, Tally(0, 0, 0))
  {
    hide MarkedFailed;
    assert map[0 := Waiting(0)] - {0} == map[];
  }

  lemma AloneLeads(r: Record, threshold: nat)
    ensures Leads(Alone(r, InStart, false), Finishes(0, false), Alone(r, DoneBad, true), threshold, Tally(0, 0, 0))
    ensures Leads(Alone(r, DoneBad, true), Enter(1, false), About(r, 1, true), threshold, Tally(0, 0, 1))
  {
    hide MarkedFailed;
  }

  lemma ReportedLeads(r: Record, threshold: nat)
    ensures Leads(Down(r, None, DoneBad, false, map[0 := Waiting(0)], {}), Wake(0), About(r, 0, false), threshold, Tally(0, 0, 0))
  {
    hide MarkedFailed;
    assert map[0 := Waiting(0)][0 := Failing(Some(0))] == map[0 := Failing(Some(0))];
  }

  /**
   Three times, with one call at a time: the waiting call times out, and before the callback of the failed start
   has run a later call finds its entry.
   */
  lemma SerialFailureCanCountThreeTimes(threshold: nat) returns (steps: seq<Step>, to: State)
    ensures Run(START, steps, to, threshold) && OneCallAtATime(START, steps, threshold) && Settled(to, 0)
    ensures Account(START, steps, threshold, 0) == Tally(3, 0, 1)
  {
    hide Leads;
    hide Run;
    hide Account;
    hide OneCallAtATime;
    hide Apply;
    hide Transitioned;
    hide MarkedFailed;
    var first := Transitioned(NEW_PROVIDER, Starting, false, None);
    BeginLeads(threshold);
    WaiterLeads(first, threshold);
    var late := Fail(first, threshold);
    AloneLeads(late, threshold);
    var a;
    steps, to, a := FailingCallCounts(Fail(late, threshold), 1, threshold);
    steps, a := CallbackCounts(late, None, map[1 := Failing(Some(0))], steps, to, threshold, a);
    steps, a := Build(Alone(late, DoneBad, true), Enter(1, false), About(late, 1, true), Tally(0, 0, 1), steps, to, threshold, a);
    steps, a := Build(Alone(late, InStart, false), Finishes(0, false), Alone(late, DoneBad, true), Tally(0, 0, 0), steps, to, threshold, a);
    steps, a := Build(Waits(first, InStart, false), TimeOut(0), Alone(late, InStart, false), Tally(1, 0, 0), steps, to, threshold, a);
    steps, a := Build(START, Enter(0, false), Waits(first, InStart, false), Tally(0, 0, 0), steps, to, threshold, a);
  }

  /** Twice: nobody gives up and nobody finds the entry. */
  lemma FailureCanCountTwice(threshold: nat) returns (steps: seq<Step>, to: State)
    ensures Run(START, steps, to, threshold) && OneCallAtATime(START, steps, threshold) && Settled(to, 0)
    ensures Account(START, steps, threshold, 0) == Tally(2, 0, 0)
  {
    hide Leads;
    hide Run;
    hide Account;
    hide OneCallAtATime;
    hide Apply;
    hide Transitioned;
    hide MarkedFailed;
    var first := Transitioned(NEW_PROVIDER, Starting, false, None);
    var marked, waiting := Fail(first, threshold), map[0 := Waiting(0)];
    BeginLeads(threshold);
    WaiterLeads(first, threshold);
    ReportedLeads(marked, threshold);
    var a;
    steps, to, a := FailingCallCounts(marked, 0, threshold);
    steps, a := Build(Down(marked, None, DoneBad, false, waiting, {}), Wake(0), About(marked, 0, false), Tally(0, 0, 0), steps, to, threshold, a);
    steps, a := CallbackCounts(first, Some(0), waiting, steps, to, threshold, a);
    steps, a := Build(Waits(first, InStart, false), Finishes(0, false), Waits(first, DoneBad, true), Tally(0, 0, 0), steps, to, threshold, a);
    steps, a := Build(START, Enter(0, false), Waits(first, InStart, false), Tally(0, 0, 0), steps, to, threshold, a);
  }

  lemma CallbackAlone(r: Record, threshold: nat) returns (steps: seq<Step>, to: State, a: Tally)
    ensures Built(Alone(r, DoneBad, true), steps, to, threshold, a) && Settled(to, 0) && a == Tally(1, 0, 0)
  {
    hide Run;
    hide Account;
    hide OneCallAtATime;
    hide MarkedFailed;
    to := Down(Fail(r, threshold), None, DoneBad, false, map[], {});
    steps, a := NoStep(to, threshold, 0);
    steps, a := CallbackCounts(r, Some(0), map[], steps, to, threshold, a);
  }

  lemma CancelledWait(r: Record, threshold: nat) returns (steps: seq<Step>, to: State, a: Tally)
    ensures Built(Waits(r, InStart, false), steps, to, threshold, a) && Settled(to, 0) && a == Tally(1, 1, 0)
  {
    hide Leads;
    hide Built;
    hide Settled;
    hide Waits;
    hide Alone;
    WaiterLeads(r, threshold);
    AloneLeads(r, threshold);
    var s, b;
    s, to, b := CallbackAlone(r, threshold);
    s, b := Build(Alone(r, InStart, false), Finishes(0, false), Alone(r, DoneBad, true), Tally(0, 0, 0), s, to, threshold, b);
    assert b == Tally(1, 0, 0);
    steps, a := Build(Waits(r, InStart, false), CancelCall(0), Alone(r, InStart, false), Tally(0, 1, 0), s, to, threshold, b);
  }

  /** Once: the waiting call is cancelled before the start ends. */
  lemma FailureCanCountOnce(threshold: nat) returns (steps: seq<Step>, to: State)
    ensures Run(START, steps, to, threshold) && OneCallAtATime(START, steps, threshold) && Settled(to, 0)
    ensures Account(START, steps, threshold, 0) == Tally(1, 1, 0)
  {
    hide Leads;
    hide Run;
    hide Account;
    hide OneCallAtATime;
    var first := Transitioned(NEW_PROVIDER, Starting, false, None);
    BeginLeads(threshold);
    var a;
    steps, to, a := CancelledWait(first, threshold);
    steps, a := Build(START, Enter(0, false), Waits(first, InStart, false), Tally(0, 0, 0), steps, to, threshold, a);
  }
}
