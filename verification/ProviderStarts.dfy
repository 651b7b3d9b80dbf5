/**
 How many starts of one provider can be in flight together
 (butler/mcp_client/client.py, `_async_ensure_started`, line 888).
 */
module ProviderStarts {
  import opened PyText
  import opened ProviderStatus
  import opened ProviderLifecycle

  predicate Unfinished(s: State, t: nat) {
    t < |s.tasks| && (s.tasks[t].phase == InStart || s.tasks[t].phase == Cleaning)
  }

  /** Every unfinished start is the pending one. */
  ghost predicate Single(s: State) {
    WellFormed(s) && forall t: nat :: Unfinished(s, t) ==> s.pending == Some(t)
  }

  /** A call wakes up and removes the pending entry of a start that is not its own and still in flight. */
  predicate ForeignPop(s: State, step: Step)
    requires WellFormed(s)
  {
    step.Wake? && Enabled(s, step) && s.pending.Some? && Unfinished(s, s.pending.value)
  }

  ghost predicate NoForeignPop(from: State, steps: seq<Step>, threshold: nat)
    decreases |steps|
  {
    steps != [] && WellFormed(from) && Enabled(from, steps[0]) ==>
      !ForeignPop(from, steps[0]) && NoForeignPop(Apply(from, steps[0], threshold), steps[1..], threshold)
  }

  // ---------------------------------------------------------------------------
  // Without a foreign pop there is one start, however many calls overlap
  // ---------------------------------------------------------------------------

  lemma EntryKeepsSingle(s: State, step: Step, threshold: nat)
    requires Single(s) && Enabled(s, step) && (step.Enter? || step.Schedule?)
    ensures Single(Apply(s, step, threshold))
  {
    hide MarkedHealthy;
    hide Transitioned;
    StepKeepsWellFormed(s, step, threshold);
    var next := Apply(s, step, threshold);
    forall t: nat | Unfinished(next, t) ensures next.pending == Some(t) {
      assert t < |s.tasks| ==> Unfinished(s, t);
    }
  }

  lemma TaskKeepsSingle(s: State, step: Step, threshold: nat)
    requires Single(s) && Enabled(s, step)
    requires step.Finishes? || step.CancelledUnstarted? || step.Callback? || step.WarmupCleaned?
    ensures Single(Apply(s, step, threshold))
  {
    hide MarkedHealthy;
    hide MarkedFailed;
    StepKeepsWellFormed(s, step, threshold);
    var next := Apply(s, step, threshold);
    forall t: nat | Unfinished(next, t) ensures next.pending == Some(t) {
      assert Unfinished(s, t);
    }
  }

  lemma CallKeepsSingle(s: State, step: Step, threshold: nat)
    requires Single(s) && Enabled(s, step) && !ForeignPop(s, step)
    requires !step.Enter? && !step.Schedule? && !step.Finishes? && !step.CancelledUnstarted? && !step.Callback? && !step.WarmupCleaned?
    ensures Single(Apply(s, step, threshold))
  {
    hide MarkedHealthy;
    hide MarkedFailed;
    hide MarkedStopped;
    StepKeepsWellFormed(s, step, threshold);
    var next := Apply(s, step, threshold);
    assert next.tasks == s.tasks;
    forall t: nat | Unfinished(next, t) ensures next.pending == Some(t) {
      assert Unfinished(s, t);
    }
  }

  lemma StepKeepsSingle(s: State, step: Step, threshold: nat)
    requires Single(s) && Enabled(s, step) && !ForeignPop(s, step)
    ensures Single(Apply(s, step, threshold))
  {
    hide Single;
    hide Apply;
    hide Enabled;
    if step.Enter? || step.Schedule? {
      EntryKeepsSingle(s, step, threshold);
    } else if step.Finishes? || step.CancelledUnstarted? || step.Callback? || step.WarmupCleaned? {
      TaskKeepsSingle(s, step, threshold);
    } else {
      CallKeepsSingle(s, step, threshold);
    }
  }

  /** The removal of a foreign entry is the one step that lets an unfinished start out of sight. */
  lemma StepStaysSingleIff(s: State, step: Step, threshold: nat)
    requires Single(s) && Enabled(s, step)
    ensures Single(Apply(s, step, threshold)) <==> !ForeignPop(s, step)
  {
    if ForeignPop(s, step) {
      assert Unfinished(Apply(s, step, threshold), s.pending.value);
    } else {
      StepKeepsSingle(s, step, threshold);
    }
  }

  lemma {:induction false} RunsStaySingle(from: State, steps: seq<Step>, to: State, threshold: nat)
    requires Single(from) && Run(from, steps, to, threshold) && NoForeignPop(from, steps, threshold)
    ensures Single(to)
    decreases |steps|
  {
    if steps != [] {
      StepKeepsSingle(from, steps[0], threshold);
      RunsStaySingle(Apply(from, steps[0], threshold), steps[1..], to, threshold);
    }
  }

  /** Any number of calls may overlap: as long as none removes a foreign entry, no two starts are in flight together. */
  lemma OneStartWithoutForeignPop(steps: seq<Step>, to: State, threshold: nat, t: nat, u: nat)
    requires Run(START, steps, to, threshold) && NoForeignPop(START, steps, threshold)
    requires Unfinished(to, t) && Unfinished(to, u)
    ensures t == u
  {
    RunsStaySingle(START, steps, to, threshold);
  }

  // ---------------------------------------------------------------------------
  // After a foreign pop two starts can follow at once
  // ---------------------------------------------------------------------------

  lemma {:induction false} FreshCall(used: set<nat>) returns (call: nat)
    ensures forall other :: other in used ==> other < call
  {
    call := 0;
    if used != {} {
      var one: nat :| one in used;
      var rest := FreshCall(used - {one});
      call := if one < rest then rest else one + 1;
      assert forall other :: other in used ==> other == one || other in used - {one};
    }
  }

  lemma EntryBesideUnfinished(s: State, call: nat, u: nat, threshold: nat)
    requires WellFormed(s) && call !in s.callers && !s.running && s.pending == None && Unfinished(s, u)
    ensures Enabled(s, Enter(call, true))
    ensures var next := Apply(s, Enter(call, true), threshold);
            WellFormed(next) && Unfinished(next, u) && Unfinished(next, |s.tasks|) && u != |s.tasks|
  {
    hide Transitioned;
    StepKeepsWellFormed(s, Enter(call, true), threshold);
  }

  lemma OneStepRun(s: State, step: Step, threshold: nat)
    requires WellFormed(s) && Enabled(s, step) && WellFormed(Apply(s, step, threshold))
    ensures Run(s, [step], Apply(s, step, threshold), threshold)
  {
    assert Run(Apply(s, step, threshold), [], Apply(s, step, threshold), threshold);
    RunCons(s, step, [], Apply(s, step, threshold), threshold);
    assert [step] + [] == [step];
  }

  /** Whenever a foreign entry can be removed, the next forced call starts a second process beside the first. */
  lemma ForeignPopStartsTwo(s: State, step: Step, threshold: nat)
    returns (steps: seq<Step>, to: State, t: nat, u: nat)
    requires WellFormed(s) && Enabled(s, step) && ForeignPop(s, step)
    ensures steps != [] && steps[0] == step && |steps| <= 3
    ensures Run(s, steps, to, threshold) && t != u && Unfinished(to, t) && Unfinished(to, u)
  {
    hide MarkedHealthy;
    hide Transitioned;
    hide Run;
    u := s.pending.value;
    var popped := Apply(s, step, threshold);
    StepKeepsWellFormed(s, step, threshold);
    assert popped.pending == None && Unfinished(popped, u);
    var call := FreshCall(popped.callers.Keys);
    t := |popped.tasks|;
    if popped.running {
      var down := Apply(popped, ConnectionDown, threshold);
      StepKeepsWellFormed(popped, ConnectionDown, threshold);
      EntryBesideUnfinished(down, call, u, threshold);
      to := Apply(down, Enter(call, true), threshold);
      OneStepRun(down, Enter(call, true), threshold);
      RunCons(popped, ConnectionDown, [Enter(call, true)], to, threshold);
      RunCons(s, step, [ConnectionDown] + [Enter(call, true)], to, threshold);
      steps := [step] + ([ConnectionDown] + [Enter(call, true)]);
    } else {
      EntryBesideUnfinished(popped, call, u, threshold);
      to := Apply(popped, Enter(call, true), threshold);
      OneStepRun(popped, Enter(call, true), threshold);
      RunCons(s, step, [Enter(call, true)], to, threshold);
      steps := [step] + [Enter(call, true)];
    }
  }

  /** Such a state is reached when a warmup is scheduled between the end of a start and the waking of the call that began it. */
  lemma ForeignPopHappens(threshold: nat) returns (steps: seq<Step>, to: State)
    ensures Run(START, steps, to, threshold) && WellFormed(to) && ForeignPop(to, Wake(0))
  {
    hide MarkedFailed;
    var s1 := Apply(START, Enter(0, false), threshold);
    var s2 := Apply(s1, Finishes(0, false), threshold);
    var s3 := Apply(s2, Callback(0), threshold);
    to := Apply(s3, Schedule, threshold);
    OneStepRun(s3, Schedule, threshold);
    RunCons(s2, Callback(0), [Schedule], to, threshold);
    RunCons(s1, Finishes(0, false), [Callback(0)] + [Schedule], to, threshold);
    steps := [Enter(0, false)] + ([Finishes(0, false)] + ([Callback(0)] + [Schedule]));
    RunCons(START, Enter(0, false), [Finishes(0, false)] + ([Callback(0)] + [Schedule]), to, threshold);
  }

  // ---------------------------------------------------------------------------
  // One call at a time
  // ---------------------------------------------------------------------------

  /** The foreground calls of the client's interface. */
  predicate Foreground(step: Step) {
    step.Enter? || step.UseReady? || step.Schedule? || step.StopAll?
  }

  /** Each foreground call begins only when no other one is suspended. */
  ghost predicate OneCallAtATime(from: State, steps: seq<Step>, threshold: nat)
    decreases |steps|
  {
    steps != [] && WellFormed(from) && Enabled(from, steps[0]) ==>
      && (Foreground(steps[0]) ==> from.callers == map[])
      && OneCallAtATime(Apply(from, steps[0], threshold), steps[1..], threshold)
  }

  /** A waiting call is alone, and the only entry it can meet is its own. */
  ghost predicate Serial(s: State) {
    && WellFormed(s)
    && (forall call, other :: call in s.callers && other in s.callers ==> call == other)
    && (forall call :: call in s.callers && s.callers[call].Waiting? && s.pending.Some? ==>
          s.pending.value == s.callers[call].task)
  }

  lemma StepKeepsSerial(s: State, step: Step, threshold: nat)
    requires Serial(s) && Enabled(s, step) && (Foreground(step) ==> s.callers == map[])
    ensures Serial(Apply(s, step, threshold))
  {
    hide MarkedHealthy;
    hide MarkedFailed;
    hide MarkedStopped;
    hide Transitioned;
    hide WellFormed;
    StepKeepsWellFormed(s, step, threshold);
  }

  lemma {:induction false} SerialCallsPopTheirOwn(from: State, steps: seq<Step>, threshold: nat)
    requires Serial(from) && OneCallAtATime(from, steps, threshold)
    ensures NoForeignPop(from, steps, threshold)
    decreases |steps|
  {
    if steps != [] && Enabled(from, steps[0]) {
      StepKeepsSerial(from, steps[0], threshold);
      SerialCallsPopTheirOwn(Apply(from, steps[0], threshold), steps[1..], threshold);
    }
  }

  /** With one foreground call at a time, no two starts of a provider are ever in flight together. */
  lemma AtMostOneStart(steps: seq<Step>, to: State, threshold: nat, t: nat, u: nat)
    requires Run(START, steps, to, threshold) && OneCallAtATime(START, steps, threshold)
    requires Unfinished(to, t) && Unfinished(to, u)
    ensures t == u
  {
    SerialCallsPopTheirOwn(START, steps, threshold);
    OneStartWithoutForeignPop(steps, to, threshold, t, u);
  }
}
