/**
 What the job store says of a job is what its executor did: told by the steps of a run
 (butler/jobs.py, `JobManager`).
 */
module JobTruth {
  import opened PyText
  import opened JobStore
  import opened JobManager

  /** A call of the executor came back, or raised. */
  datatype Answer = Answer(job: JobId, ok: bool)

  /** The state behind the first `n` steps. */
  ghost function StateAt(from: State, steps: seq<Step>, n: nat): State
    requires n <= |steps|
    decreases n
  {
    if n == 0 then from
    else
      var before := StateAt(from, steps, n - 1);
      if Enabled(before, steps[n - 1]) then Apply(before, steps[n - 1]) else before
  }

  /** In step `i` the executor answered for a job: it returned, or it raised. */
  ghost predicate Answers(from: State, steps: seq<Step>, i: nat, job: JobId, ok: bool) {
    && i < |steps| && steps[i].Return? && steps[i].ok == ok
    && var s := StateAt(from, steps, i);
    steps[i].thread in s.threads && s.threads[steps[i].thread] == Executing(job)
  }

  ghost predicate Answered(from: State, steps: seq<Step>, job: JobId, ok: bool) {
    exists i: nat :: Answers(from, steps, i, job, ok)
  }

  lemma {:induction false} RunPasses(from: State, steps: seq<Step>, to: State, n: nat)
    requires Run(from, steps, to) && n <= |steps|
    ensures Run(from, steps[..n], StateAt(from, steps, n))
    ensures n < |steps| ==> Enabled(StateAt(from, steps, n), steps[n])
    ensures n == |steps| ==> StateAt(from, steps, n) == to
    decreases |steps|
  {
    if n == 0 {
      assert steps[..0] == [];
    } else {
      var next := Apply(from, steps[0]);
      RunPasses(next, steps[1..], to, n - 1);
      StateShifts(from, steps, n);
      assert steps[..n][1..] == steps[1..][..n - 1];
    }
  }

  lemma {:induction false} StateShifts(from: State, steps: seq<Step>, n: nat)
    requires 0 < n <= |steps| && Enabled(from, steps[0])
    ensures StateAt(from, steps, n) == StateAt(Apply(from, steps[0]), steps[1..], n - 1)
    decreases n
  {
    hide Apply;
    hide Enabled;
    if n > 1 {
      StateShifts(from, steps, n - 1);
      assert steps[1..][n - 2] == steps[n - 1];
    } else {
      assert StateAt(from, steps, 0) == from;
    }
  }

  // ---------------------------------------------------------------------------
  // What the answers so far have left behind
  // ---------------------------------------------------------------------------

  /** The jobs that have been answered for, and how. */
  ghost function AnswersSoFar(from: State, steps: seq<Step>, n: nat): set<Answer>
    requires n <= |steps|
    decreases n
  {
    if n == 0 then {}
    else
      var s := StateAt(from, steps, n - 1);
      AnswersSoFar(from, steps, n - 1)
      + if steps[n - 1].Return? && steps[n - 1].thread in s.threads && s.threads[steps[n - 1].thread].Executing?
        then {Answer(s.threads[steps[n - 1].thread].job, steps[n - 1].ok)} else {}
  }

  lemma {:induction false} AnswersComeFromSteps(from: State, steps: seq<Step>, n: nat, a: Answer)
    requires n <= |steps|
    ensures a in AnswersSoFar(from, steps, n) <==> exists i: nat :: i < n && Answers(from, steps, i, a.job, a.ok)
    decreases n
  {
    if n > 0 {
      AnswersComeFromSteps(from, steps, n - 1, a);
      if a in AnswersSoFar(from, steps, n) {
        if a in AnswersSoFar(from, steps, n - 1) {
          var i: nat :| i < n - 1 && Answers(from, steps, i, a.job, a.ok);
          assert i < n && Answers(from, steps, i, a.job, a.ok);
        } else {
          assert n - 1 < n && Answers(from, steps, n - 1, a.job, a.ok);
        }
      }
      if i: nat :| i < n && Answers(from, steps, i, a.job, a.ok) {
        assert i < n - 1 || i == n - 1;
      }
    }
  }

  /** An answered job has been called; rows and threads say of an outcome only what was answered. */
  ghost predicate Truthful(s: State, answers: set<Answer>) {
    && (forall a :: a in answers ==> a.job in s.calls)
    && (forall job :: job in s.db.jobs && s.db.jobs[job].status == Succeeded ==> Answer(job, true) in answers)
    && (forall job :: job in s.db.jobs && s.db.jobs[job].status == Failed ==> Answer(job, false) in answers)
    && (forall k :: k in s.threads ==> ThreadTruthful(s.threads[k], s.calls, answers))
  }

  ghost predicate ThreadTruthful(t: Thread, calls: seq<JobId>, answers: set<Answer>) {
    match t
    case Executing(job) => job in calls && Answer(job, true) !in answers && Answer(job, false) !in answers
    case Returned(job, ok) => Answer(job, ok) in answers
    case Recorded(job, ok) => Answer(job, ok) in answers
    case _ => true
  }

  /** What the answer of a step adds. */
  ghost function Added(s: State, step: Step): set<Answer> {
    if step.Return? && step.thread in s.threads && s.threads[step.thread].Executing?
    then {Answer(s.threads[step.thread].job, step.ok)} else {}
  }

  /** Another owner's job is another job. */
  lemma OthersStayTruthful(s: State, step: Step, answers: set<Answer>, l: nat)
    requires Inv(s) && Truthful(s, answers) && Enabled(s, step)
    requires l in s.threads && l in Apply(s, step).threads && Apply(s, step).threads[l] == s.threads[l]
    requires step.Return? || step.CallExecutor? ==> l != step.thread
    ensures ThreadTruthful(s.threads[l], Apply(s, step).calls, answers + Added(s, step))
  {
    hide EventsAgree;
    hide OwnersFit;
    hide CallsFit;
    hide NoTerminalEvent;
    hide Lists;
    assert ThreadTruthful(s.threads[l], s.calls, answers);
    if s.threads[l].Executing? && step.Return? {
      assert Holds(s.threads[l]) && Holds(s.threads[step.thread]);
      assert s.threads[l].job != s.threads[step.thread].job;
    }
  }

  lemma ActorStaysTruthful(s: State, step: Step, answers: set<Answer>)
    requires Inv(s) && Truthful(s, answers) && Enabled(s, step) && Acts(step)
    ensures var next := Apply(s, step);
            step.thread in next.threads && ThreadTruthful(next.threads[step.thread], next.calls, answers + Added(s, step))
  {
    hide EventsAgree;
    hide OneOwner;
    hide CallsFit;
    hide NoTerminalEvent;
    hide Lists;
    if step.thread in s.threads {
      assert ThreadTruthful(s.threads[step.thread], s.calls, answers);
      assert ThreadFits(s, s.threads[step.thread]);
    }
    if step.CallExecutor? {
      assert s.threads[step.thread].job !in s.calls;
    }
  }

  lemma RowsStayTruthful(s: State, step: Step, answers: set<Answer>)
    requires Inv(s) && Truthful(s, answers) && Enabled(s, step)
    ensures var next := Apply(s, step);
            forall job :: job in next.db.jobs ==>
              && (next.db.jobs[job].status == Succeeded ==> Answer(job, true) in answers + Added(s, step))
              && (next.db.jobs[job].status == Failed ==> Answer(job, false) in answers + Added(s, step))
  {
    hide EventsAgree;
    hide OneOwner;
    hide OwnersFit;
    hide CallsFit;
    hide NoTerminalEvent;
    hide Truthful;
    if step.Record? {
      RecordedRow(s, step.thread, answers);
    } else if step.Restart? {
      InterruptedRows(s.db, step.order);
      RowsAre(s, answers);
    } else {
      RowsAre(s, answers);
    }
  }

  lemma RowsAre(s: State, answers: set<Answer>)
    requires Truthful(s, answers)
    ensures forall job :: job in s.db.jobs && s.db.jobs[job].status == Succeeded ==> Answer(job, true) in answers
    ensures forall job :: job in s.db.jobs && s.db.jobs[job].status == Failed ==> Answer(job, false) in answers
  {
  }

  lemma RecordedRow(s: State, k: nat, answers: set<Answer>)
    requires Truthful(s, answers) && Enabled(s, Record(k))
    ensures var next := Apply(s, Record(k));
            forall job :: job in next.db.jobs ==>
              && (next.db.jobs[job].status == Succeeded ==> Answer(job, true) in answers)
              && (next.db.jobs[job].status == Failed ==> Answer(job, false) in answers)
  {
    assert ThreadTruthful(s.threads[k], s.calls, answers);
  }

  lemma InterruptedRows(db: Db, order: seq<JobId>)
    requires Lists(order, Incomplete(db))
    ensures var next := MarkInterrupted(db, order);
            forall job :: job in next.jobs ==>
              job in db.jobs && (next.jobs[job].status == db.jobs[job].status || next.jobs[job].status == Interrupted)
  {
  }

  lemma StepStaysTruthful(s: State, step: Step, answers: set<Answer>)
    requires Inv(s) && Truthful(s, answers) && Enabled(s, step)
    ensures Truthful(Apply(s, step), answers + Added(s, step))
  {
    hide Inv;
    hide ThreadTruthful;
    var next := Apply(s, step);
    RowsStayTruthful(s, step, answers);
    CalledIsAnswered(s, step, answers);
    forall l | l in next.threads ensures ThreadTruthful(next.threads[l], next.calls, answers + Added(s, step)) {
      if Acts(step) && l == step.thread {
        ActorStaysTruthful(s, step, answers);
      } else if step.Restart? {
        IdleWorkersAreIdle(step.workers);
        IdleIsTruthful(next.calls, answers + Added(s, step));
      } else {
        OthersStayTruthful(s, step, answers, l);
      }
    }
  }

  lemma IdleIsTruthful(calls: seq<JobId>, answers: set<Answer>)
    ensures ThreadTruthful(Idle, calls, answers)
  {
  }

  lemma CalledIsAnswered(s: State, step: Step, answers: set<Answer>)
    requires Truthful(s, answers) && Enabled(s, step)
    ensures forall a :: a in answers + Added(s, step) ==> a.job in Apply(s, step).calls
  {
    if step.Return? {
      assert ThreadTruthful(s.threads[step.thread], s.calls, answers);
    }
  }

  lemma {:induction false} RunStaysTruthful(steps: seq<Step>, to: State, n: nat)
    requires Run(DOWN, steps, to) && n <= |steps|
    ensures Inv(StateAt(DOWN, steps, n)) && Truthful(StateAt(DOWN, steps, n), AnswersSoFar(DOWN, steps, n))
    decreases n
  {
    hide Inv;
    hide Truthful;
    if n == 0 {
      DownIsTruthful();
    } else {
      RunPasses(DOWN, steps, to, n - 1);
      RunStaysTruthful(steps, to, n - 1);
      var s := StateAt(DOWN, steps, n - 1);
      StepKeepsInv(s, steps[n - 1]);
      StepStaysTruthful(s, steps[n - 1], AnswersSoFar(DOWN, steps, n - 1));
    }
  }

  lemma DownIsTruthful()
    ensures Inv(DOWN) && Truthful(DOWN, {})
  {
  }

  // ---------------------------------------------------------------------------
  // The results
  // ---------------------------------------------------------------------------

  /**
   In every run: a job that ended succeeded, or has a "completed" event, is one whose executor returned; a job that ended
   failed, or has a "failed" event, is one whose executor raised.
   */
  lemma OutcomeIsTrue(steps: seq<Step>, to: State, job: JobId)
    requires Run(DOWN, steps, to) && job in to.db.jobs
    ensures to.db.jobs[job].status == Succeeded ==> Answered(DOWN, steps, job, true)
    ensures to.db.jobs[job].status == Failed ==> Answered(DOWN, steps, job, false)
    ensures forall i :: 0 <= i < |to.db.events| && to.db.events[i].job == job ==>
              && (to.db.events[i].kind == CompletedEvent ==> Answered(DOWN, steps, job, true))
              && (to.db.events[i].kind == FailedEvent ==> Answered(DOWN, steps, job, false))
  {
    hide Run;
    hide Inv;
    hide Answers;
    hide AnswersSoFar;
    hide StateAt;
    var n := |steps|;
    RunPasses(DOWN, steps, to, n);
    RunStaysTruthful(steps, to, n);
    RowsAre(to, AnswersSoFar(DOWN, steps, n));
    hide Truthful;
    AnswersComeFromSteps(DOWN, steps, n, Answer(job, true));
    AnswersComeFromSteps(DOWN, steps, n, Answer(job, false));
    EventsFollowRows(steps, to);
  }

  lemma EventsFollowRows(steps: seq<Step>, to: State)
    requires Run(DOWN, steps, to)
    ensures forall i :: 0 <= i < |to.db.events| ==>
              var e := to.db.events[i];
              && (e.kind == CompletedEvent ==> e.job in to.db.jobs && to.db.jobs[e.job].status == Succeeded)
              && (e.kind == FailedEvent ==> e.job in to.db.jobs && to.db.jobs[e.job].status == Failed)
  {
    hide Run;
    OneTruthfulTerminalEvent(steps, to);
  }

  /** A job is answered for once at most, and for one outcome. */
  lemma AnsweredOnce(steps: seq<Step>, to: State, job: JobId, i: nat, ok: bool, j: nat, ok': bool)
    requires Run(DOWN, steps, to) && Answers(DOWN, steps, i, job, ok) && Answers(DOWN, steps, j, job, ok')
    ensures i == j && ok == ok'
  {
    if i < j {
      AnsweredBefore(steps, to, job, i, ok, j, ok');
    } else if j < i {
      AnsweredBefore(steps, to, job, j, ok', i, ok);
    }
  }

  lemma AnsweredBefore(steps: seq<Step>, to: State, job: JobId, i: nat, ok: bool, j: nat, ok': bool)
    requires Run(DOWN, steps, to) && Answers(DOWN, steps, i, job, ok) && Answers(DOWN, steps, j, job, ok')
    ensures i >= j
  {
    RunStaysTruthful(steps, to, j);
    AnswersComeFromSteps(DOWN, steps, j, Answer(job, ok));
    var s := StateAt(DOWN, steps, j);
    assert ThreadTruthful(s.threads[steps[j].thread], s.calls, AnswersSoFar(DOWN, steps, j));
  }
}
