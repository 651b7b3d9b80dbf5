/**
 The course of one job from its submission to its end, and of the workers to theirs
 (butler/jobs.py, `JobManager.submit`, `_run_job` and `_worker_loop`).
 */
module JobCourse {
  import opened PyText
  import opened JobStore
  import opened JobManager

  // ---------------------------------------------------------------------------
  // One job, undisturbed
  // ---------------------------------------------------------------------------

  /** The steps of a submission by thread `k`. */
  function Submission(k: nat, job: JobId, session: string): seq<Step> {
    [Admit(k), Create(k, job, session), AnnounceQueued(k), Put(k)]
  }

  /** The steps of worker `l` with the next job. */
  function Execution(l: nat, ok: bool): seq<Step> {
    [Get(l), MarkRunning(l), AnnounceStarted(l), CallExecutor(l), Return(l, ok), Record(l), Report(l, false)]
  }

  lemma RunStep(s: State, step: Step, next: State, steps: seq<Step>, to: State)
    requires Enabled(s, step) && Apply(s, step) == next && Run(next, steps, to)
    ensures Run(s, [step] + steps, to)
  {
    assert ([step] + steps)[1..] == steps;
  }

  lemma RunNothing(s: State)
    ensures Run(s, [], s)
  {
  }

  function EventOf(s: Db, job: JobId, session: string, kind: EventKind): Db {
    s.(events := s.events + [Event(s.lastId + 1, job, session, kind)], lastId := s.lastId + 1)
  }

  lemma Twice(threads: map<nat, Thread>, k: nat, t: Thread, u: Thread)
    ensures threads[k := t][k := u] == threads[k := u]
  {
  }

  /** The states that a submitting thread leads through. */
  function Entering(s: State, k: nat, job: JobId, session: string, n: nat): State
    requires n <= 4
  {
    var created := s.db.(jobs := s.db.jobs[job := Job(session, Queued)]);
    var queued := EventOf(created, job, session, QueuedEvent);
    if n == 0 then s
    else if n == 1 then s.(threads := s.threads[k := Admitted])
    else if n == 2 then s.(db := created, threads := s.threads[k := Created(job)])
    else if n == 3 then s.(db := queued, threads := s.threads[k := Enqueuing(job)])
    else s.(db := queued, queue := s.queue + [Work(job)], put := s.put + [Work(job)], threads := s.threads[k := Gone])
  }

  lemma EnteringStep(s: State, k: nat, job: JobId, session: string, n: nat)
    requires s.up && !s.closed && k !in s.threads && job !in s.db.jobs && n < 4
    ensures Enabled(Entering(s, k, job, session, n), Submission(k, job, session)[n])
    ensures Apply(Entering(s, k, job, session, n), Submission(k, job, session)[n]) == Entering(s, k, job, session, n + 1)
  {
    Twice(s.threads, k, Admitted, Created(job));
    Twice(s.threads, k, Created(job), Enqueuing(job));
    Twice(s.threads, k, Enqueuing(job), Gone);
  }

  lemma {:induction false} EnteringRuns(s: State, k: nat, job: JobId, session: string, n: nat)
    requires s.up && !s.closed && k !in s.threads && job !in s.db.jobs && n <= 4
    ensures Run(Entering(s, k, job, session, n), Submission(k, job, session)[n..], Entering(s, k, job, session, 4))
    decreases 4 - n
  {
    hide Run;
    hide Entering;
    hide Enabled;
    hide Apply;
    var steps := Submission(k, job, session);
    var last := Entering(s, k, job, session, 4);
    if n == 4 {
      assert steps[4..] == [];
      RunNothing(last);
    } else {
      EnteringStep(s, k, job, session, n);
      EnteringRuns(s, k, job, session, n + 1);
      RunStep(Entering(s, k, job, session, n), steps[n], Entering(s, k, job, session, n + 1), steps[n + 1..], last);
      assert [steps[n]] + steps[n + 1..] == steps[n..];
    }
  }

  /** A submission to an open manager: the row, the "queued" event and the entry behind all others. */
  lemma SubmissionQueues(s: State, k: nat, job: JobId, session: string)
    requires s.up && !s.closed && k !in s.threads && job !in s.db.jobs
    ensures var db := s.db.(jobs := s.db.jobs[job := Job(session, Queued)]);
            var to := s.(db := EventOf(db, job, session, QueuedEvent), queue := s.queue + [Work(job)],
                         put := s.put + [Work(job)], threads := s.threads[k := Gone]);
            Run(s, Submission(k, job, session), to)
  {
    EnteringRuns(s, k, job, session, 0);
    assert Submission(k, job, session)[0..] == Submission(k, job, session);
  }

  /** What an execution leaves in the database. */
  function Executed(db: Db, job: JobId, ok: bool): Db
    requires job in db.jobs
  {
    var session := db.jobs[job].session;
    var started := EventOf(db.(jobs := db.jobs[job := Job(session, Running)]), job, session, StartedEvent);
    EventOf(started.(jobs := started.jobs[job := Job(session, if ok then Succeeded else Failed)]), job, session,
            if ok then CompletedEvent else FailedEvent)
  }

  /** The states that a worker leads through with the job at the head of the queue. */
  function Course(s: State, l: nat, job: JobId, ok: bool, n: nat): State
    requires job in s.db.jobs && s.queue != [] && n <= 7
  {
    var session := s.db.jobs[job].session;
    var taken := s.(queue := s.queue[1..], taken := s.taken + [Work(job)]);
    var running := s.db.(jobs := s.db.jobs[job := Job(session, Running)]);
    var started := EventOf(running, job, session, StartedEvent);
    var called := taken.(db := started, calls := s.calls + [job]);
    var ended := started.(jobs := started.jobs[job := Job(session, if ok then Succeeded else Failed)]);
    if n == 0 then s
    else if n == 1 then taken.(threads := s.threads[l := Picked(job)])
    else if n == 2 then taken.(db := running, threads := s.threads[l := Marked(job)])
    else if n == 3 then taken.(db := started, threads := s.threads[l := Announced(job)])
    else if n == 4 then called.(threads := s.threads[l := Executing(job)])
    else if n == 5 then called.(threads := s.threads[l := Returned(job, ok)])
    else if n == 6 then called.(db := ended, threads := s.threads[l := Recorded(job, ok)])
    else called.(db := EventOf(ended, job, session, if ok then CompletedEvent else FailedEvent), threads := s.threads[l := Idle])
  }

  lemma CourseStep(s: State, l: nat, job: JobId, ok: bool, n: nat)
    requires s.up && l in s.threads && s.threads[l] == Idle && s.queue != [] && s.queue[0] == Work(job) && job in s.db.jobs
    requires n < 7
    ensures Enabled(Course(s, l, job, ok, n), Execution(l, ok)[n])
    ensures Apply(Course(s, l, job, ok, n), Execution(l, ok)[n]) == Course(s, l, job, ok, n + 1)
  {
    hide Course;
    if n < 4 {
      FirstHalf(s, l, job, ok, n);
    } else {
      SecondHalf(s, l, job, ok, n);
    }
  }

  lemma FirstHalf(s: State, l: nat, job: JobId, ok: bool, n: nat)
    requires s.up && l in s.threads && s.threads[l] == Idle && s.queue != [] && s.queue[0] == Work(job) && job in s.db.jobs
    requires n < 4
    ensures Enabled(Course(s, l, job, ok, n), Execution(l, ok)[n])
    ensures Apply(Course(s, l, job, ok, n), Execution(l, ok)[n]) == Course(s, l, job, ok, n + 1)
  {
    Twice(s.threads, l, Picked(job), Marked(job));
    Twice(s.threads, l, Marked(job), Announced(job));
    Twice(s.threads, l, Announced(job), Executing(job));
  }

  lemma SecondHalf(s: State, l: nat, job: JobId, ok: bool, n: nat)
    requires s.up && l in s.threads && s.threads[l] == Idle && s.queue != [] && s.queue[0] == Work(job) && job in s.db.jobs
    requires 4 <= n < 7
    ensures Enabled(Course(s, l, job, ok, n), Execution(l, ok)[n])
    ensures Apply(Course(s, l, job, ok, n), Execution(l, ok)[n]) == Course(s, l, job, ok, n + 1)
  {
    Twice(s.threads, l, Executing(job), Returned(job, ok));
    Twice(s.threads, l, Returned(job, ok), Recorded(job, ok));
    Twice(s.threads, l, Recorded(job, ok), Idle);
    assert s.db.jobs[job := Job(s.db.jobs[job].session, Running)][job := Job(s.db.jobs[job].session, if ok then Succeeded else Failed)]
           == s.db.jobs[job := Job(s.db.jobs[job].session, if ok then Succeeded else Failed)];
  }

  lemma {:induction false} CourseRuns(s: State, l: nat, job: JobId, ok: bool, n: nat)
    requires s.up && l in s.threads && s.threads[l] == Idle && s.queue != [] && s.queue[0] == Work(job) && job in s.db.jobs
    requires n <= 7
    ensures Run(Course(s, l, job, ok, n), Execution(l, ok)[n..], Course(s, l, job, ok, 7))
    decreases 7 - n
  {
    hide Run;
    hide Course;
    hide Enabled;
    hide Apply;
    var steps := Execution(l, ok);
    if n == 7 {
      assert steps[7..] == [];
      RunNothing(Course(s, l, job, ok, 7));
    } else {
      CourseStep(s, l, job, ok, n);
      CourseRuns(s, l, job, ok, n + 1);
      RunStep(Course(s, l, job, ok, n), steps[n], Course(s, l, job, ok, n + 1), steps[n + 1..], Course(s, l, job, ok, 7));
      assert [steps[n]] + steps[n + 1..] == steps[n..];
    }
  }

  /**
   An idle worker with a job at the head of the queue: the executor is called once for it, the row ends as the executor
   did, the "started" event and the one of the end follow each other, and the worker is idle again.
   */
  lemma ExecutionEndsJob(s: State, l: nat, job: JobId, ok: bool)
    requires s.up && l in s.threads && s.threads[l] == Idle && s.queue != [] && s.queue[0] == Work(job) && job in s.db.jobs
    ensures var to := s.(db := Executed(s.db, job, ok), queue := s.queue[1..], taken := s.taken + [Work(job)],
                         calls := s.calls + [job], threads := s.threads);
            Run(s, Execution(l, ok), to)
  {
    CourseRuns(s, l, job, ok, 0);
    assert Execution(l, ok)[0..] == Execution(l, ok);
    assert s.threads[l := Idle] == s.threads;
  }

  // ---------------------------------------------------------------------------
  // The end of a thread
  // ---------------------------------------------------------------------------

  /** A thread that has ended takes no step any more while the process is up. */
  lemma EndedStaysEnded(s: State, step: Step, k: nat)
    requires Enabled(s, step) && s.up && !step.Crash? && k in s.threads && s.threads[k] == Gone
    ensures k in Apply(s, step).threads && Apply(s, step).threads[k] == Gone
  {
  }

  lemma {:induction false} EndedForGood(from: State, steps: seq<Step>, to: State, k: nat)
    requires Run(from, steps, to) && from.up && NoCrash(steps) && k in from.threads && from.threads[k] == Gone
    ensures to.up && k in to.threads && to.threads[k] == Gone
    decreases |steps|
  {
    if steps != [] {
      EndedStaysEnded(from, steps[0], k);
      assert !steps[0].Crash? && Apply(from, steps[0]).up;
      assert forall i :: 0 <= i < |steps[1..]| ==> steps[1..][i] == steps[i + 1];
      EndedForGood(Apply(from, steps[0]), steps[1..], to, k);
    }
  }

  /** What ends a thread without a job: its submission is over or refused, or the worker has taken a stop. */
  lemma EndsAt(s: State, step: Step)
    requires Enabled(s, step)
    ensures step.Put? || step.Refuse? || (step.Get? && s.queue[0] == Stop) ==> Apply(s, step).threads[step.thread] == Gone
    ensures step.Report? && step.blankMessage ==> Apply(s, step) == s.(threads := s.threads[step.thread := Gone])
    ensures step.Die? ==> Apply(s, step) == s.(threads := s.threads[step.thread := Lost(s.threads[step.thread].job)])
  {
  }

  /** No worker is told to stop before a shutdown. */
  ghost predicate StopsAreOrdered(s: State) {
    Stop in s.queue + s.taken ==> s.closed
  }

  lemma {:induction false} NoStopBeforeShutdown(from: State, steps: seq<Step>, to: State)
    requires Run(from, steps, to) && StopsAreOrdered(from) && (from.up || from.queue + from.taken == [])
    requires NoShutdown(steps) && !from.closed
    ensures !to.closed && Stop !in to.queue && Stop !in to.taken
    decreases |steps|
  {
    if steps != [] {
      StopStep(from, steps[0]);
      assert !steps[0].Shutdown?;
      assert forall i :: 0 <= i < |steps[1..]| ==> steps[1..][i] == steps[i + 1];
      NoStopBeforeShutdown(Apply(from, steps[0]), steps[1..], to);
    }
  }

  ghost predicate NoShutdown(steps: seq<Step>) {
    forall i :: 0 <= i < |steps| ==> !steps[i].Shutdown?
  }

  lemma StopStep(s: State, step: Step)
    requires Enabled(s, step) && StopsAreOrdered(s) && !s.closed && !step.Shutdown? && (s.up || s.queue + s.taken == [])
    ensures var next := Apply(s, step);
            StopsAreOrdered(next) && !next.closed && (next.up || next.queue + next.taken == [])
  {
  }

  /** Nobody is admitted any more once the manager is shut down, until the process is started anew. */
  lemma ClosedAdmitsNobody(s: State, k: nat)
    requires s.closed
    ensures !Enabled(s, Admit(k))
  {
  }

  /** A process that is down can only be started, and is open for submissions then. */
  lemma {:induction false} StartOpens(steps: seq<Step>, to: State, step: Step)
    requires Run(DOWN, steps, to) && Enabled(to, step) && !to.up
    ensures step.Restart? && Apply(to, step).up && !Apply(to, step).closed
  {
    DownIsOpen(DOWN, steps, to);
  }

  lemma {:induction false} DownIsOpen(from: State, steps: seq<Step>, to: State)
    requires Run(from, steps, to) && (from.up || !from.closed)
    ensures to.up || !to.closed
    decreases |steps|
  {
    if steps != [] {
      DownIsOpen(Apply(from, steps[0]), steps[1..], to);
    }
  }

  /** A process is started with one worker at least. */
  lemma StartNeedsAWorker(s: State, workers: nat, order: seq<JobId>)
    requires !s.up && Lists(order, Incomplete(s.db))
    ensures Enabled(s, Restart(workers, order)) <==> workers >= 1
  {
  }

  /** The first step of all is a start of the process. */
  lemma BeginsWithAStart(step: Step)
    requires Enabled(DOWN, step)
    ensures step.Restart?
  {
  }

  /** A crash loses the queue and the threads, and nothing that is stored or was ever called. */
  lemma CrashKeepsTheStore(s: State)
    requires Enabled(s, Crash)
    ensures var next := Apply(s, Crash);
            && next.db == s.db && next.calls == s.calls && !next.up && !next.closed
            && next.queue == [] && next.threads == map[]
  {
  }

  lemma {:induction false} InterruptionsAre(db: Db, order: seq<JobId>, n: nat)
    requires n <= |order| && forall i :: 0 <= i < |order| ==> order[i] in db.jobs
    ensures var next := InterruptionEvents(db, order, n);
            && next.jobs == db.jobs && |next.events| == |db.events| + n && db.events <= next.events && next.lastId == db.lastId + n
            && forall i :: 0 <= i < n ==>
                 next.events[|db.events| + i] == Event(db.lastId + 1 + i, order[i], db.jobs[order[i]].session, InterruptedEvent)
    decreases n
  {
    if n > 0 {
      InterruptionsAre(db, order, n - 1);
    }
  }

  /** The events behind the first `n` tell that each of these jobs was interrupted, in its own session and in this order. */
  ghost predicate TellOf(events: seq<Event>, n: nat, order: seq<JobId>, jobs: map<JobId, Job>) {
    && |events| == n + |order|
    && forall i :: 0 <= i < |order| ==>
         && order[i] in jobs && events[n + i].job == order[i] && events[n + i].kind == InterruptedEvent
         && events[n + i].session == jobs[order[i]].session
  }

  lemma InterruptionsTell(db: Db, order: seq<JobId>)
    requires forall i :: 0 <= i < |order| ==> order[i] in db.jobs
    ensures var now := MarkInterrupted(db, order).events;
            db.events <= now && TellOf(now, |db.events|, order, db.jobs)
  {
    var marked := db.(jobs := map job | job in db.jobs ::
                        if Terminal(db.jobs[job].status) then db.jobs[job] else db.jobs[job].(status := Interrupted));
    InterruptionsAre(marked, order, |order|);
  }

  /** A start tells of every job that was open, once, and of no other. */
  lemma RestartTellsOfEveryJob(s: State, workers: nat, order: seq<JobId>)
    requires Enabled(s, Restart(workers, order))
    ensures var now := Apply(s, Restart(workers, order)).db.events;
            s.db.events <= now && TellOf(now, |s.db.events|, order, s.db.jobs)
    ensures forall job :: job in order <==> job in s.db.jobs && !Terminal(s.db.jobs[job].status)
    ensures forall i, j :: 0 <= i < j < |order| ==> order[i] != order[j]
  {
    assert forall job :: job in order <==> job in Incomplete(s.db);
    InterruptionsTell(s.db, order);
  }

  /** A start of the process interrupts what was open and begins with as many idle workers as are asked for. */
  lemma RestartBegins(s: State, workers: nat, order: seq<JobId>)
    requires Enabled(s, Restart(workers, order))
    ensures var next := Apply(s, Restart(workers, order));
            && next.up && next.calls == s.calls && next.queue == s.queue
            && (forall k: nat :: k in next.threads <==> k < workers)
            && (forall k: nat :: k < workers ==> next.threads[k] == Idle)
            && next.db == MarkInterrupted(s.db, order)
  {
    IdleWorkersAreIdle(workers);
  }
}
