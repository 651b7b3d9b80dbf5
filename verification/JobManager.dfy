/**
 N workers, submitters, a FIFO queue and a durable store, with crashes at any point
 (butler/jobs.py, `JobManager`).  Every store call is one atomic transaction.
 */
module JobManager {
  import opened PyText
  import opened JobStore

  datatype Item = Work(job: JobId) | Stop

  /** Where a submitting thread or a worker is, between two store or queue operations. */
  datatype Thread =
    | Admitted                              // submit() has seen that the manager is open
    | Created(job: JobId)                   // the row is written
    | Enqueuing(job: JobId)                 // the "queued" event is written
    | Idle                                  // a worker before queue.get()
    | Picked(job: JobId)
    | Marked(job: JobId)                    // status "running" is written
    | Announced(job: JobId)                 // the "started" event is written
    | Executing(job: JobId)                 // the executor has been called
    | Returned(job: JobId, ok: bool)        // the executor has returned or raised
    | Recorded(job: JobId, ok: bool)        // the terminal status is written
    | Lost(job: JobId)                      // died with the job in its hands
    | Gone

  datatype State = State(
    db: Db,
    up: bool,
    closed: bool,
    queue: seq<Item>,
    threads: map<nat, Thread>,
    calls: seq<JobId>,                      // every call of the executor ever made
    put: seq<Item>,                         // what this process has put into the queue
    taken: seq<Item>)                       // what its workers have taken out

  datatype Step =
    | Admit(thread: nat)
    | Create(thread: nat, job: JobId, session: string)
    | Refuse(thread: nat)                   // the row cannot be written
    | AnnounceQueued(thread: nat)
    | Put(thread: nat)
    | Shutdown
    | PutStop
    | Get(thread: nat)
    | MarkRunning(thread: nat)
    | AnnounceStarted(thread: nat)
    | CallExecutor(thread: nat)
    | Return(thread: nat, ok: bool)
    | Record(thread: nat)
    | Report(thread: nat, blankMessage: bool)
    | Die(thread: nat)                      // an exception that nothing catches, at any point
    | Crash
    | Restart(workers: nat, order: seq<JobId>)

  const DOWN: State := State(EMPTY, false, false, [], map[], [], [], [])

  predicate At(s: State, thread: nat)
  {
    s.up && thread in s.threads
  }

  ghost predicate Enabled(s: State, step: Step) {
    match step
    case Admit(k) => s.up && !s.closed && k !in s.threads
    case Create(k, job, _) => At(s, k) && s.threads[k].Admitted? && job !in s.db.jobs
    case Refuse(k) => At(s, k) && s.threads[k].Admitted?
    case AnnounceQueued(k) => At(s, k) && s.threads[k].Created? && s.threads[k].job in s.db.jobs
    case Put(k) => At(s, k) && s.threads[k].Enqueuing?
    case Shutdown => s.up
    case PutStop => s.up && s.closed
    case Get(k) => At(s, k) && s.threads[k].Idle? && s.queue != []
    case MarkRunning(k) => At(s, k) && s.threads[k].Picked?
    case AnnounceStarted(k) => At(s, k) && s.threads[k].Marked? && s.threads[k].job in s.db.jobs
    case CallExecutor(k) => At(s, k) && s.threads[k].Announced?
    case Return(k, _) => At(s, k) && s.threads[k].Executing?
    case Record(k) => At(s, k) && s.threads[k].Returned? && s.threads[k].job in s.db.jobs
    case Report(k, blank) => At(s, k) && s.threads[k].Recorded? && s.threads[k].job in s.db.jobs && (blank ==> !s.threads[k].ok)
    case Die(k) => At(s, k) && Holds(s.threads[k])
    case Crash => s.up
    case Restart(workers, order) => !s.up && workers > 0 && Lists(order, Incomplete(s.db))
  }

  function Session(s: State, job: JobId): string {
    if job in s.db.jobs then s.db.jobs[job].session else ""
  }

  /** The thread moves on without touching anything else. */
  function Go(s: State, k: nat, thread: Thread): State {
    s.(threads := s.threads[k := thread])
  }

  function IdleWorkers(n: nat): map<nat, Thread> {
    if n == 0 then map[] else IdleWorkers(n - 1)[n - 1 := Idle]
  }

  lemma {:induction false} IdleWorkersAreIdle(n: nat)
    ensures forall k: nat :: k in IdleWorkers(n) <==> k < n
    ensures forall k :: k in IdleWorkers(n) ==> IdleWorkers(n)[k] == Idle
  {
    if n > 0 {
      IdleWorkersAreIdle(n - 1);
    }
  }

  function Apply(s: State, step: Step): State
    requires Enabled(s, step)
  {
    match step
    case Admit(k) => Go(s, k, Admitted)
    case Create(k, job, session) =>
      Go(s, k, Created(job)).(db := s.db.(jobs := s.db.jobs[job := Job(session, Queued)]))
    case Refuse(k) => Go(s, k, Gone)
    case AnnounceQueued(k) =>
      var job := s.threads[k].job;
      Go(s, k, Enqueuing(job)).(db := AddEvent(s.db, job, Session(s, job), QueuedEvent))
    case Put(k) =>
      var item := Work(s.threads[k].job);
      Go(s, k, Gone).(queue := s.queue + [item], put := s.put + [item])
    case Shutdown => s.(closed := true)
    case PutStop => s.(queue := s.queue + [Stop], put := s.put + [Stop])
    case Get(k) =>
      var rest := s.(queue := s.queue[1..], taken := s.taken + [s.queue[0]]);
      (match s.queue[0]
       case Stop => Go(rest, k, Gone)
       case Work(job) => Go(rest, k, Picked(job)))
    case MarkRunning(k) =>
      var job := s.threads[k].job;
      if job in s.db.jobs then Go(s, k, Marked(job)).(db := SetStatus(s.db, job, Running)) else Go(s, k, Idle)
    case AnnounceStarted(k) =>
      var job := s.threads[k].job;
      Go(s, k, Announced(job)).(db := AddEvent(s.db, job, Session(s, job), StartedEvent))
    case CallExecutor(k) => Go(s, k, Executing(s.threads[k].job)).(calls := s.calls + [s.threads[k].job])
    case Return(k, ok) => Go(s, k, Returned(s.threads[k].job, ok))
    case Record(k) =>
      var Returned(job, ok) := s.threads[k];
      Go(s, k, Recorded(job, ok)).(db := SetStatus(s.db, job, Outcome(ok)))
    case Report(k, blank) =>
      var Recorded(job, ok) := s.threads[k];
      if blank then Go(s, k, Gone)
      else Go(s, k, Idle).(db := AddEvent(s.db, job, Session(s, job), if ok then CompletedEvent else FailedEvent))
    case Die(k) => Go(s, k, Lost(s.threads[k].job))
    case Crash => s.(up := false, closed := false, queue := [], threads := map[], put := [], taken := [])
    case Restart(workers, order) =>
      s.(db := MarkInterrupted(s.db, order), up := true, threads := IdleWorkers(workers))
  }

  function Outcome(ok: bool): Status {
    if ok then Succeeded else Failed
  }

  ghost predicate Run(from: State, steps: seq<Step>, to: State)
    decreases |steps|
  {
    if steps == [] then from == to
    else Enabled(from, steps[0]) && Run(Apply(from, steps[0]), steps[1..], to)
  }

  // ---------------------------------------------------------------------------
  // The invariant
  // ---------------------------------------------------------------------------

  predicate Holds(t: Thread) {
    !t.Admitted? && !t.Idle? && !t.Gone?
  }

  predicate TerminalEvent(e: Event) {
    e.kind == CompletedEvent || e.kind == FailedEvent || e.kind == InterruptedEvent
  }

  function StatusOf(kind: EventKind): Status {
    match kind
    case QueuedEvent => Queued
    case StartedEvent => Running
    case CompletedEvent => Succeeded
    case FailedEvent => Failed
    case InterruptedEvent => Interrupted
  }

  ghost predicate EventsAgree(db: Db) {
    && (forall i :: 0 <= i < |db.events| ==> db.events[i].job in db.jobs)
    && (forall i :: 0 <= i < |db.events| && TerminalEvent(db.events[i]) ==>
          db.jobs[db.events[i].job].status == StatusOf(db.events[i].kind))
    && (forall i, j :: 0 <= i < j < |db.events| && TerminalEvent(db.events[i]) && TerminalEvent(db.events[j]) ==>
          db.events[i].job != db.events[j].job)
  }

  ghost predicate NoTerminalEvent(db: Db, job: JobId) {
    forall i :: 0 <= i < |db.events| && TerminalEvent(db.events[i]) ==> db.events[i].job != job
  }

  /** A job has one owner: an entry of the queue or one thread. */
  ghost predicate OneOwner(s: State) {
    && (forall i, j :: 0 <= i < j < |s.queue| && s.queue[i].Work? ==> s.queue[i] != s.queue[j])
    && (forall k, l :: k in s.threads && l in s.threads && k != l && Holds(s.threads[k]) && Holds(s.threads[l]) ==>
          s.threads[k].job != s.threads[l].job)
    && (forall i, k :: 0 <= i < |s.queue| && k in s.threads && s.queue[i].Work? && Holds(s.threads[k]) ==>
          s.queue[i].job != s.threads[k].job)
  }

  /** What the owner of a job may rely on. */
  ghost predicate ThreadFits(s: State, t: Thread) {
    match t
    case Created(job) => job in s.db.jobs && s.db.jobs[job].status == Queued && job !in s.calls
    case Enqueuing(job) => job in s.db.jobs && s.db.jobs[job].status == Queued && job !in s.calls
    case Picked(job) => job in s.db.jobs && s.db.jobs[job].status == Queued && job !in s.calls
    case Marked(job) => job in s.db.jobs && s.db.jobs[job].status == Running && job !in s.calls
    case Announced(job) => job in s.db.jobs && s.db.jobs[job].status == Running && job !in s.calls
    case Executing(job) => job in s.db.jobs && s.db.jobs[job].status == Running
    case Returned(job, _) => job in s.db.jobs && s.db.jobs[job].status == Running
    case Recorded(job, ok) => job in s.db.jobs && s.db.jobs[job].status == Outcome(ok) && NoTerminalEvent(s.db, job)
    case Lost(job) => job in s.db.jobs
    case _ => true
  }

  ghost predicate OwnersFit(s: State) {
    && (forall k :: k in s.threads ==> ThreadFits(s, s.threads[k]))
    && (forall i :: 0 <= i < |s.queue| && s.queue[i].Work? ==>
          s.queue[i].job in s.db.jobs && s.db.jobs[s.queue[i].job].status == Queued && s.queue[i].job !in s.calls)
  }

  ghost predicate CallsFit(s: State) {
    && (forall i, j :: 0 <= i < j < |s.calls| ==> s.calls[i] != s.calls[j])
    && (forall i :: 0 <= i < |s.calls| ==> s.calls[i] in s.db.jobs)
  }

  ghost predicate Inv(s: State) {
    && Increasing(s.db.events, s.db.lastId)
    && EventsAgree(s.db)
    && OneOwner(s)
    && OwnersFit(s)
    && CallsFit(s)
    && (!s.up ==> s.queue == [] && s.threads == map[] && s.put == [] && s.taken == [])
  }

  // ---------------------------------------------------------------------------
  // Each kind of step keeps it
  // ---------------------------------------------------------------------------

  lemma QuietEventKeeps(db: Db, job: JobId, session: string, kind: EventKind)
    requires EventsAgree(db) && Increasing(db.events, db.lastId) && job in db.jobs
    requires kind == QueuedEvent || kind == StartedEvent
    ensures var next := AddEvent(db, job, session, kind);
            && EventsAgree(next) && Increasing(next.events, next.lastId)
            && forall other :: NoTerminalEvent(db, other) ==> NoTerminalEvent(next, other)
  {
  }

  lemma TerminalEventKeeps(db: Db, job: JobId, session: string, kind: EventKind)
    requires EventsAgree(db) && Increasing(db.events, db.lastId) && job in db.jobs && NoTerminalEvent(db, job)
    requires db.jobs[job].status == StatusOf(kind) && Terminal(StatusOf(kind))
    ensures var next := AddEvent(db, job, session, kind);
            && EventsAgree(next) && Increasing(next.events, next.lastId)
            && forall other :: other != job && NoTerminalEvent(db, other) ==> NoTerminalEvent(next, other)
  {
  }

  /** Changing the status of a job that has not ended disturbs no event. */
  lemma OpenJobHasNoTerminalEvent(db: Db, job: JobId)
    requires EventsAgree(db) && job in db.jobs && !Terminal(db.jobs[job].status)
    ensures NoTerminalEvent(db, job)
  {
  }

  lemma StatusChangeKeeps(db: Db, job: JobId, status: Status)
    requires EventsAgree(db) && job in db.jobs && NoTerminalEvent(db, job)
    ensures EventsAgree(SetStatus(db, job, status)) && NoTerminalEvent(SetStatus(db, job, status), job)
    ensures forall other :: NoTerminalEvent(db, other) ==> NoTerminalEvent(SetStatus(db, job, status), other)
  {
  }

  /** A thread that moves on with its job, or lets go of it, leaves every owner unique. */
  lemma GoKeepsOneOwner(s: State, next: State, k: nat, t: Thread)
    requires OneOwner(s) && (Holds(t) ==> k in s.threads && Holds(s.threads[k]) && t.job == s.threads[k].job)
    requires next.queue == s.queue && next.threads == s.threads[k := t]
    ensures OneOwner(next)
  {
  }

  /** What happens to the job of one owner is nothing to the others. */
  lemma OwnersFitFrame(s: State, next: State, k: nat, job: JobId)
    requires OneOwner(s) && OwnersFit(s) && k in s.threads && Holds(s.threads[k]) && s.threads[k].job == job
    requires next.queue == s.queue && k in next.threads && next.threads == s.threads[k := next.threads[k]]
    requires ThreadFits(next, next.threads[k])
    requires forall other :: other in s.db.jobs && other != job ==>
               other in next.db.jobs && next.db.jobs[other].status == s.db.jobs[other].status
    requires forall other :: other != job ==> (other in next.calls <==> other in s.calls)
    requires forall other :: other != job && NoTerminalEvent(s.db, other) ==> NoTerminalEvent(next.db, other)
    ensures OwnersFit(next)
  {
    forall l | l in next.threads ensures ThreadFits(next, next.threads[l]) {
      assert l != k ==> ThreadFits(s, s.threads[l]);
    }
  }

  lemma CreateKeepsInv(s: State, step: Step)
    requires Inv(s) && Enabled(s, step) && step.Create?
    ensures Inv(Apply(s, step))
  {
    var next := Apply(s, step);
    assert next.threads == s.threads[step.thread := Created(step.job)];
    forall l | l in next.threads ensures ThreadFits(next, next.threads[l]) {
      assert l != step.thread ==> ThreadFits(s, s.threads[l]);
    }
    assert OneOwner(next) by {
      hide EventsAgree;
      hide CallsFit;
      assert forall l :: l in s.threads ==> ThreadFits(s, s.threads[l]);
    }
  }

  lemma PutKeepsInv(s: State, step: Step)
    requires Inv(s) && Enabled(s, step) && step.Put?
    ensures Inv(Apply(s, step))
  {
    var next := Apply(s, step);
    assert ThreadFits(s, s.threads[step.thread]);
    forall l | l in next.threads ensures ThreadFits(next, next.threads[l]) {
      assert l != step.thread ==> ThreadFits(s, s.threads[l]);
    }
  }

  /** Taking the head of the queue hands its job from the queue to the worker. */
  lemma GetKeepsOneOwner(s: State, k: nat)
    requires OneOwner(s) && Enabled(s, Get(k))
    ensures OneOwner(Apply(s, Get(k)))
  {
    var rest := s.queue[1..];
    assert forall i :: 0 <= i < |rest| ==> rest[i] == s.queue[i + 1];
  }

  lemma GetKeepsOwnersFit(s: State, step: Step)
    requires OwnersFit(s) && Enabled(s, step) && step.Get?
    ensures OwnersFit(Apply(s, step))
  {
    var next := Apply(s, step);
    assert forall i :: 0 <= i < |next.queue| ==> next.queue[i] == s.queue[i + 1];
    forall l | l in next.threads ensures ThreadFits(next, next.threads[l]) {
      assert l != step.thread ==> ThreadFits(s, s.threads[l]);
    }
  }

  lemma GetKeepsInv(s: State, step: Step)
    requires Inv(s) && Enabled(s, step) && step.Get?
    ensures Inv(Apply(s, step))
  {
    hide OneOwner;
    hide OwnersFit;
    GetKeepsOneOwner(s, step.thread);
    GetKeepsOwnersFit(s, step);
  }

  lemma ControlKeepsInv(s: State, step: Step)
    requires Inv(s) && Enabled(s, step) && (step.Admit? || step.Refuse? || step.Shutdown? || step.PutStop? || step.Crash?)
    ensures Inv(Apply(s, step))
  {
    var next := Apply(s, step);
    forall l | l in next.threads ensures ThreadFits(next, next.threads[l]) {
      assert l in s.threads ==> ThreadFits(s, s.threads[l]);
    }
  }

  lemma EventKeepsInv(s: State, step: Step)
    requires Inv(s) && Enabled(s, step) && (step.AnnounceQueued? || step.AnnounceStarted? || step.Report?)
    ensures Inv(Apply(s, step))
  {
    hide OneOwner;
    hide EventsAgree;
    var k, next := step.thread, Apply(s, step);
    var job := s.threads[k].job;
    assert ThreadFits(s, s.threads[k]);
    GoKeepsOneOwner(s, next, k, next.threads[k]);
    if !step.Report? {
      QuietEventKeeps(s.db, job, Session(s, job), if step.AnnounceQueued? then QueuedEvent else StartedEvent);
    } else if !step.blankMessage {
      TerminalEventKeeps(s.db, job, Session(s, job), if s.threads[k].ok then CompletedEvent else FailedEvent);
    }
    OwnersFitFrame(s, next, k, job);
  }

  lemma WorkKeepsInv(s: State, step: Step)
    requires Inv(s) && Enabled(s, step) && (step.MarkRunning? || step.CallExecutor? || step.Return? || step.Record? || step.Die?)
    ensures Inv(Apply(s, step))
  {
    hide OneOwner;
    hide EventsAgree;
    var k, next := step.thread, Apply(s, step);
    var job := s.threads[k].job;
    assert ThreadFits(s, s.threads[k]);
    GoKeepsOneOwner(s, next, k, next.threads[k]);
    if step.MarkRunning? || step.Record? {
      OpenJobHasNoTerminalEvent(s.db, job);
      StatusChangeKeeps(s.db, job, if step.MarkRunning? then Running else Outcome(s.threads[k].ok));
    }
    OwnersFitFrame(s, next, k, job);
  }

  lemma {:induction false} InterruptionsKeep(db: Db, order: seq<JobId>, n: nat)
    requires n <= |order| && (forall i :: 0 <= i < |order| ==> order[i] in db.jobs && db.jobs[order[i]].status == Interrupted)
    requires forall i, j :: 0 <= i < j < |order| ==> order[i] != order[j]
    requires forall i :: 0 <= i < |order| ==> NoTerminalEvent(db, order[i])
    requires EventsAgree(db) && Increasing(db.events, db.lastId)
    ensures var next := InterruptionEvents(db, order, n);
            && EventsAgree(next) && Increasing(next.events, next.lastId)
            && forall i :: n <= i < |order| ==> NoTerminalEvent(next, order[i])
  {
    if n > 0 {
      InterruptionsKeep(db, order, n - 1);
      var before := InterruptionEvents(db, order, n - 1);
      TerminalEventKeeps(before, order[n - 1], db.jobs[order[n - 1]].session, InterruptedEvent);
    }
  }

  lemma RestartKeepsInv(s: State, step: Step)
    requires Inv(s) && Enabled(s, step) && step.Restart?
    ensures Inv(Apply(s, step))
  {
    hide EventsAgree;
    InterruptingKeeps(s.db, step.order);
    IdleWorkersAreIdle(step.workers);
    InterruptedJobsStay(s.db, step.order);
  }

  lemma InterruptingKeeps(db: Db, order: seq<JobId>)
    requires EventsAgree(db) && Increasing(db.events, db.lastId) && Lists(order, Incomplete(db))
    ensures var next := MarkInterrupted(db, order);
            EventsAgree(next) && Increasing(next.events, next.lastId)
  {
    var marked := db.(jobs := map job | job in db.jobs ::
                        if Terminal(db.jobs[job].status) then db.jobs[job] else db.jobs[job].(status := Interrupted));
    forall i | 0 <= i < |order| ensures NoTerminalEvent(marked, order[i]) {
      assert order[i] in Incomplete(db);
      OpenJobHasNoTerminalEvent(db, order[i]);
    }
    assert EventsAgree(marked);
    InterruptionsKeep(marked, order, |order|);
  }

  lemma InterruptedJobsStay(db: Db, order: seq<JobId>)
    requires Lists(order, Incomplete(db))
    ensures MarkInterrupted(db, order).jobs.Keys == db.jobs.Keys
  {
  }

  lemma StepKeepsInv(s: State, step: Step)
    requires Inv(s) && Enabled(s, step)
    ensures Inv(Apply(s, step))
  {
    match step
    case AnnounceQueued(_) => EventKeepsInv(s, step);
    case AnnounceStarted(_) => EventKeepsInv(s, step);
    case Report(_, _) => EventKeepsInv(s, step);
    case MarkRunning(_) => WorkKeepsInv(s, step);
    case CallExecutor(_) => WorkKeepsInv(s, step);
    case Return(_, _) => WorkKeepsInv(s, step);
    case Record(_) => WorkKeepsInv(s, step);
    case Die(_) => WorkKeepsInv(s, step);
    case Restart(_, _) => RestartKeepsInv(s, step);
    case Create(_, _, _) => CreateKeepsInv(s, step);
    case Put(_) => PutKeepsInv(s, step);
    case Get(_) => GetKeepsInv(s, step);
    case _ => ControlKeepsInv(s, step);
  }

  // ---------------------------------------------------------------------------
  // Whole runs
  // ---------------------------------------------------------------------------

  /** The invariant holds after every run from an empty database, however often the process dies. */
  lemma {:induction false} InvAlongRun(from: State, steps: seq<Step>, to: State)
    requires Inv(from) && Run(from, steps, to)
    ensures Inv(to)
    decreases |steps|
  {
    if steps != [] {
      StepKeepsInv(from, steps[0]);
      InvAlongRun(Apply(from, steps[0]), steps[1..], to);
    }
  }

  /** No job's executor is called twice. */
  lemma ExecutorCalledAtMostOnce(steps: seq<Step>, to: State)
    requires Run(DOWN, steps, to)
    ensures forall i, j :: 0 <= i < j < |to.calls| ==> to.calls[i] != to.calls[j]
  {
    InvAlongRun(DOWN, steps, to);
  }

  /** A job has at most one terminal event, and that event says what its row says. */
  lemma OneTruthfulTerminalEvent(steps: seq<Step>, to: State)
    requires Run(DOWN, steps, to)
    ensures forall i :: 0 <= i < |to.db.events| && TerminalEvent(to.db.events[i]) ==>
              && to.db.events[i].job in to.db.jobs
              && to.db.jobs[to.db.events[i].job].status == StatusOf(to.db.events[i].kind)
    ensures forall i, j :: 0 <= i < j < |to.db.events| && TerminalEvent(to.db.events[i]) && TerminalEvent(to.db.events[j]) ==>
              to.db.events[i].job != to.db.events[j].job
  {
    InvAlongRun(DOWN, steps, to);
  }

  lemma EndedJobIsLeftAlone(s: State, step: Step, job: JobId)
    requires Inv(s) && Enabled(s, step) && job in s.db.jobs && Terminal(s.db.jobs[job].status)
    ensures job in Apply(s, step).db.jobs && Apply(s, step).db.jobs[job] == s.db.jobs[job]
    ensures Apply(s, step).calls == s.calls || exists other :: other != job && Apply(s, step).calls == s.calls + [other]
  {
    hide EventsAgree;
    hide OneOwner;
    hide CallsFit;
    if step.MarkRunning? || step.CallExecutor? || step.Record? {
      assert ThreadFits(s, s.threads[step.thread]);
    }
  }

  /** Once a job has ended its row never changes again, and its executor is not called any more. */
  lemma {:induction false} TerminalStatusIsFinal(from: State, steps: seq<Step>, to: State, job: JobId)
    requires Inv(from) && Run(from, steps, to)
    requires job in from.db.jobs && Terminal(from.db.jobs[job].status)
    ensures job in to.db.jobs && to.db.jobs[job] == from.db.jobs[job]
    ensures from.calls <= to.calls && job !in to.calls[|from.calls|..]
    decreases |steps|
  {
    hide Inv;
    hide Enabled;
    hide Apply;
    if steps != [] {
      var next := Apply(from, steps[0]);
      StepKeepsInv(from, steps[0]);
      EndedJobIsLeftAlone(from, steps[0], job);
      TerminalStatusIsFinal(next, steps[1..], to, job);
      var later := to.calls[|next.calls|..];
      assert to.calls[|from.calls|..] == next.calls[|from.calls|..] + later;
    }
  }

  // ---------------------------------------------------------------------------
  // No job is forgotten
  // ---------------------------------------------------------------------------

  ghost predicate HasOwner(s: State, job: JobId) {
    || Work(job) in s.queue
    || exists k :: k in s.threads && Holds(s.threads[k]) && s.threads[k].job == job
  }

  /** While the process is up, every job that has not ended is in the queue, in some thread's hands, or in those of a thread that died. */
  ghost predicate NoneForgotten(s: State) {
    s.up ==> forall job :: job in Incomplete(s.db) ==> HasOwner(s, job)
  }

  lemma QueuedOwnerSurvives(s: State, step: Step, job: JobId)
    requires Enabled(s, step) && s.up && !step.Crash? && Work(job) in s.queue
    ensures HasOwner(Apply(s, step), job)
  {
    var next := Apply(s, step);
    var i :| 0 <= i < |s.queue| && s.queue[i] == Work(job);
    if step.Get? {
      assert i > 0 ==> next.queue[i - 1] == Work(job);
      assert i == 0 ==> next.threads[step.thread] == Picked(job);
    } else {
      assert next.queue[i] == Work(job);
    }
  }

  lemma HoldingOwnerSurvives(s: State, step: Step, k: nat)
    requires Enabled(s, step) && s.up && !step.Crash? && k in s.threads && Holds(s.threads[k]) && ThreadFits(s, s.threads[k])
    ensures var next, job := Apply(s, step), s.threads[k].job;
            HasOwner(next, job) || (job in next.db.jobs && Terminal(next.db.jobs[job].status))
  {
    hide NoTerminalEvent;
    hide Lists;
    var next, job := Apply(s, step), s.threads[k].job;
    if step.Put? && step.thread == k {
      assert next.queue[|s.queue|] == Work(job);
    } else if Acts(step) && step.thread == k {
      HolderMovesOn(s, step);
    } else {
      assert k in next.threads && next.threads[k] == s.threads[k];
    }
  }

  /** The step is one of a single thread. */
  predicate Acts(step: Step) {
    !step.Shutdown? && !step.PutStop? && !step.Crash? && !step.Restart?
  }

  lemma HolderMovesOn(s: State, step: Step)
    requires Enabled(s, step) && s.up && Acts(step) && !step.Put? && step.thread in s.threads && Holds(s.threads[step.thread])
    requires ThreadFits(s, s.threads[step.thread])
    ensures var next, job := Apply(s, step), s.threads[step.thread].job;
            || (step.thread in next.threads && Holds(next.threads[step.thread]) && next.threads[step.thread].job == job)
            || (job in next.db.jobs && Terminal(next.db.jobs[job].status))
  {
    hide NoTerminalEvent;
  }

  lemma OwnerSurvives(s: State, step: Step, job: JobId)
    requires OwnersFit(s) && Enabled(s, step) && s.up && !step.Crash? && HasOwner(s, job)
    ensures var next := Apply(s, step);
            HasOwner(next, job) || (job in next.db.jobs && Terminal(next.db.jobs[job].status))
  {
    if Work(job) in s.queue {
      QueuedOwnerSurvives(s, step, job);
    } else {
      var k :| k in s.threads && Holds(s.threads[k]) && s.threads[k].job == job;
      HoldingOwnerSurvives(s, step, k);
    }
  }

  lemma {:induction false} MarkedJobsEnded(db: Db, order: seq<JobId>)
    requires forall i :: 0 <= i < |order| ==> order[i] in db.jobs
    ensures Incomplete(MarkInterrupted(db, order)) == {}
  {
  }

  lemma StepForgetsNone(s: State, step: Step)
    requires Inv(s) && Enabled(s, step) && NoneForgotten(s)
    ensures NoneForgotten(Apply(s, step))
  {
    var next := Apply(s, step);
    if step.Restart? {
      MarkedJobsEnded(s.db, step.order);
    } else if next.up {
      forall job | job in Incomplete(next.db) ensures HasOwner(next, job) {
        if job in Incomplete(s.db) {
          OwnerSurvives(s, step, job);
        } else if job in s.db.jobs {
          EndedJobIsLeftAlone(s, step, job);
        } else {
          assert next.threads[step.thread] == Created(job);
        }
      }
    }
  }

  lemma {:induction false} NoJobIsForgotten(from: State, steps: seq<Step>, to: State)
    requires Inv(from) && NoneForgotten(from) && Run(from, steps, to)
    ensures NoneForgotten(to)
    decreases |steps|
  {
    if steps != [] {
      StepKeepsInv(from, steps[0]);
      StepForgetsNone(from, steps[0]);
      NoJobIsForgotten(Apply(from, steps[0]), steps[1..], to);
    }
  }

  /** A job that died with its thread is closed by the next start of the process, like every other open job. */
  lemma RestartClosesEveryJob(s: State, step: Step)
    requires Enabled(s, step) && step.Restart?
    ensures Incomplete(Apply(s, step).db) == {}
    ensures forall job :: job in s.db.jobs && !Terminal(s.db.jobs[job].status) ==>
              job in Apply(s, step).db.jobs && Apply(s, step).db.jobs[job].status == Interrupted
  {
    MarkedJobsEnded(s.db, step.order);
  }

  // ---------------------------------------------------------------------------
  // The queue and the shutdown
  // ---------------------------------------------------------------------------

  /** Workers take the entries in exactly the order in which they were put. */
  ghost predicate FirstInFirstOut(s: State) {
    s.taken + s.queue == s.put
  }

  lemma StepKeepsOrder(s: State, step: Step)
    requires Enabled(s, step) && FirstInFirstOut(s)
    ensures FirstInFirstOut(Apply(s, step))
  {
    if step.Get? {
      assert s.queue == [s.queue[0]] + s.queue[1..];
    } else if step.Put? {
      assert s.taken + (s.queue + [Work(s.threads[step.thread].job)]) == s.put + [Work(s.threads[step.thread].job)];
    } else if step.PutStop? {
      assert s.taken + (s.queue + [Stop]) == s.put + [Stop];
    }
  }

  lemma {:induction false} WorkIsTakenInOrder(from: State, steps: seq<Step>, to: State)
    requires FirstInFirstOut(from) && Run(from, steps, to)
    ensures FirstInFirstOut(to) && to.taken <= to.put
    decreases |steps|
  {
    if steps != [] {
      StepKeepsOrder(from, steps[0]);
      WorkIsTakenInOrder(Apply(from, steps[0]), steps[1..], to);
    }
  }

  /** The jobs among the entries of a queue. */
  function Jobs(items: seq<Item>): seq<JobId> {
    if items == [] then []
    else
      var before, last := Jobs(items[..|items| - 1]), items[|items| - 1];
      if last.Work? then before + [last.job] else before
  }

  lemma JobsOneMore(items: seq<Item>, item: Item)
    ensures Jobs(items + [item]) == if item.Work? then Jobs(items) + [item.job] else Jobs(items)
  {
    assert (items + [item])[..|items|] == items;
  }

  lemma {:induction false} JobsOfPrefix(front: seq<Item>, items: seq<Item>)
    requires front <= items
    ensures Jobs(front) <= Jobs(items)
    decreases |items|
  {
    if |front| == |items| {
      assert front == items;
    } else {
      var before := items[..|items| - 1];
      JobsOfPrefix(front, before);
      assert items == before + [items[|items| - 1]];
      JobsOneMore(before, items[|items| - 1]);
    }
  }

  predicate Worker(t: Thread) {
    t.Idle? || AboutToCall(t) || HasCalled(t)
  }

  predicate AboutToCall(t: Thread) {
    t.Picked? || t.Marked? || t.Announced?
  }

  predicate HasCalled(t: Thread) {
    t.Executing? || t.Returned? || t.Recorded?
  }

  ghost predicate OneWorker(s: State) {
    forall k, l :: k in s.threads && l in s.threads && Worker(s.threads[k]) && Worker(s.threads[l]) ==> k == l
  }

  /** The calls since the `n`-th are the jobs that were taken, but for one that the worker has not come to or died with. */
  ghost predicate CalledInOrder(s: State, n: nat) {
    && n <= |s.calls| && s.calls[n..] <= Jobs(s.taken)
    && (forall k :: k in s.threads && (s.threads[k].Idle? || HasCalled(s.threads[k])) ==> s.calls[n..] == Jobs(s.taken))
    && (forall k :: k in s.threads && AboutToCall(s.threads[k]) ==> s.calls[n..] + [s.threads[k].job] == Jobs(s.taken))
  }

  lemma StepKeepsOneWorker(s: State, step: Step)
    requires OneWorker(s) && Enabled(s, step) && s.up && !step.Crash?
    ensures OneWorker(Apply(s, step))
  {
    hide OneWorker;
    hide NoTerminalEvent;
    hide Lists;
    var next := Apply(s, step);
    if Acts(step) {
      ThreadKeepsOneWorker(s, next, step.thread, next.threads[step.thread]);
    } else {
      assert next.threads == s.threads;
      SameWorkers(s, next);
    }
  }

  lemma SameWorkers(s: State, next: State)
    requires OneWorker(s) && next.threads == s.threads
    ensures OneWorker(next)
  {
  }

  lemma ThreadKeepsOneWorker(s: State, next: State, k: nat, t: Thread)
    requires OneWorker(s) && next.threads == s.threads[k := t] && (Worker(t) ==> k in s.threads && Worker(s.threads[k]))
    ensures OneWorker(next)
  {
    hide Worker;
  }

  lemma GetKeepsCallOrder(s: State, k: nat, n: nat)
    requires OneWorker(s) && CalledInOrder(s, n) && Enabled(s, Get(k))
    ensures CalledInOrder(Apply(s, Get(k)), n)
  {
    hide Jobs;
    assert Worker(s.threads[k]);
    JobsOneMore(s.taken, s.queue[0]);
  }

  lemma CallKeepsCallOrder(s: State, k: nat, n: nat)
    requires OneWorker(s) && CalledInOrder(s, n) && Enabled(s, CallExecutor(k))
    ensures CalledInOrder(Apply(s, CallExecutor(k)), n)
  {
    hide Jobs;
    assert Worker(s.threads[k]);
    assert Apply(s, CallExecutor(k)).calls[n..] == s.calls[n..] + [s.threads[k].job];
  }

  /** A worker that neither takes an entry nor calls keeps its place; a thread that is no worker has none. */
  lemma OthersKeepCallOrder(s: State, next: State, k: nat, t: Thread, n: nat)
    requires CalledInOrder(s, n) && next.calls == s.calls && next.taken == s.taken && next.threads == s.threads[k := t]
    requires Worker(t) ==> k in s.threads && Worker(s.threads[k])
    requires Worker(t) ==> (AboutToCall(t) <==> AboutToCall(s.threads[k])) && (AboutToCall(t) ==> t.job == s.threads[k].job)
    ensures CalledInOrder(next, n)
  {
  }

  lemma StepKeepsCallOrder(s: State, step: Step, n: nat)
    requires OneWorker(s) && CalledInOrder(s, n) && OwnersFit(s) && Enabled(s, step) && s.up && !step.Crash?
    ensures CalledInOrder(Apply(s, step), n)
  {
    hide CalledInOrder;
    hide OneWorker;
    hide NoTerminalEvent;
    if step.Get? {
      GetKeepsCallOrder(s, step.thread, n);
    } else if step.CallExecutor? {
      CallKeepsCallOrder(s, step.thread, n);
    } else if step.Shutdown? || step.PutStop? {
      ControlKeepsCallOrder(s, Apply(s, step), n);
    } else {
      var next := Apply(s, step);
      assert step.MarkRunning? ==> ThreadFits(s, s.threads[step.thread]);
      OthersKeepCallOrder(s, next, step.thread, next.threads[step.thread], n);
    }
  }

  lemma ControlKeepsCallOrder(s: State, next: State, n: nat)
    requires CalledInOrder(s, n) && next.calls == s.calls && next.taken == s.taken && next.threads == s.threads
    ensures CalledInOrder(next, n)
  {
  }

  lemma {:induction false} CallsStayInOrder(from: State, steps: seq<Step>, to: State, n: nat)
    requires Inv(from) && from.up && OneWorker(from) && CalledInOrder(from, n)
    requires Run(from, steps, to) && NoCrash(steps)
    ensures CalledInOrder(to, n)
    decreases |steps|
  {
    hide CalledInOrder;
    hide OneWorker;
    if steps != [] {
      var next := Apply(from, steps[0]);
      assert !steps[0].Crash? && next.up;
      StepKeepsInv(from, steps[0]);
      StepKeepsOneWorker(from, steps[0]);
      StepKeepsCallOrder(from, steps[0], n);
      assert forall i :: 0 <= i < |steps[1..]| ==> steps[1..][i] == steps[i + 1];
      CallsStayInOrder(next, steps[1..], to, n);
    }
  }

  ghost predicate NoCrash(steps: seq<Step>) {
    forall i :: 0 <= i < |steps| ==> !steps[i].Crash?
  }

  /** A process with one worker executes an initial part of the jobs that were put, in exactly the order in which they were put. */
  lemma OneWorkerWorksInOrder(down: State, order: seq<JobId>, steps: seq<Step>, to: State)
    requires Inv(down) && Enabled(down, Restart(1, order))
    requires Run(Apply(down, Restart(1, order)), steps, to) && NoCrash(steps)
    ensures down.calls <= to.calls && to.calls[|down.calls|..] <= Jobs(to.put)
  {
    var from, n := Apply(down, Restart(1, order)), |down.calls|;
    StepKeepsInv(down, Restart(1, order));
    IdleWorkersAreIdle(1);
    DownIsEmpty(down);
    hide Inv;
    assert from.calls[n..] == [] && Jobs(from.taken) == [];
    CallsStayInOrder(from, steps, to, n);
    WorkIsTakenInOrder(from, steps, to);
    CallsOnlyGrow(from, steps, to);
    JobsOfPrefix(to.taken, to.put);
  }

  lemma DownIsEmpty(s: State)
    requires Inv(s) && !s.up
    ensures s.queue == [] && s.threads == map[] && s.put == [] && s.taken == []
  {
  }

  lemma {:induction false} CallsOnlyGrow(from: State, steps: seq<Step>, to: State)
    requires Run(from, steps, to)
    ensures from.calls <= to.calls
    decreases |steps|
  {
    if steps != [] {
      CallsOnlyGrow(Apply(from, steps[0]), steps[1..], to);
    }
  }

  ghost predicate NobodyAdmitted(s: State) {
    s.up && s.closed && forall k :: k in s.threads ==> !s.threads[k].Admitted?
  }

  lemma ClosedStepAddsNoJob(s: State, step: Step)
    requires NobodyAdmitted(s) && Enabled(s, step) && !step.Crash?
    ensures NobodyAdmitted(Apply(s, step)) && Apply(s, step).db.jobs.Keys == s.db.jobs.Keys
  {
  }

  /** After a shutdown, once the submissions under way have written their rows or been refused, no job is added. */
  lemma {:induction false} ShutdownAddsNoJob(from: State, steps: seq<Step>, to: State)
    requires NobodyAdmitted(from) && Run(from, steps, to)
    requires NoCrash(steps)
    ensures to.db.jobs.Keys == from.db.jobs.Keys
    decreases |steps|
  {
    if steps != [] {
      ClosedStepAddsNoJob(from, steps[0]);
      assert forall i :: 0 <= i < |steps[1..]| ==> steps[1..][i] == steps[i + 1];
      ShutdownAddsNoJob(Apply(from, steps[0]), steps[1..], to);
    }
  }

  // ---------------------------------------------------------------------------
  // Watching a run
  // ---------------------------------------------------------------------------

  lemma {:induction false} InterruptionEventsGrow(db: Db, order: seq<JobId>, n: nat)
    requires n <= |order| && forall i :: 0 <= i < |order| ==> order[i] in db.jobs
    ensures db.events <= InterruptionEvents(db, order, n).events
  {
    if n > 0 {
      InterruptionEventsGrow(db, order, n - 1);
    }
  }

  lemma StepGrowsLog(s: State, step: Step)
    requires Enabled(s, step)
    ensures s.db.events <= Apply(s, step).db.events
  {
    if step.Restart? {
      var marked := s.db.(jobs := map job | job in s.db.jobs ::
                            if Terminal(s.db.jobs[job].status) then s.db.jobs[job]
                            else s.db.jobs[job].(status := Interrupted));
      InterruptionEventsGrow(marked, step.order, |step.order|);
    }
  }

  lemma {:induction false} LogOnlyGrows(from: State, steps: seq<Step>, to: State)
    requires Run(from, steps, to)
    ensures from.db.events <= to.db.events
    decreases |steps|
  {
    if steps != [] {
      StepGrowsLog(from, steps[0]);
      LogOnlyGrows(Apply(from, steps[0]), steps[1..], to);
    }
  }

  /** A run with a client that looks at the log of each state `seen[i]`; `between[i]` leads to that state. */
  ghost predicate Watched(from: State, between: seq<seq<Step>>, seen: seq<State>) {
    && |between| == |seen|
    && (seen != [] ==> Run(from, between[0], seen[0]))
    && (forall i :: 0 < i < |seen| ==> Run(seen[i - 1], between[i], seen[i]))
  }

  lemma {:induction false} WatchedKeepInv(from: State, between: seq<seq<Step>>, seen: seq<State>, n: nat)
    requires Inv(from) && Watched(from, between, seen) && n < |seen|
    ensures Inv(seen[n])
  {
    if n > 0 {
      WatchedKeepInv(from, between, seen, n - 1);
      InvAlongRun(seen[n - 1], between[n], seen[n]);
    } else {
      InvAlongRun(from, between[0], seen[0]);
    }
  }

  /**
   A client polling a session while workers, submitters and crashes go on holds, after every
   poll, exactly an initial part of that session's events, in order and without gaps.
   */
  lemma WatcherMissesNothing(between: seq<seq<Step>>, seen: seq<State>, polls: seq<Poll>, session: string, n: nat)
    requires Watched(DOWN, between, seen) && |polls| == |seen| && 0 < n <= |polls|
    requires forall i :: 0 <= i < |polls| ==> polls[i].log == seen[i].db.events && polls[i].lastId == seen[i].db.lastId
    ensures Received(polls, session, 0, n) <= SessionEvents(seen[n - 1].db.events, session, 0)
  {
    forall i | 0 <= i < |polls| ensures Increasing(polls[i].log, polls[i].lastId) {
      WatchedKeepInv(DOWN, between, seen, i);
    }
    forall i | 0 < i < |polls| ensures polls[i - 1].log <= polls[i].log {
      LogOnlyGrows(seen[i - 1], between[i], seen[i]);
    }
    PollingIsGapFree(polls, session, 0, n);
  }
}
