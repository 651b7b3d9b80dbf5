/**
 The durable job tables: rows, events with increasing ids, recovery at start-up, and polling
 (butler/jobs.py, `JobStore`).
 */
module JobStore {
  import opened PyText

  type JobId = string

  datatype Status = Queued | Running | Succeeded | Failed | Cancelled | Interrupted

  datatype Job = Job(session: string, status: Status)

  datatype EventKind = QueuedEvent | StartedEvent | CompletedEvent | FailedEvent | InterruptedEvent

  datatype Event = Event(id: nat, job: JobId, session: string, kind: EventKind)

  /** The two tables; `lastId` is the autoincrement counter of the events. */
  datatype Db = Db(jobs: map<JobId, Job>, events: seq<Event>, lastId: nat)

  const EMPTY := Db(map[], [], 0)

  predicate Terminal(status: Status) {
    status == Succeeded || status == Failed || status == Cancelled || status == Interrupted
  }

  // ---------------------------------------------------------------------------
  // Transactions
  // ---------------------------------------------------------------------------

  function AddEvent(db: Db, job: JobId, session: string, kind: EventKind): Db {
    db.(events := db.events + [Event(db.lastId + 1, job, session, kind)], lastId := db.lastId + 1)
  }

  function SetStatus(db: Db, job: JobId, status: Status): Db
    requires job in db.jobs
  {
    db.(jobs := db.jobs[job := db.jobs[job].(status := status)])
  }

  function Incomplete(db: Db): set<JobId> {
    set job | job in db.jobs && !Terminal(db.jobs[job].status)
  }

  /** One interruption event for each job of `order`, in that order. */
  function InterruptionEvents(db: Db, order: seq<JobId>, n: nat): Db
    requires n <= |order| && forall i :: 0 <= i < |order| ==> order[i] in db.jobs
    ensures InterruptionEvents(db, order, n).jobs == db.jobs
  {
    if n == 0 then db
    else AddEvent(InterruptionEvents(db, order, n - 1), order[n - 1], db.jobs[order[n - 1]].session, InterruptedEvent)
  }

  /** The rows of the query, in whatever order the database returns them. */
  ghost predicate Lists(order: seq<JobId>, jobs: set<JobId>) {
    && (forall i :: 0 <= i < |order| ==> order[i] in jobs)
    && (forall job :: job in jobs ==> job in order)
    && (forall i, j :: 0 <= i < j < |order| ==> order[i] != order[j])
  }

  /** Every job that had not ended is interrupted, and says so in one event. */
  function MarkInterrupted(db: Db, order: seq<JobId>): Db
    requires forall i :: 0 <= i < |order| ==> order[i] in db.jobs
  {
    var marked := db.(jobs := map job | job in db.jobs ::
                        if Terminal(db.jobs[job].status) then db.jobs[job] else db.jobs[job].(status := Interrupted));
    InterruptionEvents(marked, order, |order|)
  }

  predicate Increasing(events: seq<Event>, lastId: nat) {
    && (forall i, j :: 0 <= i < j < |events| ==> events[i].id < events[j].id)
    && (forall i :: 0 <= i < |events| ==> 0 < events[i].id <= lastId)
  }

  // ---------------------------------------------------------------------------
  // Queries
  // ---------------------------------------------------------------------------

  /** `WHERE session_id = ? AND id > ? ORDER BY id ASC` */
  function SessionEvents(events: seq<Event>, session: string, after: nat): seq<Event> {
    if events == [] then []
    else
      var before := SessionEvents(events[..|events| - 1], session, after);
      var last := events[|events| - 1];
      if last.session == session && last.id > after then before + [last] else before
  }

  function FirstFew(events: seq<Event>, limit: int): seq<Event> {
    var n := if limit < 1 then 1 else limit;
    if |events| <= n then events else events[..n]
  }

  // ---------------------------------------------------------------------------
  // The store
  // ---------------------------------------------------------------------------

  class Store {
    var db: Db

    ghost predicate Valid()
      reads this
    {
      Increasing(db.events, db.lastId)
    }

    constructor ()
      ensures Valid() && db == EMPTY
    {
      db := EMPTY;
    }

    /** `jobId` is the fresh identifier; a blank field raises before anything is written. */
    method CreateJob(jobId: JobId, session: string, source: string, requestText: string) returns (created: bool)
      requires Valid() && jobId !in db.jobs
      modifies this
      ensures Valid()
      ensures created <==> !Blank(session) && !Blank(source) && !Blank(requestText)
      ensures db == if created then old(db).(jobs := old(db).jobs[jobId := Job(Strip(session), Queued)]) else old(db)
    {
      StripEmptyIffBlank(session);
      StripEmptyIffBlank(source);
      StripEmptyIffBlank(requestText);
      if Strip(session) == "" || Strip(source) == "" || Strip(requestText) == "" {
        return false;
      }
      db := db.(jobs := db.jobs[jobId := Job(Strip(session), Queued)]);
      return true;
    }

    /** An id that no row has raises `KeyError`; nothing is changed then. */
    method UpdateStatus(job: JobId, status: Status) returns (found: bool)
      requires Valid()
      modifies this
      ensures Valid() && found == (!Blank(job) && Strip(job) in old(db).jobs)
      ensures db == if found then SetStatus(old(db), Strip(job), status) else old(db)
    {
      StripEmptyIffBlank(job);
      var key := Strip(job);
      found := key != "" && key in db.jobs;
      if found {
        db := db.(jobs := db.jobs[key := db.jobs[key].(status := status)]);
      }
    }

    /** A blank field raises, and so does the foreign key of a job that does not exist. */
    method RecordEvent(job: JobId, session: string, kind: EventKind, message: string) returns (added: bool)
      requires Valid()
      modifies this
      ensures Valid()
      ensures added == (!Blank(job) && !Blank(session) && !Blank(message) && Strip(job) in old(db).jobs)
      ensures db == if added then AddEvent(old(db), Strip(job), Strip(session), kind) else old(db)
    {
      StripEmptyIffBlank(job);
      StripEmptyIffBlank(session);
      StripEmptyIffBlank(message);
      added := Strip(job) != "" && Strip(session) != "" && Strip(message) != "" && Strip(job) in db.jobs;
      if added {
        db := db.(events := db.events + [Event(db.lastId + 1, Strip(job), Strip(session), kind)], lastId := db.lastId + 1);
      }
    }

    /** A blank session raises. */
    method ListSessionEvents(session: string, afterId: int, limit: int) returns (r: Option<seq<Event>>)
      ensures r.None? <==> Blank(session)
      ensures r.Some? ==>
                r.value == FirstFew(SessionEvents(db.events, Strip(session), if afterId < 0 then 0 else afterId), limit)
    {
      StripEmptyIffBlank(session);
      var key := Strip(session);
      if key == "" {
        return None;
      }
      var bound := if limit < 1 then 1 else limit;
      var after := if afterId < 0 then 0 else afterId;
      var events: seq<Event> := [];
      ghost var all: seq<Event> := [];
      for i := 0 to |db.events|
        invariant all == SessionEvents(db.events[..i], key, after)
        invariant events == if |all| <= bound then all else all[..bound]
      {
        assert db.events[..i + 1][..i] == db.events[..i];
        var event := db.events[i];
        if event.session == key && event.id > after {
          all := all + [event];
          if |events| < bound {
            events := events + [event];
          }
        }
      }
      assert db.events[..|db.events|] == db.events;
      return Some(events);
    }

    /** Recovery at start-up: one transaction that closes every job the last process left open. */
    method MarkIncompleteJobsInterrupted() returns (count: nat, ghost order: seq<JobId>)
      requires Valid()
      modifies this
      ensures Valid() && count == |Incomplete(old(db))|
      ensures Lists(order, Incomplete(old(db))) && db == MarkInterrupted(old(db), order)
    {
      var incomplete := set job | job in db.jobs && !Terminal(db.jobs[job].status);
      var next := db.(jobs := map job | job in db.jobs ::
                    if Terminal(db.jobs[job].status) then db.jobs[job] else db.jobs[job].(status := Interrupted));
      count := |incomplete|;
      next, order := AppendInterruptions(next, incomplete);
      db := next;
    }
  }

  /** The inserts of the recovery transaction. */
  method AppendInterruptions(marked: Db, incomplete: set<JobId>) returns (next: Db, ghost order: seq<JobId>)
    requires incomplete <= marked.jobs.Keys && Increasing(marked.events, marked.lastId)
    ensures Lists(order, incomplete) && Increasing(next.events, next.lastId)
    ensures next == InterruptionEvents(marked, order, |order|)
  {
    hide Increasing;
    var rest := incomplete;
    next, order := marked, [];
    while rest != {}
      invariant rest <= incomplete && Increasing(next.events, next.lastId)
      invariant Lists(order, incomplete - rest)
      invariant next == InterruptionEvents(marked, order, |order|)
      decreases rest
    {
      var job :| job in rest;
      InterruptionEventsPrefix(marked, order, order + [job], |order|);
      IncreasingOneMore(next, job, marked.jobs[job].session, InterruptedEvent);
      ListsOneMore(order, incomplete - rest, job);
      assert incomplete - (rest - {job}) == incomplete - rest + {job};
      next := AddEvent(next, job, marked.jobs[job].session, InterruptedEvent);
      order, rest := order + [job], rest - {job};
    }
    assert incomplete - {} == incomplete;
  }

  lemma IncreasingOneMore(db: Db, job: JobId, session: string, kind: EventKind)
    requires Increasing(db.events, db.lastId)
    ensures Increasing(AddEvent(db, job, session, kind).events, AddEvent(db, job, session, kind).lastId)
  {
  }

  lemma ListsOneMore(order: seq<JobId>, jobs: set<JobId>, job: JobId)
    requires Lists(order, jobs) && job !in jobs
    ensures Lists(order + [job], jobs + {job})
  {
  }

  lemma {:induction false} InterruptionEventsPrefix(db: Db, short: seq<JobId>, long: seq<JobId>, n: nat)
    requires n <= |short| <= |long| && long[..|short|] == short
    requires forall i :: 0 <= i < |long| ==> long[i] in db.jobs
    ensures InterruptionEvents(db, long, n) == InterruptionEvents(db, short, n)
  {
    if n > 0 {
      InterruptionEventsPrefix(db, short, long, n - 1);
      assert long[n - 1] == short[n - 1];
    }
  }

  // ---------------------------------------------------------------------------
  // Polling
  // ---------------------------------------------------------------------------

  /** The cursor after a poll: the largest id seen. */
  function Cursor(after: nat, got: seq<Event>): nat {
    if got == [] then after else got[|got| - 1].id
  }

  lemma {:induction false} SessionEventsIncrease(events: seq<Event>, session: string, after: nat, lastId: nat)
    requires Increasing(events, lastId)
    ensures Increasing(SessionEvents(events, session, after), lastId)
    ensures forall e :: e in SessionEvents(events, session, after) <==> e in events && e.session == session && e.id > after
  {
    if events != [] {
      var before, last := events[..|events| - 1], events[|events| - 1];
      assert events == before + [last];
      FrontIncreases(events, lastId);
      SessionEventsIncrease(before, session, after, lastId);
      forall i | 0 <= i < |SessionEvents(before, session, after)|
        ensures SessionEvents(before, session, after)[i].id < last.id
      {
        assert SessionEvents(before, session, after)[i] in before;
      }
    }
  }

  /** Asking again after the `k`-th event returns exactly what followed it. */
  lemma {:induction false} ResumeAfter(events: seq<Event>, session: string, after: nat, lastId: nat, k: nat)
    requires Increasing(events, lastId) && k <= |SessionEvents(events, session, after)|
    ensures var all := SessionEvents(events, session, after);
            SessionEvents(events, session, Cursor(after, all[..k])) == all[k..]
  {
    if events != [] {
      hide SessionEvents;
      hide Cursor;
      var before, last := events[..|events| - 1], events[|events| - 1];
      assert events == before + [last];
      FrontIncreases(events, lastId);
      var all, earlier := SessionEvents(events, session, after), SessionEvents(before, session, after);
      LastEventKept(events, session, after, after);
      if k <= |earlier| {
        ResumeAfter(before, session, after, lastId, k);
        ResumeOneMore(events, session, after, lastId, k);
      } else {
        assert all[..k] == all && all[k - 1] == last;
        CursorAtLast(after, all);
        NoneIsLater(events, lastId);
        SessionEventsUpTo(events, session, last.id, lastId);
      }
    }
  }

  /** What holds in front of the last event holds with it. */
  lemma ResumeOneMore(events: seq<Event>, session: string, after: nat, lastId: nat, k: nat)
    requires Increasing(events, lastId) && events != []
    requires var earlier := SessionEvents(events[..|events| - 1], session, after);
             k <= |earlier| && SessionEvents(events[..|events| - 1], session, Cursor(after, earlier[..k])) == earlier[k..]
    ensures var all := SessionEvents(events, session, after);
            k <= |all| && SessionEvents(events, session, Cursor(after, all[..k])) == all[k..]
  {
    hide SessionEvents;
    hide Cursor;
    var before, last := events[..|events| - 1], events[|events| - 1];
    assert events == before + [last];
    var all, earlier := SessionEvents(events, session, after), SessionEvents(before, session, after);
    LastEventKept(events, session, after, after);
    assert all[..k] == earlier[..k];
    CursorBelow(before, session, after, lastId, k, last);
    LastEventKept(events, session, Cursor(after, all[..k]), after);
    TailAndMore(earlier, k, all);
  }

  lemma TailAndMore(front: seq<Event>, k: nat, all: seq<Event>)
    requires k <= |front| <= |all| && all[..|front|] == front
    ensures all[k..] == front[k..] + all[|front|..]
  {
  }

  lemma CursorAtLast(after: nat, got: seq<Event>)
    requires got != []
    ensures Cursor(after, got) == got[|got| - 1].id
  {
  }

  lemma FrontIncreases(events: seq<Event>, lastId: nat)
    requires Increasing(events, lastId) && events != []
    ensures Increasing(events[..|events| - 1], lastId)
  {
    assert forall i :: 0 <= i < |events| - 1 ==> events[..|events| - 1][i] == events[i];
  }

  lemma NoneIsLater(events: seq<Event>, lastId: nat)
    requires Increasing(events, lastId) && events != []
    ensures forall e :: e in events ==> e.id <= events[|events| - 1].id
  {
  }

  /** The cursor of a client that has seen `k` events is still below any later event. */
  lemma CursorBelow(before: seq<Event>, session: string, after: nat, lastId: nat, k: nat, last: Event)
    requires Increasing(before + [last], lastId) && k <= |SessionEvents(before, session, after)|
    ensures var cursor := Cursor(after, SessionEvents(before, session, after)[..k]);
            cursor == after || after < cursor < last.id
  {
    assert forall i :: 0 <= i < |before| ==> (before + [last])[i] == before[i];
    assert (before + [last])[|before|] == last;
    SessionEventsIncrease(before, session, after, lastId);
    if k > 0 {
      assert SessionEvents(before, session, after)[k - 1] in before;
    }
  }

  /** A later cursor below the last event treats that event alike. */
  lemma LastEventKept(events: seq<Event>, session: string, cursor: nat, after: nat)
    requires events != [] && (cursor == after || after < cursor < events[|events| - 1].id)
    ensures var before, last := events[..|events| - 1], events[|events| - 1];
            var more := if last.session == session && last.id > after then [last] else [];
            && SessionEvents(events, session, after) == SessionEvents(before, session, after) + more
            && SessionEvents(events, session, cursor) == SessionEvents(before, session, cursor) + more
  {
  }

  lemma SessionEventsUpTo(events: seq<Event>, session: string, after: nat, lastId: nat)
    requires Increasing(events, lastId) && forall e :: e in events ==> e.id <= after
    ensures SessionEvents(events, session, after) == []
  {
    SessionEventsIncrease(events, session, after, lastId);
    var found := SessionEvents(events, session, after);
    assert forall e :: e !in found;
  }

  lemma {:induction false} SessionEventsGrow(events: seq<Event>, more: seq<Event>, session: string, after: nat)
    ensures SessionEvents(events, session, after) <= SessionEvents(events + more, session, after)
  {
    if more == [] {
      assert events + more == events;
    } else {
      var front := more[..|more| - 1];
      SessionEventsGrow(events, front, session, after);
      assert (events + more)[..|events + more| - 1] == events + front;
    }
  }

  /** One look of a client at a log that has grown since its last look. */
  datatype Poll = Poll(log: seq<Event>, lastId: nat, limit: int)

  /** The client keeps what it gets and asks next time after the last id it saw. */
  function Received(polls: seq<Poll>, session: string, start: nat, n: nat): seq<Event>
    requires n <= |polls|
  {
    if n == 0 then []
    else
      var before := Received(polls, session, start, n - 1);
      before + FirstFew(SessionEvents(polls[n - 1].log, session, Cursor(start, before)), polls[n - 1].limit)
  }

  ghost predicate Growing(polls: seq<Poll>) {
    && (forall i :: 0 <= i < |polls| ==> Increasing(polls[i].log, polls[i].lastId))
    && (forall i :: 0 < i < |polls| ==> polls[i - 1].log <= polls[i].log)
  }

  /**
   Under any limits, and with events appended between polls, the client holds a gap-free,
   duplicate-free prefix, in order, of the session's events after its first cursor.
   */
  lemma {:induction false} PollingIsGapFree(polls: seq<Poll>, session: string, start: nat, n: nat)
    requires Growing(polls) && 0 < n <= |polls|
    ensures Received(polls, session, start, n) <= SessionEvents(polls[n - 1].log, session, start)
  {
    hide SessionEvents;
    hide FirstFew;
    hide Cursor;
    hide Increasing;
    var poll, before := polls[n - 1], Received(polls, session, start, n - 1);
    if n > 1 {
      PollingIsGapFree(polls, session, start, n - 1);
      var earlier := polls[n - 2].log;
      assert poll.log == earlier + poll.log[|earlier|..];
      SessionEventsGrow(earlier, poll.log[|earlier|..], session, start);
    }
    PollExtendsPrefix(poll, session, start, before);
  }

  lemma PollExtendsPrefix(poll: Poll, session: string, start: nat, before: seq<Event>)
    requires Increasing(poll.log, poll.lastId) && before <= SessionEvents(poll.log, session, start)
    ensures before + FirstFew(SessionEvents(poll.log, session, Cursor(start, before)), poll.limit)
            <= SessionEvents(poll.log, session, start)
  {
    hide SessionEvents;
    hide Cursor;
    hide Increasing;
    var all := SessionEvents(poll.log, session, start);
    assert all[..|before|] == before && all == before + all[|before|..];
    ResumeAfter(poll.log, session, start, poll.lastId, |before|);
  }

  /** And it makes progress: a poll is empty only when the client has everything. */
  lemma PollingCatchesUp(polls: seq<Poll>, session: string, start: nat, n: nat)
    requires Growing(polls) && 0 < n <= |polls|
    requires Received(polls, session, start, n) == Received(polls, session, start, n - 1)
    ensures Received(polls, session, start, n) == SessionEvents(polls[n - 1].log, session, start)
  {
    var all := SessionEvents(polls[n - 1].log, session, start);
    PollingIsGapFree(polls, session, start, n);
    var before := Received(polls, session, start, n - 1);
    ResumeAfter(polls[n - 1].log, session, start, polls[n - 1].lastId, |before|);
    assert all[..|before|] == before;
    var got := FirstFew(all[|before|..], polls[n - 1].limit);
    assert before + got == before;
    assert |got| == 0;
  }
}
