/**
 When the tool loop speaks and when it holds back: told by what the world answered, without the loop's own bookkeeping
 (butler/agent/runtime.py, `run_command_stream`).
 */
module AgentGuard {
  import opened PyText
  import opened ToolHistory
  import opened StreamTurn
  import opened AgentLoop
  import opened AgentRuns

  /** One of the calls asks for a physical action. */
  ghost predicate NamesAction(calls: seq<Call>) {
    exists i :: 0 <= i < |calls| && calls[i].name in {"request_device_action", "water_plants", "toggle_fan"}
  }

  /** The tool call `i` of round `n` asked for a physical action and was answered without a failure. */
  ghost predicate Worked(w: World, n: nat, calls: seq<Call>, i: int) {
    && 0 <= i < |calls| && calls[i].name in {"request_device_action", "water_plants", "toggle_fan"}
    && w.tool(n, i).Returned? && !w.tool(n, i).output.failed
  }

  /** Every physical action of round `n` was answered with a failure. */
  ghost predicate AllFailed(w: World, n: nat, calls: seq<Call>) {
    forall i :: 0 <= i < |calls| && calls[i].name in {"request_device_action", "water_plants", "toggle_fan"} ==>
      w.tool(n, i).Returned? && w.tool(n, i).output.failed
  }

  ghost predicate ActionBatch(round: Round) {
    round.action.Batch? && NamesAction(round.action.calls)
  }

  /** The newest batch of `t` that asked for a physical action is the one of `round`, which came behind `past`. */
  ghost predicate NewestAction(t: Trace, past: Trace, round: Round) {
    && Reaches(t, Then(past, round)) && ActionBatch(round)
    && forall p, r :: Reaches(t, Then(p, r)) && Rounds(p) > Rounds(past) ==> !ActionBatch(r)
  }

  ghost predicate NoAction(t: Trace) {
    forall p, r :: Reaches(t, Then(p, r)) ==> !ActionBatch(r)
  }

  lemma {:induction false} ReachedIsEarlier(t: Trace, past: Trace, round: Round)
    requires Reaches(t, Then(past, round))
    ensures Rounds(past) < Rounds(t)
  {
    if t != Then(past, round) {
      ReachedIsEarlier(t.before, past, round);
    }
  }

  // ---------------------------------------------------------------------------
  // The loop's bookkeeping is right
  // ---------------------------------------------------------------------------

  lemma ActionNames(calls: seq<Call>)
    ensures AnyAction(calls) <==> NamesAction(calls)
  {
  }

  /** With every call answered, some action worked exactly when not all failed. */
  lemma SuccessMeans(w: World, n: nat, calls: seq<Call>, outputs: seq<Output>)
    requires AllReturned(w, n, calls, outputs)
    ensures AnyActionSucceeded(calls, outputs) <==> exists i :: Worked(w, n, calls, i)
    ensures AnyActionSucceeded(calls, outputs) <==> !AllFailed(w, n, calls)
  {
    if AnyActionSucceeded(calls, outputs) {
      var i :| 0 <= i < |calls| && calls[i].name in ACTION_TOOLS && !outputs[i].failed;
      assert w.tool(n, i) == Returned(outputs[i]);
      assert Worked(w, n, calls, i);
    }
    if i :| Worked(w, n, calls, i) {
      assert w.tool(n, i) == Returned(outputs[i]);
    }
    if !AllFailed(w, n, calls) {
      var i :| 0 <= i < |calls| && calls[i].name in {"request_device_action", "water_plants", "toggle_fan"}
               && !(w.tool(n, i).Returned? && w.tool(n, i).output.failed);
      assert w.tool(n, i) == Returned(outputs[i]);
    }
  }

  /** Whether the newest action batch worked, or none there was. */
  lemma {:induction false} BookkeepingIsRight(c: Config, w: World, initial: seq<Message>, t: Trace)
    requires Legal(c, w, initial, t)
    ensures ActionAttempted(t) <==> !NoAction(t)
    ensures forall past, round :: NewestAction(t, past, round) ==> SaysOf(w, t, past, round)
  {
    hide RoundBegins;
    hide NewestAction;
    hide NoAction;
    hide SaysOf;
    if t == Start {
      NothingYet();
    } else {
      var before, round := t.before, t.round;
      assert t == Then(before, round);
      BookkeepingIsRight(c, w, initial, before);
      NoActionStep(before, round);
      RoundKeepsBooks(c, w, initial, before, round);
      forall past, newest | NewestAction(t, past, newest) ensures SaysOf(w, t, past, newest) {
        NewestStep(before, round, past, newest);
      }
    }
  }

  /** What the loop remembers of success is what the tools of that batch answered. */
  ghost predicate SaysOf(w: World, t: Trace, past: Trace, newest: Round) {
    && AllSized(t) && newest.action.Batch?
    && (ActionSucceeded(t) <==> exists i :: Worked(w, Rounds(past), newest.action.calls, i))
    && (ActionSucceeded(t) <==> !AllFailed(w, Rounds(past), newest.action.calls))
  }

  lemma NothingYet()
    ensures NoAction(Start) && forall past, round :: !NewestAction(Start, past, round)
  {
  }

  lemma RoundKeepsBooks(c: Config, w: World, initial: seq<Message>, before: Trace, round: Round)
    requires AllSized(before) && LegalRound(c, w, initial, before, round)
    ensures AllSized(Then(before, round))
    ensures ActionAttempted(Then(before, round)) <==> ActionAttempted(before) || ActionBatch(round)
    ensures !ActionBatch(round) ==> ActionSucceeded(Then(before, round)) == ActionSucceeded(before)
    ensures !ActionBatch(round) ==> forall past, newest :: SaysOf(w, before, past, newest) ==> SaysOf(w, Then(before, round), past, newest)
    ensures ActionBatch(round) ==> SaysOf(w, Then(before, round), before, round)
  {
    hide RoundBegins;
    hide AnyActionSucceeded;
    hide AnyAction;
    hide NamesAction;
    hide Worked;
    hide AllFailed;
    if round.action.Batch? {
      ActionNames(round.action.calls);
      SuccessMeans(w, Rounds(before), round.action.calls, round.action.outputs);
    }
  }

  lemma NoActionStep(before: Trace, round: Round)
    ensures NoAction(Then(before, round)) <==> NoAction(before) && !ActionBatch(round)
  {
    assert Reaches(Then(before, round), Then(before, round));
    forall p, r | Reaches(before, Then(p, r)) ensures Reaches(Then(before, round), Then(p, r)) {
    }
  }

  lemma NewestStep(before: Trace, round: Round, past: Trace, newest: Round)
    requires NewestAction(Then(before, round), past, newest)
    ensures if ActionBatch(round) then past == before && newest == round else NewestAction(before, past, newest)
  {
    var t := Then(before, round);
    assert Reaches(t, t);
    if past == before && newest == round {
    } else {
      assert Reaches(before, Then(past, newest));
      ReachedIsEarlier(before, past, newest);
      forall p, r | Reaches(before, Then(p, r)) && Rounds(p) > Rounds(past) ensures !ActionBatch(r) {
        assert Reaches(t, Then(p, r));
      }
    }
  }

  /** No action was tried, or all of the newest batch with one failed. */
  ghost predicate NothingWorked(w: World, t: Trace, past: Trace, newest: Round) {
    NoAction(t) || (NewestAction(t, past, newest) && AllFailed(w, Rounds(past), newest.action.calls))
  }

  /** An action of the newest batch with one was answered without a failure. */
  ghost predicate SomethingWorked(w: World, t: Trace, past: Trace, newest: Round) {
    NewestAction(t, past, newest) && exists i :: Worked(w, Rounds(past), newest.action.calls, i)
  }

  lemma BooksSay(c: Config, w: World, initial: seq<Message>, t: Trace, past: Trace, newest: Round)
    requires Legal(c, w, initial, t)
    ensures NothingWorked(w, t, past, newest) ==> !ActionSucceeded(t)
    ensures SomethingWorked(w, t, past, newest) ==> ActionSucceeded(t)
    ensures NoAction(t) <==> !ActionAttempted(t)
  {
    hide Legal;
    hide AllFailed;
    hide Worked;
    BookkeepingIsRight(c, w, initial, t);
    hide NoAction;
    if NoAction(t) {
      NoSuccessWithoutAction(c, w, initial, t);
    }
  }

  lemma {:induction false} NoSuccessWithoutAction(c: Config, w: World, initial: seq<Message>, t: Trace)
    requires Legal(c, w, initial, t) && NoAction(t)
    ensures !ActionSucceeded(t)
  {
    hide RoundBegins;
    hide NoAction;
    hide NamesAction;
    hide AnyAction;
    if t.Then? {
      assert t == Then(t.before, t.round);
      NoActionStep(t.before, t.round);
      NoSuccessWithoutAction(c, w, initial, t.before);
      if t.round.action.Batch? {
        ActionNames(t.round.action.calls);
      }
    }
  }

  // ---------------------------------------------------------------------------
  // Streaming is deferred exactly until an action has worked
  // ---------------------------------------------------------------------------

  /**
   In every round of every run: if a physical action was asked for and the newest batch with one failed altogether, or
   there was no such batch yet, the turn is deferred and not a fragment of it is streamed; if one of its actions
   worked, the turn is not deferred.
   */
  lemma GuardIsExact(c: Config, w: World, initial: seq<Message>, t: Trace, ending: Ending, before: Trace, round: Round,
                     past: Trace, newest: Round)
    requires LegalRun(c, w, initial, t, ending) && Reaches(t, Then(before, round)) && c.physical
    ensures NothingWorked(w, before, past, newest) ==> round.deferred && round.log.emitted == []
    ensures SomethingWorked(w, before, past, newest) ==> !round.deferred
  {
    hide LegalRun;
    hide LegalRound;
    hide FinalRound;
    hide Reaches;
    hide NothingWorked;
    hide SomethingWorked;
    ReachedRound(c, w, initial, t, ending, before, round);
    BooksSay(c, w, initial, before, past, newest);
    DeferralMeans(c, w, initial, before, round);
  }

  lemma DeferralMeans(c: Config, w: World, initial: seq<Message>, before: Trace, round: Round)
    requires AllSized(before) && RoundBegins(c, w, initial, before, round.request, round.deferred, round.log) && c.physical
    ensures round.deferred <==> !ActionSucceeded(before)
    ensures round.deferred ==> round.log.emitted == []
  {
    hide ActionSucceeded;
    if !ActionSucceeded(before) {
      GuardedRoundIsSilent(c, w, initial, before, round);
    }
  }

  /** A command that asks for no physical action is never deferred. */
  lemma PlainCommandIsStreamed(c: Config, w: World, initial: seq<Message>, t: Trace, ending: Ending, before: Trace, round: Round)
    requires LegalRun(c, w, initial, t, ending) && Reaches(t, Then(before, round)) && !c.physical
    ensures !round.deferred
  {
    ReachedRound(c, w, initial, t, ending, before, round);
  }

  /**
   The note that no command was sent is the last thing an answer says if a physical action was asked for and none has
   worked since; otherwise the note is not said at all.
   */
  lemma NoteIsExact(c: Config, w: World, initial: seq<Message>, t: Trace, past: Trace, newest: Round)
    requires LegalRun(c, w, initial, t, Answered)
    ensures t.Then?
    ensures c.physical && NothingWorked(w, t.before, past, newest) ==>
              Emitted(t) != []
              && Emitted(t)[|Emitted(t)| - 1] == "I did not send a device command, so no pump or relay was activated."
    ensures !c.physical || SomethingWorked(w, t.before, past, newest) ==>
              forall i :: 0 <= i < |t.round.extras| ==> t.round.extras[i] != NoCommandNote
  {
    hide LegalRun;
    hide NothingWorked;
    hide SomethingWorked;
    hide Emitted;
    AnswerIsLegal(c, w, initial, t);
    BooksSay(c, w, initial, t.before, past, newest);
    AnswerSays(c, w, initial, t);
    AnswerIsNoBatch(c, w, initial, t);
    if c.physical && !ActionSucceeded(t.before) {
      NoSilentFailure(c, w, initial, t);
    }
  }

  lemma AnswerIsLegal(c: Config, w: World, initial: seq<Message>, t: Trace)
    requires LegalRun(c, w, initial, t, Answered)
    ensures t.Then? && Legal(c, w, initial, t.before)
  {
  }

  lemma AnswerIsNoBatch(c: Config, w: World, initial: seq<Message>, t: Trace)
    requires LegalRun(c, w, initial, t, Answered) && t.Then?
    ensures AllSized(t) && ActionSucceeded(t) == ActionSucceeded(t.before)
  {
    hide RoundBegins;
  }

  lemma AnswerSays(c: Config, w: World, initial: seq<Message>, t: Trace)
    requires LegalRun(c, w, initial, t, Answered)
    ensures t.Then? && AllSized(t.before)
    ensures !c.physical || ActionSucceeded(t.before) ==>
              forall i :: 0 <= i < |t.round.extras| ==> t.round.extras[i] != NoCommandNote
  {
    hide ActionSucceeded;
  }

  /** A run that stops at the limit says so last, and only when as many batches and retries were run as are allowed. */
  lemma LimitIsSaid(c: Config, w: World, initial: seq<Message>, t: Trace)
    requires LegalRun(c, w, initial, t, LimitReached)
    ensures t.Then? && Rounds(t.before) >= c.maxRounds && Batches(t.before) + Retries(t.before) == Rounds(t.before)
    ensures Emitted(t) != []
    ensures Emitted(t)[|Emitted(t)| - 1] == " I reached the tool-call limit before finishing that request."
  {
    hide LegalRun;
    hide SaidAll;
    LimitEnds(c, w, initial, t);
    LegalIsBounded(c, w, initial, t.before);
    var aside := SpokenAfterAll(t.round.log, w);
    SaidAllSnoc(aside, LimitNote);
    LastOfAll(Emitted(t.before) + t.round.log.emitted, SaidAll(aside), LimitNote.Said());
  }

  lemma LimitEnds(c: Config, w: World, initial: seq<Message>, t: Trace)
    requires LegalRun(c, w, initial, t, LimitReached)
    ensures t.Then? && Legal(c, w, initial, t.before) && Rounds(t.before) >= c.maxRounds
    ensures t.round.extras == SpokenAfterAll(t.round.log, w) + [LimitNote]
  {
    hide RoundBegins;
  }

  /** Why a run ended, in terms of the user, the backend, the tools and the consumer. */
  lemma EndingsMean(c: Config, w: World, initial: seq<Message>, t: Trace, ending: Ending)
    requires LegalRun(c, w, initial, t, ending)
    ensures ending == Cancelled ==>
              w.cancelled(Rounds(t)) || (t.Then? && UserBargedIn(w.turn(Rounds(t.before))))
    ensures ending == BackendFailed ==> t.Then? && w.turn(Rounds(t.before)).raises
    ensures ending == NoCompletion ==> t.Then? && NeverCompletes(w.turn(Rounds(t.before)))
    ensures ending == ToolsFailed ==> t.Then? && (exists i: int :: i >= 0 && w.tool(Rounds(t.before), i) == Raised)
    ensures ending == Closed ==> t.Then? && w.closeAfter == Some(|Emitted(t)|)
  {
    hide Decide;
    hide Flatten;
    if ending == NoCompletion {
      LastCompletionMeans(w.turn(Rounds(t.before)).arrivals, |w.turn(Rounds(t.before)).arrivals|);
    }
  }

  ghost predicate UserBargedIn(turn: Turn) {
    exists i :: 0 <= i < |turn.arrivals| && turn.arrivals[i].cancelSet
  }

  ghost predicate NeverCompletes(turn: Turn) {
    forall i :: 0 <= i < |turn.arrivals| ==> !turn.arrivals[i].event.Completion?
  }

  lemma {:induction false} LastCompletionMeans(arrivals: seq<Arrival>, n: nat)
    requires n <= |arrivals|
    ensures LastCompletion(arrivals, n) == None <==> forall i :: 0 <= i < n ==> !arrivals[i].event.Completion?
  {
    if n > 0 {
      LastCompletionMeans(arrivals, n - 1);
    }
  }

  // ---------------------------------------------------------------------------
  // The forced retry
  // ---------------------------------------------------------------------------

  /** The model is asked again exactly once, for a physical action that it has not asked a tool for, if there is such a tool. */
  lemma RetryIsExact(c: Config, w: World, initial: seq<Message>, t: Trace, ending: Ending, before: Trace, round: Round)
    requires LegalRun(c, w, initial, t, ending) && Reaches(t, Then(before, round))
    ensures round.action == Retry ==>
              && c.physical && c.actionTools && NoAction(before) && round.log.completion == Some([])
              && forall p, r :: Reaches(before, Then(p, r)) ==> r.action != Retry
    ensures ending == Answered && t == Then(before, round) ==>
              !(c.physical && c.actionTools && NoAction(before) && forall p, r :: Reaches(before, Then(p, r)) ==> r.action != Retry)
  {
    hide LegalRun;
    hide Reaches;
    hide NoAction;
    hide RoundBegins;
    ReachedRound(c, w, initial, t, ending, before, round);
    BooksSay(c, w, initial, before, before, round);
    RetriesCount(before);
    if ending == Answered && t == Then(before, round) {
      AnswerIsNoRetry(c, w, initial, t);
    }
  }

  lemma AnswerIsNoRetry(c: Config, w: World, initial: seq<Message>, t: Trace)
    requires LegalRun(c, w, initial, t, Answered)
    ensures t.Then? && !MayRetry(c, t.before)
  {
    hide RoundBegins;
  }

  lemma {:induction false} RetriesCount(t: Trace)
    ensures Retries(t) == 0 <==> forall p, r :: Reaches(t, Then(p, r)) ==> r.action != Retry
  {
    if t.Then? {
      RetriesCount(t.before);
      assert Reaches(t, t);
      if Retries(t) != 0 && t.round.action != Retry {
        var p, r :| Reaches(t.before, Then(p, r)) && r.action == Retry;
        assert Reaches(t, Then(p, r));
      }
    }
  }
}
