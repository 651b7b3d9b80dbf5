/**
 What every run of the tool loop guarantees, whatever the model, the tools, the user and the
 consumer do, and how a run composes with the conversation store.
 */
module AgentRuns {
  import opened PyText
  import opened ToolHistory
  import opened Dialogue
  import opened StreamTurn
  import opened AgentLoop
  import MemoryStore

  /** `part` is `t` itself or one of the traces it grew from. */
  ghost predicate Reaches(t: Trace, part: Trace) {
    t == part || (t.Then? && Reaches(t.before, part))
  }

  // ---------------------------------------------------------------------------
  // Termination bounds
  // ---------------------------------------------------------------------------

  lemma {:induction false} LegalIsBounded(c: Config, w: World, initial: seq<Message>, t: Trace)
    requires Legal(c, w, initial, t)
    ensures Rounds(t) == Batches(t) + Retries(t)
    ensures Batches(t) <= c.maxRounds && Retries(t) <= 1
  {
    if t.Then? {
      LegalIsBounded(c, w, initial, t.before);
    }
  }

  /** At most the allowed tool batches, one forced retry, and two requests beyond the limit. */
  lemma RunIsBounded(c: Config, w: World, initial: seq<Message>, t: Trace, ending: Ending)
    requires LegalRun(c, w, initial, t, ending)
    ensures Batches(t) <= c.maxRounds && Retries(t) <= 1 && Rounds(t) <= c.maxRounds + 2
  {
    if Legal(c, w, initial, t) {
      LegalIsBounded(c, w, initial, t);
    } else {
      LegalIsBounded(c, w, initial, t.before);
    }
  }

  // ---------------------------------------------------------------------------
  // The recorded tool history
  // ---------------------------------------------------------------------------

  /** What a batch needs to be storable: usable calls whose ids carry no surrounding blanks. */
  ghost predicate CleanBatch(calls: seq<Call>) {
    UsableCalls(calls) && forall i :: 0 <= i < |calls| ==> Strip(calls[i].id) == calls[i].id
  }

  ghost predicate AllClean(t: Trace) {
    t.Then? ==> AllClean(t.before) && (t.round.action.Batch? ==> CleanBatch(t.round.action.calls))
  }

  predicate NoEmptyBatch(t: Trace) {
    t.Then? ==> NoEmptyBatch(t.before) && (t.round.action.Batch? ==> t.round.action.calls != [])
  }

  function Exchanges(t: Trace): seq<Exchange>
    requires AllSized(t)
  {
    match t
    case Start => []
    case Then(before, round) =>
      if round.action.Batch?
      then Exchanges(before) + [Exchange("", round.action.calls, Results(round.action.calls, round.action.outputs))]
      else Exchanges(before)
  }

  lemma {:induction false} RenderSnoc(exchanges: seq<Exchange>, x: Exchange)
    ensures Render(exchanges + [x]) == Render(exchanges) + x.Render()
    decreases |exchanges|
  {
    if exchanges == [] {
      assert exchanges + [x] == [x];
      assert Render([x]) == x.Render() + Render([]);
    } else {
      RenderSnoc(exchanges[1..], x);
      assert (exchanges + [x])[1..] == exchanges[1..] + [x];
      Associative(exchanges[0].Render(), Render(exchanges[1..]), x.Render());
    }
  }

  lemma Associative(a: seq<Message>, b: seq<Message>, c: seq<Message>)
    ensures a + (b + c) == a + b + c
  {
  }

  lemma {:induction false} HistoryIsRendered(t: Trace)
    requires AllSized(t)
    ensures History(t) == Render(Exchanges(t))
  {
    if t.Then? {
      HistoryIsRendered(t.before);
      if t.round.action.Batch? {
        RenderSnoc(Exchanges(t.before),
                   Exchange("", t.round.action.calls, Results(t.round.action.calls, t.round.action.outputs)));
      }
    }
  }

  lemma {:induction false} ResultsFollowCalls(calls: seq<Call>, outputs: seq<Output>)
    requires |calls| == |outputs|
    ensures |Results(calls, outputs)| == |calls|
    ensures forall i :: 0 <= i < |calls| ==> Results(calls, outputs)[i].callId == calls[i].id
  {
    if calls != [] {
      ResultsFollowCalls(calls[1..], outputs[1..]);
    }
  }

  lemma {:induction false} UsableIdsAreDistinct(calls: seq<Call>)
    requires UsableCalls(calls)
    ensures |CallIds(calls)| == |calls|
  {
    if calls == [] {
      assert CallIds(calls) == {};
    } else {
      UsableCallsStep(calls);
      UsableIdsAreDistinct(calls[1..]);
      CallIdsStep(calls);
    }
  }

  /** As many answers as there are calls, all accepted: then they answer exactly those calls. */
  lemma {:induction false} AcceptedAnswersAreExact(answers: seq<Answer>, pending: set<string>, rest: seq<Message>)
    requires Scan(RenderAnswers(answers) + rest, pending).Success? && |answers| == |pending|
    ensures AnswersExactly(answers, pending) && Scan(rest, {}).Success?
    decreases |answers|
  {
    if answers == [] {
      assert pending == {} && RenderAnswers(answers) + rest == rest;
    } else {
      var first, tail := answers[0], answers[1..];
      assert RenderAnswers(answers) + rest ==
             [ToolResult(first.callId, Text(first.output))] + (RenderAnswers(tail) + rest);
      assert (RenderAnswers(answers) + rest)[1..] == RenderAnswers(tail) + rest;
      AcceptedAnswersAreExact(tail, pending - {first.callId}, rest);
      DrainOneMore(first, tail, pending);
      assert [first] + tail == answers;
    }
  }

  lemma CleanBatchIsComplete(x: Exchange)
    requires AnswersFollowCalls(x) && CleanBatch(x.calls)
    ensures Complete(x)
  {
    var ids := CallIds(x.calls);
    forall i, j | 0 <= i < j < |x.answers| ensures x.answers[i].callId != x.answers[j].callId {
      assert Strip(x.calls[i].id) != Strip(x.calls[j].id);
    }
    forall id | id in ids ensures id in AnswerIds(x.answers) {
      var i :| 0 <= i < |x.calls| && id == Strip(x.calls[i].id);
      assert x.answers[i].callId == id;
    }
    forall id | id in AnswerIds(x.answers) ensures id in ids {
      var i :| 0 <= i < |x.answers| && id == x.answers[i].callId;
      assert id == Strip(x.calls[i].id);
    }
  }

  lemma CompleteInOrderIsClean(x: Exchange)
    requires AnswersFollowCalls(x) && Complete(x)
    ensures CleanBatch(x.calls)
  {
    forall i | 0 <= i < |x.calls| ensures Strip(x.calls[i].id) == x.calls[i].id {
      assert x.answers[i].callId in AnswerIds(x.answers);
      var j :| 0 <= j < |x.calls| && x.calls[i].id == Strip(x.calls[j].id);
      StripFixes(x.calls[j].id);
    }
  }

  /** One exchange at the front of an accepted history. */
  lemma AcceptedFrontIsComplete(x: Exchange, rest: seq<Message>)
    requires AnswersFollowCalls(x) && Scan(x.Render() + rest, {}).Success?
    ensures Complete(x) && Scan(rest, {}).Success?
  {
    var opening := Assistant(x.text, x.calls);
    var whole := x.Render() + rest;
    assert whole[0] == opening && whole[1..] == RenderAnswers(x.answers) + rest;
    OpeningMeaning(opening);
    UsableIdsAreDistinct(x.calls);
    AcceptedAnswersAreExact(x.answers, CallIds(x.calls), rest);
  }

  ghost predicate AllFollow(exchanges: seq<Exchange>) {
    forall i :: 0 <= i < |exchanges| ==> AnswersFollowCalls(exchanges[i])
  }

  lemma {:induction false} AcceptedInOrderIsComplete(exchanges: seq<Exchange>)
    requires AllFollow(exchanges) && Scan(Render(exchanges), {}).Success?
    ensures AllComplete(exchanges)
  {
    if exchanges != [] {
      AcceptedFrontIsComplete(exchanges[0], Render(exchanges[1..]));
      AcceptedInOrderIsComplete(exchanges[1..]);
      assert forall i :: 0 < i < |exchanges| ==> exchanges[i] == exchanges[1..][i - 1];
    }
  }

  lemma {:induction false} ExchangesFollow(t: Trace)
    requires AllSized(t) && NoEmptyBatch(t)
    ensures AllFollow(Exchanges(t))
    ensures AllComplete(Exchanges(t)) <==> AllClean(t)
  {
    if t.Then? {
      ExchangesFollow(t.before);
      if t.round.action.Batch? {
        var calls, outputs := t.round.action.calls, t.round.action.outputs;
        ResultsFollowCalls(calls, outputs);
        var x := Exchange("", calls, Results(calls, outputs));
        if CleanBatch(calls) {
          CleanBatchIsComplete(x);
        }
        if Complete(x) {
          CompleteInOrderIsClean(x);
        }
        AllCompleteSnoc(Exchanges(t.before), x);
      }
    }
  }

  lemma AllCompleteSnoc(exchanges: seq<Exchange>, x: Exchange)
    ensures AllComplete(exchanges + [x]) <==> AllComplete(exchanges) && Complete(x)
  {
    var all := exchanges + [x];
    assert all[|exchanges|] == x;
    assert forall i :: 0 <= i < |exchanges| ==> all[i] == exchanges[i];
  }

  lemma {:induction false} LegalHasNoEmptyBatch(c: Config, w: World, initial: seq<Message>, t: Trace)
    requires Legal(c, w, initial, t)
    ensures NoEmptyBatch(t)
  {
    if t.Then? {
      LegalHasNoEmptyBatch(c, w, initial, t.before);
    }
  }

  /**
   However a run ends, the store's validator accepts its tool history if and only if every batch
   that was run had named calls with distinct, non-blank, unpadded ids.
   */
  lemma HistoryAcceptedIff(c: Config, w: World, initial: seq<Message>, t: Trace, ending: Ending)
    requires LegalRun(c, w, initial, t, ending) && AllSized(t)
    ensures Scan(History(t), {}).Success? <==> AllClean(t)
  {
    if Legal(c, w, initial, t) {
      LegalHasNoEmptyBatch(c, w, initial, t);
    } else {
      LegalHasNoEmptyBatch(c, w, initial, t.before);
    }
    ExchangesFollow(t);
    HistoryIsRendered(t);
    if AllClean(t) {
      CompleteExchangesAreAccepted(Exchanges(t));
    }
    if Scan(History(t), {}).Success? {
      AcceptedInOrderIsComplete(Exchanges(t));
    }
  }

  /** Two calls with one id in one batch: the history, and with it the whole turn, is refused. */
  lemma RepeatedIdIsRefused(outputs: seq<Output>)
    requires |outputs| == 2
    ensures var call := Call("call_0", "get_time", Text("{}"));
            Scan(BatchMessages("", [call, call], outputs), {}) == Failure(DuplicateCallId)
  {
    var call := Call("call_0", "get_time", Text("{}"));
    assert !IsSpace('c') && !IsSpace('0') && !IsSpace('g') && !IsSpace('e');
    assert Strip("call_0") == "call_0" && Strip("get_time") == "get_time";
    assert CleanCall(call) == call;
    assert [call, call][1..] == [call];
    assert ScanCalls([call], {} + {"call_0"}) == Failure(DuplicateCallId);
    assert ScanCalls([call, call], {}) == Failure(DuplicateCallId);
    assert BatchMessages("", [call, call], outputs)[0] == Assistant("", [call, call]);
  }

  // ---------------------------------------------------------------------------
  // Every request sent to the backend
  // ---------------------------------------------------------------------------

  lemma BatchIsOrdered(text: string, calls: seq<Call>, outputs: seq<Output>)
    requires |calls| == |outputs| && calls != []
    ensures IsOrderedDialogue(BatchMessages(text, calls, outputs))
    ensures CleanBatch(calls) ==> IsDialogue(BatchMessages(text, calls, outputs))
  {
    var x := Exchange(text, calls, Results(calls, outputs));
    ResultsFollowCalls(calls, outputs);
    RoundIsOrdered(x);
    if CleanBatch(calls) {
      CleanBatchIsComplete(x);
      CompleteIsDialogue(x);
    }
  }

  lemma CompleteIsDialogue(x: Exchange)
    requires Complete(x)
    ensures IsDialogue(x.Render())
  {
    var pieces := [ToolRound(x)];
    assert RenderEach(pieces) == [x.Render()] + RenderEach([]);
    assert Flatten([x.Render()]) == x.Render() + [];
    assert AllGood(pieces);
  }

  /** What a run adds to its messages. */
  lemma {:induction false} MessagesGrow(c: Config, w: World, initial: seq<Message>, t: Trace) returns (added: seq<Message>)
    requires Legal(c, w, initial, t)
    ensures Messages(c, initial, t) == initial + added
    ensures IsOrderedDialogue(added)
    ensures AllClean(t) ==> IsDialogue(added)
  {
    match t {
      case Start =>
        added := [];
        EmptyIsDialogue();
      case Then(before, round) =>
        var first := MessagesGrow(c, w, initial, before);
        match round.action {
          case Batch(calls, outputs) =>
            var text := SpokenText(round);
            BatchIsOrdered(text, calls, outputs);
            Extends(initial, first, BatchMessages(text, calls, outputs), AllClean(t));
            added := first + BatchMessages(text, calls, outputs);
          case Retry =>
            PlainIsDialogue(System(c.retryPrompt));
            Extends(initial, first, [System(c.retryPrompt)], AllClean(t));
            added := first + [System(c.retryPrompt)];
          case Last =>
            assert false;
        }
    }
  }

  lemma Extends(initial: seq<Message>, first: seq<Message>, more: seq<Message>, clean: bool)
    requires IsOrderedDialogue(first) && IsOrderedDialogue(more)
    requires clean ==> IsDialogue(first) && IsDialogue(more)
    ensures IsOrderedDialogue(first + more) && initial + first + more == initial + (first + more)
    ensures clean ==> IsDialogue(first + more)
  {
    OrderedDialogueAppend(first, more);
    if clean {
      DialogueAppend(first, more);
    }
  }

  /**
   Every message list sent to the backend is the opening prompt followed by messages in which each
   tool-call message is directly followed by its results in call order.
   */
  lemma RequestsAnswerEveryCall(c: Config, w: World, initial: seq<Message>, t: Trace, ending: Ending, before: Trace, round: Round)
    requires LegalRun(c, w, initial, t, ending) && Reaches(t, Then(before, round))
    ensures exists added :: round.request == initial + added && IsOrderedDialogue(added)
    ensures IsDialogue(initial) && AllClean(before) ==> IsDialogue(round.request)
  {
    ReachedRound(c, w, initial, t, ending, before, round);
    var added := MessagesGrow(c, w, initial, before);
    if IsDialogue(initial) && AllClean(before) {
      DialogueAppend(initial, added);
    }
  }

  lemma {:induction false} ReachedLegalRound(c: Config, w: World, initial: seq<Message>, t: Trace, before: Trace, round: Round)
    requires Legal(c, w, initial, t) && Reaches(t, Then(before, round))
    ensures Legal(c, w, initial, before) && LegalRound(c, w, initial, before, round)
  {
    if t != Then(before, round) {
      ReachedLegalRound(c, w, initial, t.before, before, round);
    }
  }

  /** Each round of a run begins as the loop body says. */
  lemma ReachedRound(c: Config, w: World, initial: seq<Message>, t: Trace, ending: Ending, before: Trace, round: Round)
    requires LegalRun(c, w, initial, t, ending) && Reaches(t, Then(before, round))
    ensures Legal(c, w, initial, before)
    ensures RoundBegins(c, w, initial, before, round.request, round.deferred, round.log)
    ensures LegalRound(c, w, initial, before, round) || FinalRound(c, w, initial, before, round, ending)
  {
    if Legal(c, w, initial, t) {
      ReachedLegalRound(c, w, initial, t, before, round);
    } else if t != Then(before, round) {
      ReachedLegalRound(c, w, initial, t.before, before, round);
    }
  }

  // ---------------------------------------------------------------------------
  // What is said
  // ---------------------------------------------------------------------------

  lemma GuardedRoundIsSilent(c: Config, w: World, initial: seq<Message>, before: Trace, round: Round)
    requires AllSized(before) && RoundBegins(c, w, initial, before, round.request, round.deferred, round.log)
    requires c.physical && !ActionSucceeded(before)
    ensures round.deferred && round.log.emitted == []
  {
    hide Flatten;
    hide Decide;
    hide ActionSucceeded;
  }

  /** A whole turn that was held back as markup and turned out to hold no call. */
  ghost predicate HeldForNothing(round: Round, w: World, extra: Extra) {
    extra.HeldBack? ==>
      extra.text == Flatten(round.log.texts) && round.log.decision == Suppress && Recovered(round.log, w) == []
  }

  lemma ExtrasAreKnown(c: Config, w: World, initial: seq<Message>, before: Trace, round: Round, ending: Ending)
    requires AllSized(before)
    requires LegalRound(c, w, initial, before, round) || FinalRound(c, w, initial, before, round, ending)
    ensures forall i :: 0 <= i < |round.extras| ==> HeldForNothing(round, w, round.extras[i])
  {
    hide RoundBegins;
    hide Flatten;
    hide Recovered;
  }

  /**
   While a physical action is requested and the newest action batch has not succeeded, no streamed
   text is emitted; only a whole turn held back for nothing and the loop's own notes are.
   */
  lemma PhysicalGuard(c: Config, w: World, initial: seq<Message>, t: Trace, ending: Ending, before: Trace, round: Round)
    requires LegalRun(c, w, initial, t, ending) && Reaches(t, Then(before, round)) && AllSized(before)
    requires c.physical && !ActionSucceeded(before)
    ensures round.log.emitted == []
    ensures forall i :: 0 <= i < |round.extras| ==> HeldForNothing(round, w, round.extras[i])
  {
    hide LegalRun;
    hide Legal;
    hide LegalRound;
    hide FinalRound;
    hide RoundBegins;
    hide Reaches;
    hide ActionSucceeded;
    hide HeldForNothing;
    ReachedRound(c, w, initial, t, ending, before, round);
    GuardedRoundIsSilent(c, w, initial, before, round);
    ExtrasAreKnown(c, w, initial, before, round, ending);
  }

  /** An answer without tools never passes for a completed action: the disclaimer is the last thing said. */
  lemma NoSilentFailure(c: Config, w: World, initial: seq<Message>, t: Trace)
    requires LegalRun(c, w, initial, t, Answered) && AllSized(t)
    requires c.physical && !ActionSucceeded(t)
    ensures Emitted(t) != [] && Emitted(t)[|Emitted(t)| - 1] == NoCommandNote.Said()
  {
    hide RoundBegins;
    hide SaidAll;
    var aside := SpokenAfterAll(t.round.log, w);
    assert !ActionSucceeded(t.before);
    AnswerWithoutAction(c, w, initial, t.before, t.round);
    SaidAllSnoc(aside, NoCommandNote);
    LastOfAll(Emitted(t.before) + t.round.log.emitted, SaidAll(aside), NoCommandNote.Said());
  }

  lemma AnswerWithoutAction(c: Config, w: World, initial: seq<Message>, before: Trace, round: Round)
    requires AllSized(before) && FinalRound(c, w, initial, before, round, Answered)
    requires c.physical && !ActionSucceeded(before)
    ensures round.extras == SpokenAfterAll(round.log, w) + [NoCommandNote]
  {
  }

  lemma LastOfAll(front: seq<string>, more: seq<string>, last: string)
    ensures var all := front + (more + [last]);
            all != [] && all[|all| - 1] == last
  {
  }

  /** Everything a round said of the model's own words. */
  function ModelSpeech(round: Round, w: World): string {
    Flatten(round.log.emitted) + if SpokenAfterAll(round.log, w) != [] then Flatten(round.log.texts) else ""
  }

  /**
   A completed, undeferred turn is spoken whole or not at all; it is silent exactly when its text is
   blank or tool calls were recovered from it.
   */
  lemma AllOrNothing(c: Config, w: World, initial: seq<Message>, t: Trace, ending: Ending, before: Trace, round: Round)
    requires LegalRun(c, w, initial, t, ending) && Reaches(t, Then(before, round))
    requires Completed(round) && !round.deferred
    ensures ModelSpeech(round, w) ==
            if LStrip(Flatten(round.log.texts)) == "" || Recovered(round.log, w) != [] then ""
            else Flatten(round.log.texts)
  {
    hide Legal;
    hide LegalRun;
    hide Reaches;
    hide Effective;
    ReachedRound(c, w, initial, t, ending, before, round);
    var log := round.log;
    DecisionKnown(log.texts, c.recover);
    assert Flatten<char>([]) == "";
    assert Flatten(log.texts) + "" == Flatten(log.texts) && "" + Flatten(log.texts) == Flatten(log.texts);
  }

  lemma {:induction false} DecisionKnown(texts: seq<string>, recover: bool)
    ensures Decide(texts, recover) == Undecided <==> LStrip(Flatten(texts)) == ""
  {
    if texts != [] {
      var before, last := texts[..|texts| - 1], texts[|texts| - 1];
      DecisionKnown(before, recover);
      assert texts == before + [last];
      FlattenAppend(before, [last]);
      LStripExtends(Flatten(before), Flatten([last]));
    }
  }

  // ---------------------------------------------------------------------------
  // The loop and the store together
  // ---------------------------------------------------------------------------

  ghost predicate PlainMessages(messages: seq<Message>) {
    forall i :: 0 <= i < |messages| ==> !OpensExchange(messages[i]) && !messages[i].ToolResult?
  }

  lemma {:induction false} PlainMessagesAreADialogue(messages: seq<Message>)
    requires PlainMessages(messages)
    ensures IsDialogue(messages)
  {
    EmptyIsDialogue();
    if messages != [] {
      PlainMessagesAreADialogue(messages[1..]);
      PlainIsDialogue(messages[0]);
      DialogueAppend([messages[0]], messages[1..]);
      assert [messages[0]] + messages[1..] == messages;
    }
  }

  /**
   Replay feeds the loop: with any store built by turns and amendments, any system messages around
   the replayed history and clean batches so far, every request holds only whole rounds of tool use.
   */
  lemma ReplayedRequestsAreDialogues(c: Config, w: World, rows: seq<MemoryStore.Row>, session: string,
                                     messageLimit: nat, maxChars: nat, jsonLength: Message -> nat,
                                     head: seq<Message>, tail: seq<Message>, t: Trace, ending: Ending, before: Trace, round: Round)
    requires MemoryStore.ValidRows(rows) && !Blank(session) && PlainMessages(head) && PlainMessages(tail)
    requires var replay := MemoryStore.Replay(rows, session, messageLimit, maxChars, jsonLength);
             replay.Success? ==> LegalRun(c, w, head + replay.value + tail, t, ending)
    requires Reaches(t, Then(before, round)) && AllClean(before)
    ensures IsDialogue(round.request)
  {
    MemoryStore.ReplayIsADialogue(rows, session, messageLimit, maxChars, jsonLength);
    var history := MemoryStore.Replay(rows, session, messageLimit, maxChars, jsonLength).value;
    PlainMessagesAreADialogue(head);
    PlainMessagesAreADialogue(tail);
    DialogueAppend(head, history);
    DialogueAppend(head + history, tail);
    RequestsAnswerEveryCall(c, w, head + history + tail, t, ending, before, round);
  }

  /**
   The loop feeds the store: a run that used tools is stored exactly when all its batches were clean,
   and then it comes back whole, at the end of the replay, as soon as it fits the budgets.
   */
  lemma RunIsStoredAndReplayed(c: Config, w: World, initial: seq<Message>, t: Trace, ending: Ending,
                               rows: seq<MemoryStore.Row>, session: string, command: string,
                               messageLimit: nat, maxChars: nat, jsonLength: Message -> nat)
    requires LegalRun(c, w, initial, t, ending) && AllSized(t) && History(t) != []
    requires MemoryStore.ValidRows(rows) && !Blank(session) && !Blank(command)
    ensures var stored := MemoryStore.TurnRows(session, command, ResponseText(Emitted(t)), History(t));
            && (stored.Success? <==> AllClean(t))
            && (AllClean(t) ==>
                  var cap := if maxChars < MemoryStore.PER_MESSAGE_CAP then maxChars else MemoryStore.PER_MESSAGE_CAP;
                  var turn := MemoryStore.ReplayedTurn(command, ResponseText(Emitted(t)), Scan(History(t), {}).value, cap);
                  var r := MemoryStore.Replay(rows + stored.value, session, messageLimit, maxChars, jsonLength);
                  && r.Success?
                  && if maxChars > 0 && |turn| <= messageLimit && MemoryStore.UnitSize(turn, jsonLength) <= maxChars
                     then exists older :: r.value == older + turn
                     else r.value == [])
  {
    HistoryAcceptedIff(c, w, initial, t, ending);
    if AllClean(t) {
      MemoryStore.RecordThenReplay(rows, session, command, ResponseText(Emitted(t)), History(t),
                                   messageLimit, maxChars, jsonLength);
    }
  }
}
