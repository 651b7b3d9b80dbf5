/**
 The bounded model/tool loop of one streamed command
 (butler/agent/runtime.py, `run_command_stream` and `_execute_chat_tool_calls`).
 */
module AgentLoop {
  import opened PyText
  import opened ToolHistory
  import opened StreamTurn

  /** What a tool returned to the model, and whether that text reports a failure. */
  datatype Output = Output(text: string, failed: bool)

  /** A tool call is answered, or the dispatcher itself raises. */
  datatype Outcome = Returned(output: Output) | Raised

  datatype Config = Config(
    maxRounds: nat,        // MAX_TOOL_CALL_ROUNDS
    physical: bool,        // the command asks for a physical action
    actionTools: bool,     // an action tool is registered
    recover: bool,         // RECOVER_LEAKED_TOOL_CALLS
    retryPrompt: string)   // the system message that asks again for the action tool

  /** Everything outside the loop: the model, the tools, the user and the consumer, all arbitrary. */
  datatype World = World(
    turn: nat -> Turn,
    cancelled: nat -> bool,
    tool: (int, int) -> Outcome,
    leaked: string -> seq<Call>,
    closeAfter: Option<nat>)

  datatype Extra = HeldBack(text: string) | LimitNote | NoCommandNote {
    function Said(): string {
      match this
      case HeldBack(text) => text
      case LimitNote => " I reached the tool-call limit before finishing that request."
      case NoCommandNote => "I did not send a device command, so no pump or relay was activated."
    }
  }

  datatype Action = Batch(calls: seq<Call>, outputs: seq<Output>) | Retry | Last

  datatype Round = Round(request: seq<Message>, deferred: bool, log: TurnLog, extras: seq<Extra>, action: Action)

  /** The rounds of a run, oldest innermost. */
  datatype Trace = Start | Then(before: Trace, round: Round)

  datatype Ending = Cancelled | BackendFailed | ToolsFailed | Closed | NoCompletion | Answered | LimitReached

  datatype Run = Run(trace: Trace, emitted: seq<string>, recorded: seq<string>, toolHistory: seq<Message>, response: string, ending: Ending)

  const ACTION_TOOLS: set<string> := {"request_device_action", "water_plants", "toggle_fan"}

  // ---------------------------------------------------------------------------
  // What a trace amounts to
  // ---------------------------------------------------------------------------

  function Rounds(t: Trace): nat {
    match t
    case Start => 0
    case Then(before, _) => Rounds(before) + 1
  }

  function Batches(t: Trace): nat {
    match t
    case Start => 0
    case Then(before, round) => Batches(before) + if round.action.Batch? then 1 else 0
  }

  function Retries(t: Trace): nat {
    match t
    case Start => 0
    case Then(before, round) => Retries(before) + if round.action.Retry? then 1 else 0
  }

  function Results(calls: seq<Call>, outputs: seq<Output>): seq<Answer>
    requires |calls| == |outputs|
  {
    if calls == [] then [] else [Answer(calls[0].id, outputs[0].text)] + Results(calls[1..], outputs[1..])
  }

  /** The messages of one batch: the calls, then one result per call in call order. */
  function BatchMessages(text: string, calls: seq<Call>, outputs: seq<Output>): seq<Message>
    requires |calls| == |outputs|
  {
    Exchange(text, calls, Results(calls, outputs)).Render()
  }

  predicate Sized(round: Round) {
    round.action.Batch? ==> |round.action.calls| == |round.action.outputs|
  }

  predicate AllSized(t: Trace) {
    t.Then? ==> Sized(t.round) && AllSized(t.before)
  }

  function SaidAll(extras: seq<Extra>): (said: seq<string>)
    ensures |said| == |extras|
  {
    if extras == [] then [] else [extras[0].Said()] + SaidAll(extras[1..])
  }

  /** What goes back to the model as its own words: all that was spoken or deferred, and text held back for nothing. */
  function SpokenText(round: Round): string {
    Flatten(round.log.spoken + SaidAll(round.extras))
  }

  /** What the backend has been told after the rounds of `t`. */
  function Messages(c: Config, initial: seq<Message>, t: Trace): seq<Message>
    requires AllSized(t)
  {
    match t
    case Start => initial
    case Then(before, round) =>
      match round.action
      case Batch(calls, outputs) =>
        Messages(c, initial, before) + BatchMessages(SpokenText(round), calls, outputs)
      case Retry => Messages(c, initial, before) + [System(c.retryPrompt)]
      case Last => Messages(c, initial, before)
  }

  /** What is recorded of the tools. */
  function History(t: Trace): seq<Message>
    requires AllSized(t)
  {
    match t
    case Start => []
    case Then(before, round) =>
      match round.action
      case Batch(calls, outputs) => History(before) + BatchMessages("", calls, outputs)
      case Retry => History(before)
      case Last => History(before)
  }

  function Emitted(t: Trace): seq<string> {
    match t
    case Start => []
    case Then(before, round) => Emitted(before) + round.log.emitted + SaidAll(round.extras)
  }

  predicate AnyAction(calls: seq<Call>) {
    exists i :: 0 <= i < |calls| && calls[i].name in ACTION_TOOLS
  }

  predicate AnyActionSucceeded(calls: seq<Call>, outputs: seq<Output>)
    requires |calls| == |outputs|
  {
    exists i :: 0 <= i < |calls| && calls[i].name in ACTION_TOOLS && !outputs[i].failed
  }

  predicate ActionAttempted(t: Trace) {
    match t
    case Start => false
    case Then(before, round) => ActionAttempted(before) || (round.action.Batch? && AnyAction(round.action.calls))
  }

  /** The newest batch that contained an action tool had at least one that did not fail. */
  predicate ActionSucceeded(t: Trace)
    requires AllSized(t)
  {
    match t
    case Start => false
    case Then(before, round) =>
      if round.action.Batch? && AnyAction(round.action.calls)
      then AnyActionSucceeded(round.action.calls, round.action.outputs)
      else ActionSucceeded(before)
  }

  // ---------------------------------------------------------------------------
  // Which rounds may follow which
  // ---------------------------------------------------------------------------

  function Recovered(log: TurnLog, w: World): seq<Call> {
    if log.decision == Suppress then w.leaked(Flatten(log.texts)) else []
  }

  /** A whole turn that looked like markup but held no call. */
  function SpokenAfterAll(log: TurnLog, w: World): seq<Extra> {
    if log.decision == Suppress && Recovered(log, w) == [] then [HeldBack(Flatten(log.texts))] else []
  }

  function Effective(log: TurnLog, w: World): seq<Call>
    requires log.completion.Some?
  {
    if log.completion.value != [] then log.completion.value else Recovered(log, w)
  }

  predicate MayRetry(c: Config, before: Trace) {
    c.physical && !ActionAttempted(before) && Retries(before) == 0 && c.actionTools
  }

  /** The request, the deferral and the streamed turn of the round that follows `before`. */
  ghost predicate RoundBegins(c: Config, w: World, initial: seq<Message>, before: Trace,
                              request: seq<Message>, deferred: bool, log: TurnLog)
    requires AllSized(before)
  {
    && request == Messages(c, initial, before)
    && deferred == (c.physical && !ActionSucceeded(before))
    && TurnMeaning(w.turn(Rounds(before)), deferred, c.recover, |Emitted(before)|, w.closeAfter, log)
  }

  ghost predicate Completed(round: Round) {
    round.log.stop == StreamDone && round.log.completion.Some?
  }

  /** A round after which the loop goes on. */
  ghost predicate LegalRound(c: Config, w: World, initial: seq<Message>, before: Trace, round: Round)
    requires AllSized(before)
  {
    && Sized(round)
    && RoundBegins(c, w, initial, before, round.request, round.deferred, round.log)
    && Completed(round)
    && round.extras == SpokenAfterAll(round.log, w)
    && (match round.action
        case Batch(calls, outputs) =>
          && calls == Effective(round.log, w) != []
          && Rounds(before) < c.maxRounds
          && AllReturned(w, Rounds(before), calls, outputs)
        case Retry => Effective(round.log, w) == [] && MayRetry(c, before)
        case Last => false)
  }

  ghost predicate Legal(c: Config, w: World, initial: seq<Message>, t: Trace)
    ensures Legal(c, w, initial, t) ==> AllSized(t)
  {
    t.Then? ==> Legal(c, w, initial, t.before) && LegalRound(c, w, initial, t.before, t.round)
  }

  /** The consumer closed the stream on the last fragment of the round. */
  predicate ClosedOnLast(w: World, before: Trace, round: Round) {
    w.closeAfter == Some(|Emitted(Then(before, round))|)
  }

  predicate AllReturned(w: World, round: nat, calls: seq<Call>, outputs: seq<Output>) {
    |outputs| == |calls| && forall i :: 0 <= i < |calls| ==> w.tool(round, i) == Returned(outputs[i])
  }

  /** The round in which the loop is left, and why. */
  ghost predicate FinalRound(c: Config, w: World, initial: seq<Message>, before: Trace, round: Round, ending: Ending)
    requires AllSized(before)
  {
    && round.action == Last
    && RoundBegins(c, w, initial, before, round.request, round.deferred, round.log)
    && var aside := SpokenAfterAll(round.log, w);
    match ending
    case Cancelled => round.log.stop == Interrupted && round.extras == []
    case BackendFailed => round.log.stop == BackendRaised && round.extras == []
    case NoCompletion => round.log.stop == StreamDone && round.log.completion.None? && round.extras == []
    case Closed =>
      && ClosedOnLast(w, before, round)
      && if round.log.stop == ConsumerClosed then round.extras == []
         else Completed(round) && round.extras != [] &&
              (round.extras == aside
               || (Effective(round.log, w) != [] && Rounds(before) >= c.maxRounds && round.extras == aside + [LimitNote])
               || (Effective(round.log, w) == [] && !MayRetry(c, before) && round.deferred
                   && round.extras == aside + [NoCommandNote]))
    case Answered =>
      && Completed(round) && Effective(round.log, w) == [] && !MayRetry(c, before)
      && round.extras == aside + if round.deferred then [NoCommandNote] else []
    case LimitReached =>
      && Completed(round) && Effective(round.log, w) != [] && Rounds(before) >= c.maxRounds
      && round.extras == aside + [LimitNote]
    case ToolsFailed =>
      && Completed(round) && Effective(round.log, w) != [] && Rounds(before) < c.maxRounds
      && round.extras == aside
      && exists i :: 0 <= i < |Effective(round.log, w)| && w.tool(Rounds(before), i) == Raised
  }

  /** The trace of a finished run: legal rounds, then the round that ended it, if the user did not cancel between rounds. */
  ghost predicate LegalRun(c: Config, w: World, initial: seq<Message>, t: Trace, ending: Ending) {
    || (Legal(c, w, initial, t) && ending == Cancelled && w.cancelled(Rounds(t)))
    || (t.Then? && Legal(c, w, initial, t.before) && FinalRound(c, w, initial, t.before, t.round, ending))
  }

  lemma LegalRunIsSized(c: Config, w: World, initial: seq<Message>, t: Trace, ending: Ending)
    requires LegalRun(c, w, initial, t, ending)
    ensures AllSized(t)
  {
  }

  // ---------------------------------------------------------------------------
  // The program
  // ---------------------------------------------------------------------------

  /** `text.replace("Monkey Butler:", "")` */
  function WithoutPrefix(text: string): string
    decreases |text|
  {
    if text == "" then ""
    else if "Monkey Butler:" <= text then WithoutPrefix(text[|"Monkey Butler:"|..])
    else [text[0]] + WithoutPrefix(text[1..])
  }

  function ResponseText(fragments: seq<string>): string {
    Strip(WithoutPrefix(Flatten(fragments)))
  }

  lemma {:induction false} ResultsSnoc(calls: seq<Call>, outputs: seq<Output>, n: nat)
    requires n < |calls| && n < |outputs|
    ensures Results(calls[..n + 1], outputs[..n + 1]) ==
            Results(calls[..n], outputs[..n]) + [Answer(calls[n].id, outputs[n].text)]
    decreases n
  {
    if n > 0 {
      ResultsSnoc(calls[1..], outputs[1..], n - 1);
      assert calls[..n + 1][1..] == calls[1..][..n] && calls[..n][1..] == calls[1..][..n - 1];
      assert outputs[..n + 1][1..] == outputs[1..][..n] && outputs[..n][1..] == outputs[1..][..n - 1];
    }
  }

  /** Runs the calls in order and collects one result message and one event for each. */
  method ExecuteChatToolCalls(w: World, round: nat, calls: seq<Call>)
    returns (messages: seq<Message>, outputs: seq<Output>, raised: bool)
    ensures raised ==> exists i :: 0 <= i < |calls| && w.tool(round, i) == Raised
    ensures !raised ==> AllReturned(w, round, calls, outputs) && messages == RenderAnswers(Results(calls, outputs))
  {
    messages, outputs, raised := [], [], false;
    for i := 0 to |calls|
      invariant |outputs| == i && messages == RenderAnswers(Results(calls[..i], outputs))
      invariant forall j :: 0 <= j < i ==> w.tool(round, j) == Returned(outputs[j])
    {
      match w.tool(round, i) {
        case Raised =>
          raised := true;
          return;
        case Returned(output) =>
          ghost var before := outputs;
          outputs := outputs + [output];
          assert outputs[..i] == before && outputs[..i + 1] == outputs;
          ResultsSnoc(calls, outputs, i);
          RenderAnswersSnoc(Results(calls[..i], before), Answer(calls[i].id, output.text));
          messages := messages + [ToolResult(calls[i].id, Text(output.text))];
      }
    }
    assert calls[..|calls|] == calls;
  }

  lemma {:induction false} RenderAnswersSnoc(answers: seq<Answer>, a: Answer)
    ensures RenderAnswers(answers + [a]) == RenderAnswers(answers) + [ToolResult(a.callId, Text(a.output))]
    decreases |answers|
  {
    if answers == [] {
      assert answers + [a] == [a];
    } else {
      RenderAnswersSnoc(answers[1..], a);
      assert (answers + [a])[1..] == answers[1..] + [a];
    }
  }

  // One lemma for each way in which a round goes on or ends the run.

  /** A turn that was cut off, or never completed, ends the run. */
  lemma TurnEndsRun(c: Config, w: World, initial: seq<Message>, before: Trace, round: Round, ending: Ending)
    requires AllSized(before) && round.action == Last && round.extras == []
    requires RoundBegins(c, w, initial, before, round.request, round.deferred, round.log)
    requires ending == EarlyEnding(round.log.stop)
    requires round.log.stop == StreamDone ==> round.log.completion.None?
    ensures FinalRound(c, w, initial, before, round, ending)
  {
  }

  function EarlyEnding(stop: Stop): Ending {
    match stop
    case StreamDone => NoCompletion
    case Interrupted => Cancelled
    case BackendRaised => BackendFailed
    case ConsumerClosed => Closed
  }

  lemma RetryIsLegal(c: Config, w: World, initial: seq<Message>, before: Trace, round: Round)
    requires AllSized(before) && Completed(round)
    requires RoundBegins(c, w, initial, before, round.request, round.deferred, round.log)
    requires round.action == Retry && round.extras == SpokenAfterAll(round.log, w)
    requires Effective(round.log, w) == [] && MayRetry(c, before)
    ensures LegalRound(c, w, initial, before, round)
  {
    hide RoundBegins;
  }

  lemma BatchIsLegal(c: Config, w: World, initial: seq<Message>, before: Trace, round: Round)
    requires AllSized(before) && Completed(round)
    requires RoundBegins(c, w, initial, before, round.request, round.deferred, round.log)
    requires round.action.Batch? && Sized(round) && round.extras == SpokenAfterAll(round.log, w)
    requires round.action.calls == Effective(round.log, w) != [] && Rounds(before) < c.maxRounds
    requires AllReturned(w, Rounds(before), round.action.calls, round.action.outputs)
    ensures LegalRound(c, w, initial, before, round)
  {
    hide RoundBegins;
  }

  lemma AnswerEndsRun(c: Config, w: World, initial: seq<Message>, before: Trace, round: Round, ending: Ending)
    requires AllSized(before) && Completed(round) && round.action == Last
    requires RoundBegins(c, w, initial, before, round.request, round.deferred, round.log)
    requires Effective(round.log, w) == [] && !MayRetry(c, before)
    requires round.extras == SpokenAfterAll(round.log, w) + if round.deferred then [NoCommandNote] else []
    requires ending == Answered || (ending == Closed && round.deferred && ClosedOnLast(w, before, round))
    ensures FinalRound(c, w, initial, before, round, ending)
  {
    hide RoundBegins;
  }

  lemma LimitEndsRun(c: Config, w: World, initial: seq<Message>, before: Trace, round: Round, ending: Ending)
    requires AllSized(before) && Completed(round) && round.action == Last
    requires RoundBegins(c, w, initial, before, round.request, round.deferred, round.log)
    requires Effective(round.log, w) != [] && Rounds(before) >= c.maxRounds
    requires round.extras == SpokenAfterAll(round.log, w) + [LimitNote]
    requires ending == LimitReached || (ending == Closed && ClosedOnLast(w, before, round))
    ensures FinalRound(c, w, initial, before, round, ending)
  {
    hide RoundBegins;
  }

  lemma AsideEndsRun(c: Config, w: World, initial: seq<Message>, before: Trace, round: Round, ending: Ending)
    requires AllSized(before) && Completed(round) && round.action == Last
    requires RoundBegins(c, w, initial, before, round.request, round.deferred, round.log)
    requires round.extras == SpokenAfterAll(round.log, w)
    requires match ending
             case Closed => round.extras != [] && ClosedOnLast(w, before, round)
             case ToolsFailed =>
               && Effective(round.log, w) != [] && Rounds(before) < c.maxRounds
               && exists i :: 0 <= i < |Effective(round.log, w)| && w.tool(Rounds(before), i) == Raised
             case _ => false
    ensures FinalRound(c, w, initial, before, round, ending)
  {
    hide RoundBegins;
  }

  /** What a round that does not end the run hands back to the loop. */
  ghost predicate GoesOn(c: Config, w: World, initial: seq<Message>, before: Trace, round: Round,
                         results: seq<Message>, retryUsed: bool)
    requires AllSized(before)
  {
    && LegalRound(c, w, initial, before, round)
    && match round.action
       case Last => false
       case Retry => !retryUsed
       case Batch(calls, outputs) =>
         Rounds(before) < c.maxRounds && |outputs| == |calls| && results == RenderAnswers(Results(calls, outputs))
  }

  lemma NoteAppends(before: Trace, round: Round, note: Extra)
    ensures Emitted(Then(before, round.(extras := round.extras + [note]))) == Emitted(Then(before, round)) + [note.Said()]
  {
    SaidAllSnoc(round.extras, note);
  }

  lemma ActionIsSilent(before: Trace, round: Round, action: Action)
    ensures Emitted(Then(before, round.(action := action))) == Emitted(Then(before, round))
  {
  }

  /**
   What the loop does once a turn has completed: speak what was held back for nothing, then
   retry, answer, stop at the limit, or run the tools.  `ending` is None when the loop goes on.
   */
  method FinishRound(c: Config, w: World, initial: seq<Message>, ghost before: Trace, begun: Round, parts: seq<string>, yielded: seq<string>,
                     rounds: nat, attempted: bool, retryUsed: bool)
    returns (round: Round, parts': seq<string>, yielded': seq<string>, results: seq<Message>, ending: Option<Ending>)
    requires AllSized(before) && Completed(begun) && begun.action == Last && begun.extras == []
    requires RoundBegins(c, w, initial, before, begun.request, begun.deferred, begun.log)
    requires parts == Emitted(Then(before, begun)) && yielded == parts
    requires rounds == Rounds(before) && attempted == ActionAttempted(before) && retryUsed == (Retries(before) != 0)
    ensures round.log == begun.log && parts' == Emitted(Then(before, round)) && yielded' == parts'
    ensures match ending
            case None => GoesOn(c, w, initial, before, round, results, retryUsed)
            case Some(e) => round.action == Last && FinalRound(c, w, initial, before, round, e)
  {
    hide LegalRound;
    hide FinalRound;
    hide RoundBegins;
    hide Emitted;
    hide Flatten;
    hide Results;
    hide ToolHistory.RenderAnswers;
    var log := begun.log;
    var recovered: seq<Call> := [];
    round, parts', yielded', results, ending := begun, parts, yielded, [], None;
    if log.decision == Suppress {
      var text := Flatten(log.texts);
      recovered := w.leaked(text);
      if recovered == [] {
        NoteAppends(before, round, HeldBack(text));
        round := round.(extras := round.extras + [HeldBack(text)]);
        parts' := parts' + [text];
        yielded' := yielded' + [text];
        if w.closeAfter == Some(|yielded'|) {
          AsideEndsRun(c, w, initial, before, round, Closed);
          ending := Some(Closed);
          return;
        }
      }
    }
    var calls := if log.completion.value != [] then log.completion.value else recovered;
    assert calls == Effective(log, w) && round.extras == SpokenAfterAll(log, w);
    hide Effective;
    hide SpokenAfterAll;
    if calls == [] {
      if c.physical && !attempted && !retryUsed && c.actionTools {
        ActionIsSilent(before, round, Retry);
        round := round.(action := Retry);
        RetryIsLegal(c, w, initial, before, round);
        return;
      }
      ending := Some(Answered);
      if round.deferred {
        NoteAppends(before, round, NoCommandNote);
        round := round.(extras := round.extras + [NoCommandNote]);
        parts' := parts' + [NoCommandNote.Said()];
        yielded' := yielded' + [NoCommandNote.Said()];
        if w.closeAfter == Some(|yielded'|) {
          ending := Some(Closed);
        }
      }
      AnswerEndsRun(c, w, initial, before, round, ending.value);
      return;
    }
    if rounds >= c.maxRounds {
      NoteAppends(before, round, LimitNote);
      round := round.(extras := round.extras + [LimitNote]);
      parts' := parts' + [LimitNote.Said()];
      yielded' := yielded' + [LimitNote.Said()];
      ending := Some(LimitReached);
      if w.closeAfter == Some(|yielded'|) {
        ending := Some(Closed);
      }
      LimitEndsRun(c, w, initial, before, round, ending.value);
      return;
    }
    var outputs, raised;
    results, outputs, raised := ExecuteChatToolCalls(w, rounds, calls);
    if raised {
      AsideEndsRun(c, w, initial, before, round, ToolsFailed);
      ending := Some(ToolsFailed);
      return;
    }
    ActionIsSilent(before, round, Batch(calls, outputs));
    round := round.(action := Batch(calls, outputs));
    BatchIsLegal(c, w, initial, before, round);
  }

  /** What a turn yields is what it records, however the turn ends. */
  lemma RecordedIsEmitted(t: Turn, deferred: bool, recover: bool, already: nat, closeAfter: Option<nat>, log: TurnLog)
    requires TurnMeaning(t, deferred, recover, already, closeAfter, log)
    ensures log.recorded == log.emitted
  {
  }

  method RunCommandStream(c: Config, w: World, initial: seq<Message>) returns (run: Run)
    ensures LegalRun(c, w, initial, run.trace, run.ending) && AllSized(run.trace)
    ensures run.emitted == Emitted(run.trace) && run.recorded == run.emitted
    ensures run.toolHistory == History(run.trace)
    ensures run.response == ResponseText(run.emitted)
  {
    hide Extra.Said;
    hide LegalRound;
    hide FinalRound;
    hide TurnMeaning;
    hide Flatten;
    hide Results;
    var messages, toolHistory: seq<Message> := initial, [];
    var fullTextParts, yielded: seq<string> := [], [];
    var rounds, attempted, succeeded, retryUsed := 0, false, false, false;
    var trace, ending := Start, Cancelled;
    hide ResponseText;
    while true
      invariant Legal(c, w, initial, trace)
      invariant messages == Messages(c, initial, trace) && toolHistory == History(trace)
      invariant fullTextParts == Emitted(trace) && yielded == Emitted(trace)
      invariant rounds == Rounds(trace) == Batches(trace) + Retries(trace)
      invariant attempted == ActionAttempted(trace) && succeeded == ActionSucceeded(trace)
      invariant Retries(trace) == if retryUsed then 1 else 0
      invariant Batches(trace) <= c.maxRounds
      decreases c.maxRounds + 1 - rounds
    {
      if w.cancelled(rounds) {
        break;
      }
      var deferred := c.physical && !succeeded;
      var log := RunTurn(w.turn(rounds), deferred, c.recover, |yielded|, w.closeAfter);
      RecordedIsEmitted(w.turn(rounds), deferred, c.recover, |yielded|, w.closeAfter, log);
      fullTextParts := fullTextParts + log.recorded;
      yielded := yielded + log.emitted;
      var round := Round.Round(messages, deferred, log, [], Last);
      assert RoundBegins(c, w, initial, trace, round.request, round.deferred, round.log);
      assert fullTextParts == Emitted(Then(trace, round));
      hide RoundBegins;
      if log.stop != StreamDone || log.completion.None? {
        ending := EarlyEnding(log.stop);
        TurnEndsRun(c, w, initial, trace, round, ending);
        trace := Then(trace, round);
        break;
      }
      var results, ended;
      round, fullTextParts, yielded, results, ended :=
        FinishRound(c, w, initial, trace, round, fullTextParts, yielded, rounds, attempted, retryUsed);
      if ended.Some? {
        ending, trace := ended.value, Then(trace, round);
        break;
      }
      if round.action == Retry {
        messages := messages + [System(c.retryPrompt)];
        retryUsed := true;
      } else {
        var calls := round.action.calls;
        messages := messages + ([Assistant(SpokenText(round), calls)] + results);
        if AnyAction(calls) {
          attempted := true;
          succeeded := AnyActionSucceeded(calls, round.action.outputs);
        }
        toolHistory := toolHistory + ([Assistant("", calls)] + results);
      }
      trace := Then(trace, round);
      rounds := rounds + 1;
    }
    LegalRunIsSized(c, w, initial, trace, ending);
    return Run(trace, yielded, fullTextParts, toolHistory, ResponseText(fullTextParts), ending);
  }

  lemma TextsRegroup(a: seq<string>, b: seq<string>, c: seq<string>)
    ensures a + b + c == a + (b + c)
  {
  }

  lemma ExtrasTail(extras: seq<Extra>, e: Extra)
    requires extras != []
    ensures (extras + [e])[0] == extras[0] && (extras + [e])[1..] == extras[1..] + [e]
  {
  }

  lemma {:induction false} SaidAllSnoc(extras: seq<Extra>, e: Extra)
    ensures SaidAll(extras + [e]) == SaidAll(extras) + [e.Said()]
    decreases |extras|
  {
    hide Extra.Said;
    if extras == [] {
      assert extras + [e] == [e];
    } else {
      SaidAllSnoc(extras[1..], e);
      ExtrasTail(extras, e);
      TextsRegroup([extras[0].Said()], SaidAll(extras[1..]), [e.Said()]);
    }
  }
}
