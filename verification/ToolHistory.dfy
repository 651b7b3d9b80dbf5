/**
 Chat messages and the check that a recorded tool conversation is complete
 (butler/memory/store.py, `_validated_tool_messages`).
 */
module ToolHistory {
  import opened PyText

  /** A JSON value that is expected to be a string. */
  datatype Value = Text(text: string) | NotText

  datatype Call = Call(id: string, name: string, arguments: Value)

  /** One chat message. An assistant message carries tool calls when `calls` is not empty. */
  datatype Message =
    | System(content: string)
    | User(content: string)
    | Assistant(content: string, calls: seq<Call>)
    | ToolResult(callId: string, output: Value)

  datatype Fault =
    | MissingResults
    | BlankCallId
    | DuplicateCallId
    | ArgumentsNotText
    | BlankToolName
    | OrphanResult
    | NotACallOrResult

  // ---------------------------------------------------------------------------
  // What one pass over the messages computes
  // ---------------------------------------------------------------------------

  predicate OpensExchange(m: Message) {
    m.Assistant? && m.calls != []
  }

  function CleanCall(c: Call): Call {
    Call(Strip(c.id), Strip(c.name), c.arguments)
  }

  /** Checks the calls of one message against the ids seen so far in that message. */
  function ScanCalls(calls: seq<Call>, pending: set<string>): Result<(seq<Call>, set<string>), Fault> {
    if calls == [] then
      Success(([], pending))
    else
      var call := CleanCall(calls[0]);
      if call.id == "" then Failure(BlankCallId)
      else if call.id in pending then Failure(DuplicateCallId)
      else if call.arguments.NotText? then Failure(ArgumentsNotText)
      else if call.name == "" then Failure(BlankToolName)
      else
        var rest :- ScanCalls(calls[1..], pending + {call.id});
        Success(([call] + rest.0, rest.1))
  }

  /** Checks one message; `pending` holds the calls that still wait for a result. */
  function ScanMessage(m: Message, pending: set<string>): Result<(Message, set<string>), Fault> {
    if OpensExchange(m) then
      if pending != {} then
        Failure(MissingResults)
      else
        var calls :- ScanCalls(m.calls, {});
        Success((Assistant("", calls.0), calls.1))
    else if m.ToolResult? then
      if m.callId !in pending || m.output.NotText? then
        Failure(OrphanResult)
      else
        Success((m, pending - {m.callId}))
    else
      Failure(NotACallOrResult)
  }

  function Scan(messages: seq<Message>, pending: set<string>): Result<seq<Message>, Fault> {
    if messages == [] then
      if pending == {} then Success([]) else Failure(MissingResults)
    else
      var first :- ScanMessage(messages[0], pending);
      var rest :- Scan(messages[1..], first.1);
      Success([first.0] + rest)
  }

  /** Puts what a loop has already produced in front of what the rest of the scan produces. */
  function Prepend(front: seq<Message>, rest: Result<seq<Message>, Fault>): (r: Result<seq<Message>, Fault>)
    ensures front == [] ==> r == rest
  {
    match rest
    case Success(clean) => assert front == [] ==> front + clean == clean; Success(front + clean)
    case Failure(fault) => Failure(fault)
  }

  function PrependCalls(front: seq<Call>, rest: Result<(seq<Call>, set<string>), Fault>)
    : (r: Result<(seq<Call>, set<string>), Fault>)
    ensures front == [] ==> r == rest
  {
    match rest
    case Success(tail) => assert front == [] ==> front + tail.0 == tail.0; Success((front + tail.0, tail.1))
    case Failure(fault) => Failure(fault)
  }

  lemma PrependCallsTwice(front: seq<Call>, c: Call, rest: Result<(seq<Call>, set<string>), Fault>)
    ensures PrependCalls(front, PrependCalls([c], rest)) == PrependCalls(front + [c], rest)
  {
    if rest.Success? {
      assert front + ([c] + rest.value.0) == front + [c] + rest.value.0;
    }
  }

  /** The validator: a loop over the messages that mutates the set of pending call ids. */
  method ValidatedToolMessages(messages: seq<Message>) returns (r: Result<seq<Message>, Fault>)
    ensures r == Scan(messages, {})
  {
    var pending: set<string> := {};
    var clean: seq<Message> := [];
    assert messages[0..] == messages;
    for i := 0 to |messages|
      invariant Scan(messages, {}) == Prepend(clean, Scan(messages[i..], pending))
    {
      var message := messages[i];
      assert messages[i..][1..] == messages[i + 1..];
      if message.Assistant? && message.calls != [] {
        if pending != {} {
          return Failure(MissingResults);
        }
        var calls: seq<Call> := [];
        assert message.calls[0..] == message.calls;
        for j := 0 to |message.calls|
          invariant ScanCalls(message.calls, {}) == PrependCalls(calls, ScanCalls(message.calls[j..], pending))
        {
          assert message.calls[j..][1..] == message.calls[j + 1..];
          var sent := message.calls[j];
          var call := Call(Strip(sent.id), Strip(sent.name), sent.arguments);
          if call.id == "" {
            return Failure(BlankCallId);
          }
          if call.id in pending {
            return Failure(DuplicateCallId);
          }
          if call.arguments.NotText? {
            return Failure(ArgumentsNotText);
          }
          if call.name == "" {
            return Failure(BlankToolName);
          }
          PrependCallsTwice(calls, call, ScanCalls(message.calls[j + 1..], pending + {call.id}));
          pending := pending + {call.id};
          calls := calls + [call];
        }
        assert message.calls[|message.calls|..] == [] && calls + [] == calls;
        assert ScanMessage(message, {}) == Success((Assistant("", calls), pending));
        PrependConcat(clean, [Assistant("", calls)], Scan(messages[i + 1..], pending));
        clean := clean + [Assistant("", calls)];
      } else if message.ToolResult? {
        if message.callId !in pending || message.output.NotText? {
          return Failure(OrphanResult);
        }
        pending := pending - {message.callId};
        PrependConcat(clean, [message], Scan(messages[i + 1..], pending));
        clean := clean + [message];
      } else {
        return Failure(NotACallOrResult);
      }
    }
    assert messages[|messages|..] == [] && clean + [] == clean;
    if pending != {} {
      return Failure(MissingResults);
    }
    return Success(clean);
  }

  /** The call with its id and name trimmed. */
  predicate Trimmed(c: Call, clean: Call) {
    clean.id == Strip(c.id) && clean.name == Strip(c.name) && clean.arguments == c.arguments
  }

  /** What an accepted message becomes: results stay, calls are trimmed one by one, speech beside them is dropped. */
  ghost predicate Cleaned(m: Message, clean: Message) {
    if m.ToolResult? then clean == m
    else
      && m.Assistant? && clean.Assistant? && clean.content == "" && |clean.calls| == |m.calls|
      && forall j :: 0 <= j < |m.calls| ==> Trimmed(m.calls[j], clean.calls[j])
  }

  lemma {:induction false} CallsAreTrimmed(calls: seq<Call>, pending: set<string>)
    requires ScanCalls(calls, pending).Success?
    ensures var clean := ScanCalls(calls, pending).value.0;
            |clean| == |calls| && forall j :: 0 <= j < |calls| ==> Trimmed(calls[j], clean[j])
  {
    if calls != [] {
      CallsAreTrimmed(calls[1..], pending + {CleanCall(calls[0]).id});
    }
  }

  /** Message by message, what is accepted is returned trimmed and otherwise as it was. */
  lemma {:induction false} AcceptedIsCleaned(messages: seq<Message>, pending: set<string>)
    requires Scan(messages, pending).Success?
    ensures var clean := Scan(messages, pending).value;
            |clean| == |messages| && forall i :: 0 <= i < |messages| ==> Cleaned(messages[i], clean[i])
  {
    if messages != [] {
      var first := ScanMessage(messages[0], pending).value;
      AcceptedIsCleaned(messages[1..], first.1);
      FirstIsCleaned(messages[0], pending);
      hide Cleaned;
    }
  }

  lemma FirstIsCleaned(m: Message, pending: set<string>)
    requires ScanMessage(m, pending).Success?
    ensures Cleaned(m, ScanMessage(m, pending).value.0)
  {
    if OpensExchange(m) {
      CallsAreTrimmed(m.calls, {});
    }
  }

  // ---------------------------------------------------------------------------
  // The same language described without a scan
  // ---------------------------------------------------------------------------

  datatype Answer = Answer(callId: string, output: string)

  /** One round of tool use: the calls, and one answer for each of them in any order. */
  datatype Exchange = Exchange(text: string, calls: seq<Call>, answers: seq<Answer>) {
    function Render(): seq<Message> {
      [Assistant(text, calls)] + RenderAnswers(answers)
    }

    /** Ids and names trimmed, intermediate speech dropped. */
    function Clean(): Exchange {
      Exchange("", CleanCalls(calls), answers)
    }
  }

  function CleanCalls(calls: seq<Call>): seq<Call> {
    if calls == [] then [] else [CleanCall(calls[0])] + CleanCalls(calls[1..])
  }

  function RenderAnswers(answers: seq<Answer>): seq<Message> {
    if answers == [] then [] else [ToolResult(answers[0].callId, Text(answers[0].output))] + RenderAnswers(answers[1..])
  }

  function Render(exchanges: seq<Exchange>): seq<Message> {
    if exchanges == [] then [] else exchanges[0].Render() + Render(exchanges[1..])
  }

  function CleanAll(exchanges: seq<Exchange>): seq<Exchange> {
    if exchanges == [] then [] else [exchanges[0].Clean()] + CleanAll(exchanges[1..])
  }

  function CallIds(calls: seq<Call>): set<string> {
    set i | 0 <= i < |calls| :: Strip(calls[i].id)
  }

  function AnswerIds(answers: seq<Answer>): set<string> {
    set i | 0 <= i < |answers| :: answers[i].callId
  }

  /** Every call has an id, a name and text arguments, and no two calls share an id. */
  ghost predicate UsableCalls(calls: seq<Call>) {
    && (forall i :: 0 <= i < |calls| ==>
          UsableCall(CleanCall(calls[i])))
    && (forall i, j :: 0 <= i < j < |calls| ==> Strip(calls[i].id) != Strip(calls[j].id))
  }

  /** Each call is answered exactly once and nothing else is answered. */
  ghost predicate AnswersExactly(answers: seq<Answer>, ids: set<string>) {
    && (forall i, j :: 0 <= i < j < |answers| ==> answers[i].callId != answers[j].callId)
    && AnswerIds(answers) == ids
  }

  ghost predicate Complete(x: Exchange) {
    x.calls != [] && UsableCalls(x.calls) && AnswersExactly(x.answers, CallIds(x.calls))
  }

  ghost predicate AllComplete(exchanges: seq<Exchange>) {
    forall i :: 0 <= i < |exchanges| ==> Complete(exchanges[i])
  }

  // ---------------------------------------------------------------------------
  // The scan accepts exactly the renderings of complete exchanges
  // ---------------------------------------------------------------------------

  lemma CallIdsStep(calls: seq<Call>)
    requires calls != []
    ensures CallIds(calls) == {Strip(calls[0].id)} + CallIds(calls[1..])
  {
    var tail := calls[1..];
    forall x | x in CallIds(calls) ensures x in {Strip(calls[0].id)} + CallIds(tail) {
      var i :| 0 <= i < |calls| && x == Strip(calls[i].id);
      assert i > 0 ==> calls[i] == tail[i - 1];
    }
    forall x | x in CallIds(tail) ensures x in CallIds(calls) {
      var i :| 0 <= i < |tail| && x == Strip(tail[i].id);
      assert tail[i] == calls[i + 1];
    }
  }

  lemma {:induction false} ScanCallsMeaning(calls: seq<Call>, pending: set<string>)
    ensures ScanCalls(calls, pending).Success? <==> UsableCalls(calls) && CallIds(calls) !! pending
    ensures ScanCalls(calls, pending).Success? ==>
              ScanCalls(calls, pending).value == (CleanCalls(calls), pending + CallIds(calls))
  {
    if calls == [] {
      assert CallIds(calls) == {} && pending + {} == pending;
    } else {
      var id, later := CleanCall(calls[0]).id, CallIds(calls[1..]);
      ScanCallsMeaning(calls[1..], pending + {id});
      CallIdsStep(calls);
      UsableCallsStep(calls);
      assert CallIds(calls) !! pending <==> id !in pending && later !! pending;
      assert later !! pending + {id} <==> id !in later && later !! pending;
      assert pending + {id} + later == pending + CallIds(calls);
    }
  }

  ghost predicate UsableCall(c: Call) {
    c.id != "" && c.name != "" && c.arguments.Text?
  }

  lemma UsableCallsStep(calls: seq<Call>)
    requires calls != []
    ensures UsableCalls(calls) <==>
              UsableCall(CleanCall(calls[0])) && UsableCalls(calls[1..]) && Strip(calls[0].id) !in CallIds(calls[1..])
  {
    var tail := calls[1..];
    assert forall i :: 0 < i < |calls| ==> calls[i] == tail[i - 1];
    if Strip(calls[0].id) !in CallIds(tail) && UsableCalls(tail) {
      forall j | 0 < j < |calls| ensures Strip(calls[0].id) != Strip(calls[j].id) {
        assert Strip(calls[j].id) == Strip(tail[j - 1].id);
      }
    }
  }

  lemma AnswersStep(answers: seq<Answer>)
    requires answers != []
    ensures AnswerIds(answers) == {answers[0].callId} + AnswerIds(answers[1..])
    ensures AnswersExactly(answers, AnswerIds(answers)) <==>
              AnswersExactly(answers[1..], AnswerIds(answers[1..])) && answers[0].callId !in AnswerIds(answers[1..])
  {
    var tail := answers[1..];
    assert forall i :: 0 < i < |answers| ==> answers[i] == tail[i - 1];
    forall x | x in AnswerIds(tail) ensures x in AnswerIds(answers) {
      var i :| 0 <= i < |tail| && x == tail[i].callId;
      assert x == answers[i + 1].callId;
    }
    forall x | x in AnswerIds(answers) ensures x in {answers[0].callId} + AnswerIds(tail) {
      var i :| 0 <= i < |answers| && x == answers[i].callId;
      assert i > 0 ==> x == tail[i - 1].callId;
    }
    if answers[0].callId !in AnswerIds(tail) && AnswersExactly(tail, AnswerIds(tail)) {
      forall i, j | 0 <= i < j < |answers| ensures answers[i].callId != answers[j].callId {
        assert answers[j] == tail[j - 1] && answers[j].callId in AnswerIds(tail);
      }
    }
  }

  /** Answers drain `pending` and the scan goes on with the rest. */
  lemma {:induction false} ScanAnswers(answers: seq<Answer>, pending: set<string>, rest: seq<Message>)
    requires AnswersExactly(answers, pending)
    ensures Scan(RenderAnswers(answers) + rest, pending) == Prepend(RenderAnswers(answers), Scan(rest, {}))
    decreases |answers|
  {
    if answers == [] {
      assert RenderAnswers(answers) + rest == rest;
      assert pending == {};
    } else {
      hide Scan;
      hide ScanMessage;
      hide AnswersExactly;
      hide Prepend;
      var first, tail := ToolResult(answers[0].callId, Text(answers[0].output)), answers[1..];
      var left := pending - {answers[0].callId};
      hide RenderAnswers;
      hide AnswerIds;
      DrainFirst(answers, pending);
      ScanAnswers(tail, left, rest);
      RenderFirst(answers, rest);
      ScanStep(first, RenderAnswers(tail) + rest, pending);
      PrependConcat([first], RenderAnswers(tail), Scan(rest, {}));
    }
  }

  lemma DrainFirst(answers: seq<Answer>, pending: set<string>)
    requires answers != [] && AnswersExactly(answers, pending)
    ensures AnswersExactly(answers[1..], pending - {answers[0].callId})
    ensures ScanMessage(ToolResult(answers[0].callId, Text(answers[0].output)), pending) ==
            Success((ToolResult(answers[0].callId, Text(answers[0].output)), pending - {answers[0].callId}))
  {
    AnswersStep(answers);
    assert pending - {answers[0].callId} == AnswerIds(answers[1..]);
  }

  lemma DrainOneMore(answer: Answer, tail: seq<Answer>, pending: set<string>)
    requires answer.callId in pending && AnswersExactly(tail, pending - {answer.callId})
    ensures AnswersExactly([answer] + tail, pending)
  {
    var answers := [answer] + tail;
    assert answers[1..] == tail;
    AnswersStep(answers);
    assert {answer.callId} + (pending - {answer.callId}) == pending;
  }

  lemma RenderFirst(answers: seq<Answer>, rest: seq<Message>)
    requires answers != []
    ensures RenderAnswers(answers) + rest
            == [ToolResult(answers[0].callId, Text(answers[0].output))] + (RenderAnswers(answers[1..]) + rest)
  {
    var first := ToolResult(answers[0].callId, Text(answers[0].output));
    assert RenderAnswers(answers) == [first] + RenderAnswers(answers[1..]);
    hide RenderAnswers;
    Regroup([first], RenderAnswers(answers[1..]), rest);
  }

  lemma Regroup(a: seq<Message>, b: seq<Message>, c: seq<Message>)
    ensures a + b + c == a + (b + c)
  {
  }

  lemma Behead(messages: seq<Message>, rest: seq<Message>)
    requires messages != [] && messages[1..] == rest
    ensures messages == [messages[0]] + rest
  {
  }

  lemma ScanStep(m: Message, rest: seq<Message>, pending: set<string>)
    requires ScanMessage(m, pending).Success?
    ensures var step := ScanMessage(m, pending).value;
            Scan([m] + rest, pending) == Prepend([step.0], Scan(rest, step.1))
  {
    assert ([m] + rest)[1..] == rest;
  }

  lemma PrependConcat(a: seq<Message>, b: seq<Message>, rest: Result<seq<Message>, Fault>)
    ensures Prepend(a, Prepend(b, rest)) == Prepend(a + b, rest)
  {
    if rest.Success? {
      assert a + (b + rest.value) == a + b + rest.value;
    }
  }

  /** Every rendering of complete exchanges is accepted, and is cleaned exchange by exchange. */
  lemma {:induction false} CompleteExchangesAreAccepted(exchanges: seq<Exchange>)
    requires AllComplete(exchanges)
    ensures Scan(Render(exchanges), {}) == Success(Render(CleanAll(exchanges)))
  {
    if exchanges != [] {
      var x, rest := exchanges[0], exchanges[1..];
      CompleteExchangesAreAccepted(rest);
      assert Complete(x);
      CompleteExchangeScans(x, Render(rest));
      assert CleanAll(exchanges)[0] == x.Clean() && CleanAll(exchanges)[1..] == CleanAll(rest);
    }
  }

  lemma CompleteExchangeScans(x: Exchange, rest: seq<Message>)
    requires Complete(x)
    ensures Scan(x.Render() + rest, {}) == Prepend(x.Clean().Render(), Scan(rest, {}))
  {
    var opening := Assistant(x.text, x.calls);
    assert x.Render() + rest == [opening] + (RenderAnswers(x.answers) + rest);
    OpeningScans(x);
    ScanStep(opening, RenderAnswers(x.answers) + rest, {});
    ScanAnswers(x.answers, CallIds(x.calls), rest);
    PrependConcat([Assistant("", CleanCalls(x.calls))], RenderAnswers(x.answers), Scan(rest, {}));
  }

  lemma OpeningScans(x: Exchange)
    requires Complete(x)
    ensures ScanMessage(Assistant(x.text, x.calls), {}) == Success((Assistant("", CleanCalls(x.calls)), CallIds(x.calls)))
  {
    ScanCallsMeaning(x.calls, {});
    assert {} + CallIds(x.calls) == CallIds(x.calls);
  }

  lemma FirstAnswers(messages: seq<Message>, pending: set<string>)
    requires Scan(messages, pending).Success? && pending != {}
    ensures messages != [] && messages[0].ToolResult? && messages[0].output.Text? && messages[0].callId in pending
    ensures Scan(messages[1..], pending - {messages[0].callId}).Success?
  {
    assert ScanMessage(messages[0], pending).Success?;
  }

  /** Splits off the answers that drain `pending` from an accepted list. */
  lemma {:induction false} SplitAnswers(messages: seq<Message>, pending: set<string>)
    returns (answers: seq<Answer>, rest: seq<Message>)
    requires Scan(messages, pending).Success?
    ensures AnswersExactly(answers, pending)
    ensures messages == RenderAnswers(answers) + rest
    ensures Scan(rest, {}).Success?
    decreases |messages|
  {
    if pending == {} {
      answers, rest := [], messages;
    } else {
      FirstAnswers(messages, pending);
      hide Scan;
      hide AnswersExactly;
      hide RenderAnswers;
      hide AnswerIds;
      var m := messages[0];
      var tail;
      tail, rest := SplitAnswers(messages[1..], pending - {m.callId});
      var first := Answer(m.callId, m.output.text);
      DrainOneMore(first, tail, pending);
      answers := [first] + tail;
      assert answers[0] == first && answers[1..] == tail;
      RenderFirst(answers, rest);
      Behead(messages, RenderAnswers(tail) + rest);
    }
  }

  lemma RenderCons(x: Exchange, tail: seq<Exchange>)
    requires Complete(x) && AllComplete(tail)
    ensures AllComplete([x] + tail)
    ensures Render([x] + tail) == [Assistant(x.text, x.calls)] + (RenderAnswers(x.answers) + Render(tail))
  {
    assert ([x] + tail)[1..] == tail;
  }

  lemma OpeningMeaning(m: Message)
    requires ScanMessage(m, {}).Success?
    ensures OpensExchange(m) && UsableCalls(m.calls) && ScanMessage(m, {}).value.1 == CallIds(m.calls)
  {
    ScanCallsMeaning(m.calls, {});
    assert {} + CallIds(m.calls) == CallIds(m.calls);
  }

  /** Every accepted list is a rendering of complete exchanges. */
  lemma {:induction false} AcceptedIsComplete(messages: seq<Message>) returns (exchanges: seq<Exchange>)
    requires Scan(messages, {}).Success?
    ensures AllComplete(exchanges) && Render(exchanges) == messages
    decreases |messages|
  {
    if messages == [] {
      exchanges := [];
    } else {
      var m := messages[0];
      OpeningMeaning(m);
      var answers, rest := SplitAnswers(messages[1..], CallIds(m.calls));
      var tail := AcceptedIsComplete(rest);
      var x := Exchange(m.content, m.calls, answers);
      exchanges := [x] + tail;
      RenderCons(x, tail);
      assert messages == [m] + (RenderAnswers(answers) + rest);
    }
  }

  /** The validator accepts a list exactly when it is a concatenation of complete exchanges. */
  lemma AcceptedIffComplete(messages: seq<Message>)
    ensures Scan(messages, {}).Success? <==>
            exists exchanges :: AllComplete(exchanges) && Render(exchanges) == messages
  {
    if Scan(messages, {}).Success? {
      var exchanges := AcceptedIsComplete(messages);
    }
    forall exchanges | AllComplete(exchanges) && Render(exchanges) == messages
      ensures Scan(messages, {}).Success?
    {
      CompleteExchangesAreAccepted(exchanges);
    }
  }

  lemma {:induction false} CleanCallsAreFixed(calls: seq<Call>)
    requires UsableCalls(calls)
    ensures UsableCalls(CleanCalls(calls))
    ensures CleanCalls(CleanCalls(calls)) == CleanCalls(calls)
    ensures CallIds(CleanCalls(calls)) == CallIds(calls)
    ensures calls != [] ==> CleanCalls(calls) != []
  {
    if calls != [] {
      UsableCallsStep(calls);
      CleanCallsAreFixed(calls[1..]);
      CallIdsStep(calls);
      var clean := CleanCalls(calls);
      assert clean[1..] == CleanCalls(calls[1..]);
      CallIdsStep(clean);
      StripFixes(calls[0].id);
      StripFixes(calls[0].name);
      UsableCallsStep(clean);
    }
  }

  lemma {:induction false} CleanAllIsFixed(exchanges: seq<Exchange>)
    requires AllComplete(exchanges)
    ensures AllComplete(CleanAll(exchanges))
    ensures CleanAll(CleanAll(exchanges)) == CleanAll(exchanges)
    ensures |CleanAll(exchanges)| == |exchanges|
  {
    if exchanges != [] {
      CleanAllIsFixed(exchanges[1..]);
      assert Complete(exchanges[0]);
      CleanCallsAreFixed(exchanges[0].calls);
      var clean := CleanAll(exchanges);
      assert clean[1..] == CleanAll(exchanges[1..]);
      assert Complete(clean[0]);
    }
  }

  /** What validation returned once, it accepts and returns unchanged ever after. */
  lemma ValidationIsIdempotent(messages: seq<Message>)
    requires Scan(messages, {}).Success?
    ensures Scan(Scan(messages, {}).value, {}) == Scan(messages, {})
  {
    var exchanges := AcceptedIsComplete(messages);
    CompleteExchangesAreAccepted(exchanges);
    CleanAllIsFixed(exchanges);
    CompleteExchangesAreAccepted(CleanAll(exchanges));
  }
}
