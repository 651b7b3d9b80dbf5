/**
 Tool calls recovered from text in which a local model printed them
 (butler/agent/runtime.py, `_extract_leaked_tool_calls`).
 */
module LeakedCalls {
  import opened PyText
  import opened ToolHistory
  import opened StreamTurn
  import opened AgentLoop
  import opened AgentRuns

  /** A decoded JSON value, as far as the recovery looks at it. */
  datatype Leaked = NotAnObject | Object(name: Option<string>, arguments: string)

  function Digit(d: nat): char
    requires d < 10
  {
    ['0', '1', '2', '3', '4', '5', '6', '7', '8', '9'][d]
  }

  /** `str(n)` */
  function Decimal(n: nat): string {
    if n < 10 then [Digit(n)] else Decimal(n / 10) + [Digit(n % 10)]
  }

  const PREFIX: string := "recovered_"

  predicate Usable(item: Leaked) {
    item.Object? && item.name.Some? && !Blank(item.name.value)
  }

  function RecoveredCall(item: Leaked, index: nat): Call
    requires Usable(item)
  {
    Call(PREFIX + Decimal(index), Strip(item.name.value), Text(if item.arguments == "" then "{}" else item.arguments))
  }

  /** The calls recovered from the first `n` objects; an id is the position of its item. */
  function RecoveredCalls(objects: seq<Leaked>, n: nat): seq<Call>
    requires n <= |objects|
  {
    if n == 0 then []
    else if Usable(objects[n - 1]) then RecoveredCalls(objects, n - 1) + [RecoveredCall(objects[n - 1], n - 1)]
    else RecoveredCalls(objects, n - 1)
  }

  method ExtractLeakedToolCalls(objects: seq<Leaked>) returns (calls: seq<Call>)
    ensures calls == RecoveredCalls(objects, |objects|)
  {
    calls := [];
    for index := 0 to |objects|
      invariant calls == RecoveredCalls(objects, index)
    {
      if objects[index].NotAnObject? || objects[index].name.None? {
        continue;
      }
      var name := Strip(objects[index].name.value);
      StripEmptyIffBlank(objects[index].name.value);
      if name == "" {
        continue;
      }
      var arguments := if objects[index].arguments == "" then "{}" else objects[index].arguments;
      calls := calls + [Call(PREFIX + Decimal(index), name, Text(arguments))];
    }
  }

  lemma {:induction false} DecimalIsInjective(m: nat, n: nat)
    requires Decimal(m) == Decimal(n)
    ensures m == n
  {
    hide Decimal;
    DecimalParts(m);
    DecimalParts(n);
    DigitIsInjective(m % 10, n % 10);
    if m >= 10 {
      DecimalIsInjective(m / 10, n / 10);
    }
  }

  lemma DecimalParts(n: nat)
    ensures var text := Decimal(n);
            && |text| > 0 && text[|text| - 1] == Digit(n % 10) && (n < 10 <==> |text| == 1)
            && (n >= 10 ==> text[..|text| - 1] == Decimal(n / 10))
  {
    DecimalIsNotEmpty(n / 10);
  }

  lemma DigitIsInjective(m: nat, n: nat)
    requires m < 10 && n < 10 && Digit(m) == Digit(n)
    ensures m == n
  {
  }

  lemma DecimalIsNotEmpty(n: nat)
    ensures |Decimal(n)| >= 1 && !IsSpace(Decimal(n)[|Decimal(n)| - 1])
  {
  }

  lemma RecoveredIdIsTrimmed(index: nat)
    ensures Strip(PREFIX + Decimal(index)) == PREFIX + Decimal(index)
  {
    var id := PREFIX + Decimal(index);
    DecimalIsNotEmpty(index);
    StripFixes(id);
    assert id[0] == 'r' && id[|id| - 1] == Decimal(index)[|Decimal(index)| - 1];
  }

  /** Where each recovered call came from. */
  lemma {:induction false} RecoveredOrigin(objects: seq<Leaked>, n: nat, k: nat) returns (index: nat)
    requires n <= |objects| && k < |RecoveredCalls(objects, n)|
    ensures index < n && Usable(objects[index]) && RecoveredCalls(objects, n)[k] == RecoveredCall(objects[index], index)
    ensures k == |RecoveredCalls(objects, index)|
  {
    if Usable(objects[n - 1]) && k == |RecoveredCalls(objects, n - 1)| {
      index := n - 1;
    } else {
      index := RecoveredOrigin(objects, n - 1, k);
    }
  }

  /** Whatever the model printed, the recovered calls form a batch that the store can record. */
  lemma RecoveredBatchIsClean(objects: seq<Leaked>)
    ensures CleanBatch(RecoveredCalls(objects, |objects|))
  {
    var calls := RecoveredCalls(objects, |objects|);
    forall k | 0 <= k < |calls|
      ensures UsableCall(CleanCall(calls[k])) && Strip(calls[k].id) == calls[k].id
    {
      var index := RecoveredOrigin(objects, |objects|, k);
      RecoveredIdIsTrimmed(index);
      StripFixes(objects[index].name.value);
      StripEmptyIffBlank(objects[index].name.value);
    }
    forall i, j | 0 <= i < j < |calls| ensures Strip(calls[i].id) != Strip(calls[j].id) {
      var a := RecoveredOrigin(objects, |objects|, i);
      var b := RecoveredOrigin(objects, |objects|, j);
      RecoveredIdIsTrimmed(a);
      RecoveredIdIsTrimmed(b);
      if calls[i].id == calls[j].id {
        assert Decimal(a) == calls[i].id[|PREFIX|..] == calls[j].id[|PREFIX|..] == Decimal(b);
        DecimalIsInjective(a, b);
      }
    }
  }

  /** What a text of digits says. */
  function NumberOf(text: string): int {
    if text == "" then 0 else 10 * NumberOf(text[..|text| - 1]) + (text[|text| - 1] as int - '0' as int)
  }

  lemma {:induction false} DecimalMeans(n: nat)
    ensures NumberOf(Decimal(n)) == n
    ensures forall i :: 0 <= i < |Decimal(n)| ==> '0' <= Decimal(n)[i] <= '9'
  {
    DecimalParts(n);
    if n >= 10 {
      DecimalMeans(n / 10);
    } else {
      assert Decimal(n)[..0] == "";
    }
  }

  /** How many of the first `n` objects name a tool. */
  function Named(objects: seq<Leaked>, n: nat): nat
    requires n <= |objects|
  {
    if n == 0 then 0
    else Named(objects, n - 1) + if objects[n - 1].Object? && objects[n - 1].name.Some? && !Blank(objects[n - 1].name.value) then 1 else 0
  }

  /** The call of the tool that the object names, with its arguments or none, under the place of the object. */
  predicate IsCallOf(call: Call, item: Leaked, place: nat) {
    && item.Object? && item.name.Some? && call.name == Strip(item.name.value)
    && call.arguments == Text(if item.arguments == "" then "{}" else item.arguments)
    && |call.id| > 10 && call.id[..10] == "recovered_" && NumberOf(call.id[10..]) == place
  }

  /** Every object that names a tool is a call of it, in its place, with its arguments or none, and nothing else is. */
  lemma {:induction false} EachNamedObjectIsACall(objects: seq<Leaked>, n: nat, i: nat)
    requires i < n <= |objects| && objects[i].Object? && objects[i].name.Some? && !Blank(objects[i].name.value)
    ensures |RecoveredCalls(objects, n)| == Named(objects, n) && Named(objects, i) < Named(objects, n)
    ensures IsCallOf(RecoveredCalls(objects, n)[Named(objects, i)], objects[i], i)
    decreases n
  {
    hide RecoveredCalls;
    hide RecoveredCall;
    hide IsCallOf;
    RecoveredCount(objects, n - 1);
    RecoveredCount(objects, n);
    if i == n - 1 {
      LastCall(objects, n);
      CallOfItsObject(objects[i], i);
    } else {
      EachNamedObjectIsACall(objects, n - 1, i);
      EarlierCall(objects, n, Named(objects, i));
    }
  }

  lemma EarlierCall(objects: seq<Leaked>, n: nat, k: nat)
    requires 0 < n <= |objects| && k < |RecoveredCalls(objects, n - 1)|
    ensures k < |RecoveredCalls(objects, n)| && RecoveredCalls(objects, n)[k] == RecoveredCalls(objects, n - 1)[k]
  {
  }

  lemma LastCall(objects: seq<Leaked>, n: nat)
    requires 0 < n <= |objects| && Usable(objects[n - 1])
    ensures var k := |RecoveredCalls(objects, n - 1)|;
            k < |RecoveredCalls(objects, n)| && RecoveredCalls(objects, n)[k] == RecoveredCall(objects[n - 1], n - 1)
  {
  }

  lemma CallOfItsObject(item: Leaked, place: nat)
    requires Usable(item)
    ensures IsCallOf(RecoveredCall(item, place), item, place)
  {
    IdIsThePlace(place);
  }

  lemma IdIsThePlace(i: nat)
    ensures var id := PREFIX + Decimal(i);
            |id| > 10 && id[..10] == "recovered_" && NumberOf(id[10..]) == i
  {
    DecimalMeans(i);
    DecimalIsNotEmpty(i);
    hide Decimal;
    assert (PREFIX + Decimal(i))[10..] == Decimal(i);
  }

  lemma {:induction false} RecoveredCount(objects: seq<Leaked>, n: nat)
    requires n <= |objects|
    ensures |RecoveredCalls(objects, n)| == Named(objects, n)
  {
    if n > 0 {
      RecoveredCount(objects, n - 1);
    }
  }

  // ---------------------------------------------------------------------------
  // With the loop and the store
  // ---------------------------------------------------------------------------

  /** The model server never sends a completion with unusable, padded or repeated ids. */
  ghost predicate CleanServer(w: World) {
    forall n: nat, i: nat :: i < |w.turn(n).arrivals| && w.turn(n).arrivals[i].event.Completion? ==>
      w.turn(n).arrivals[i].event.calls == [] || CleanBatch(w.turn(n).arrivals[i].event.calls)
  }

  /** Leaked calls are recovered from the objects that some decoder finds in the text. */
  ghost predicate RecoversFrom(w: World, decode: string -> seq<Leaked>) {
    forall text :: w.leaked(text) == RecoveredCalls(decode(text), |decode(text)|)
  }

  lemma {:induction false} CompletionArrived(arrivals: seq<Arrival>, n: nat) returns (i: nat)
    requires n <= |arrivals| && LastCompletion(arrivals, n).Some?
    ensures i < n && arrivals[i].event == Completion(LastCompletion(arrivals, n).value)
  {
    if arrivals[n - 1].event.Completion? {
      i := n - 1;
    } else {
      i := CompletionArrived(arrivals, n - 1);
    }
  }

  lemma EffectiveCallsAreClean(w: World, decode: string -> seq<Leaked>, n: nat, log: TurnLog)
    requires CleanServer(w) && RecoversFrom(w, decode)
    requires log.consumed <= |w.turn(n).arrivals| && log.completion == LastCompletion(w.turn(n).arrivals, log.consumed)
    requires log.completion.Some? && Effective(log, w) != []
    ensures CleanBatch(Effective(log, w))
  {
    if log.completion.value != [] {
      var i := CompletionArrived(w.turn(n).arrivals, log.consumed);
      assert w.turn(n).arrivals[i].event.calls == log.completion.value;
    } else {
      RecoveredBatchIsClean(decode(Flatten(log.texts)));
    }
  }

  lemma {:induction false} CleanServerMakesCleanBatches(c: Config, w: World, initial: seq<Message>, t: Trace, decode: string -> seq<Leaked>)
    requires Legal(c, w, initial, t) && CleanServer(w) && RecoversFrom(w, decode)
    ensures AllClean(t)
  {
    if t.Then? {
      CleanServerMakesCleanBatches(c, w, initial, t.before, decode);
      if t.round.action.Batch? {
        hide Effective;
        hide CleanBatch;
        EffectiveCallsAreClean(w, decode, Rounds(t.before), t.round.log);
      }
    }
  }

  /** With a server whose own calls are clean, every run is recorded, whatever was leaked and recovered on the way. */
  lemma CleanServersAreStored(c: Config, w: World, initial: seq<Message>, t: Trace, ending: Ending, decode: string -> seq<Leaked>)
    requires LegalRun(c, w, initial, t, ending) && AllSized(t) && CleanServer(w) && RecoversFrom(w, decode)
    ensures AllClean(t) && Scan(History(t), {}).Success?
  {
    if Legal(c, w, initial, t) {
      CleanServerMakesCleanBatches(c, w, initial, t, decode);
    } else {
      CleanServerMakesCleanBatches(c, w, initial, t.before, decode);
    }
    HistoryAcceptedIff(c, w, initial, t, ending);
  }
}
