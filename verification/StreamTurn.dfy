/**
 One streamed model turn: what is spoken, what is held back as leaked tool markup
 (butler/agent/runtime.py, the event loop of `run_command_stream`).
 */
module StreamTurn {
  import opened PyText
  import opened ToolHistory

  datatype Event = Delta(text: string) | Completion(calls: seq<Call>)

  /** An event of the backend, and whether the user had barged in when it arrived. */
  datatype Arrival = Arrival(event: Event, cancelSet: bool)

  /** An arbitrary model turn: it may never complete, and it may end in an exception. */
  datatype Turn = Turn(arrivals: seq<Arrival>, raises: bool)

  datatype Decision = Undecided | Speak | Suppress

  datatype Stop = StreamDone | Interrupted | BackendRaised | ConsumerClosed

  /** The local variables of one turn when its event loop is left. */
  datatype TurnLog = TurnLog(
    consumed: nat,
    texts: seq<string>,
    spoken: seq<string>,    // spoken_parts
    recorded: seq<string>,  // what the turn adds to full_text_parts
    emitted: seq<string>,   // what is yielded to the consumer
    decision: Decision,
    completion: Option<seq<Call>>,
    stop: Stop)

  // ---------------------------------------------------------------------------
  // What the events say
  // ---------------------------------------------------------------------------

  /** The non-empty text fragments among the first `n` events. */
  function Texts(arrivals: seq<Arrival>, n: nat): seq<string>
    requires n <= |arrivals|
  {
    if n == 0 then []
    else
      match arrivals[n - 1].event
      case Delta(text) => if text == "" then Texts(arrivals, n - 1) else Texts(arrivals, n - 1) + [text]
      case Completion(_) => Texts(arrivals, n - 1)
  }

  function LastCompletion(arrivals: seq<Arrival>, n: nat): Option<seq<Call>>
    requires n <= |arrivals|
  {
    if n == 0 then None
    else
      match arrivals[n - 1].event
      case Delta(_) => LastCompletion(arrivals, n - 1)
      case Completion(calls) => Some(calls)
  }

  /** The user had not barged in when the first `n` events arrived. */
  ghost predicate Uncancelled(arrivals: seq<Arrival>, n: nat)
    requires n <= |arrivals|
  {
    forall i :: 0 <= i < n ==> !arrivals[i].cancelSet
  }

  const TAG: string := "<tool_call"

  predicate LooksLikeToolMarkupStart(text: string) {
    TAG <= text || "{" <= text
  }

  /** Decided on the first fragment that makes the turn visible, and never revised. */
  function Decide(texts: seq<string>, recover: bool): Decision {
    if texts == [] then Undecided
    else
      var before := Decide(texts[..|texts| - 1], recover);
      if before != Undecided then before
      else
        var visible := LStrip(Flatten(texts));
        if visible == "" then Undecided
        else if recover && LooksLikeToolMarkupStart(visible) then Suppress
        else Speak
  }

  /** Whether the consumer closed the stream on one of the fragments `from + 1 .. to`. */
  predicate ClosedWithin(closeAfter: Option<nat>, from: nat, to: nat) {
    closeAfter.Some? && from < closeAfter.value <= to
  }

  // ---------------------------------------------------------------------------
  // The event loop
  // ---------------------------------------------------------------------------

  /** The lists that a turn appends to. */
  datatype Voice = Voice(spoken: seq<string>, recorded: seq<string>, emitted: seq<string>)

  const SILENT := Voice([], [], [])

  /** All of the text so far has been spoken, deferred or held back; what was yielded is what was recorded. */
  ghost predicate SpokenOut(texts: seq<string>, v: Voice, decision: Decision,
                            deferred: bool, recover: bool, already: nat, closeAfter: Option<nat>)
  {
    && decision == Decide(texts, recover)
    && v.spoken == (if decision == Speak then texts else [])
    && v.emitted == (if deferred then [] else v.spoken)
    && v.recorded == v.emitted
    && !ClosedWithin(closeAfter, already, already + |v.emitted|)
  }

  /** The consumer closed the stream on the last fragment emitted. */
  ghost predicate CutShort(texts: seq<string>, v: Voice, decision: Decision, recover: bool, already: nat, closeAfter: Option<nat>) {
    && decision == Speak == Decide(texts, recover)
    && v.emitted == v.spoken && v.recorded == v.emitted && v.spoken <= texts && v.emitted != []
    && closeAfter == Some(already + |v.emitted|)
  }

  /** Everything the event loop guarantees about its local variables. */
  ghost predicate TurnMeaning(t: Turn, deferred: bool, recover: bool, already: nat, closeAfter: Option<nat>, log: TurnLog) {
    && log.consumed <= |t.arrivals|
    && log.texts == Texts(t.arrivals, log.consumed)
    && log.completion == LastCompletion(t.arrivals, log.consumed)
    && (match log.stop
        case StreamDone => log.consumed == |t.arrivals| && !t.raises && Uncancelled(t.arrivals, log.consumed)
        case BackendRaised => log.consumed == |t.arrivals| && t.raises && Uncancelled(t.arrivals, log.consumed)
        case Interrupted =>
          && log.consumed < |t.arrivals| && t.arrivals[log.consumed].cancelSet && Uncancelled(t.arrivals, log.consumed)
        case ConsumerClosed => !deferred)
    && (var v := Voice(log.spoken, log.recorded, log.emitted);
        if log.stop == ConsumerClosed
        then CutShort(log.texts, v, log.decision, recover, already, closeAfter)
        else SpokenOut(log.texts, v, log.decision, deferred, recover, already, closeAfter))
  }

  /** The voice after the fragments `parts` have been spoken, or deferred. */
  function Said(v: Voice, parts: seq<string>, deferred: bool): Voice {
    if deferred then v.(spoken := v.spoken + parts)
    else Voice(v.spoken + parts, v.recorded + parts, v.emitted + parts)
  }

  /** Speaks fragments one by one; the consumer may close the stream on any of them. */
  method SpeakAll(v: Voice, parts: seq<string>, deferred: bool, already: nat, closeAfter: Option<nat>)
    returns (v': Voice, closed: bool)
    requires !ClosedWithin(closeAfter, already, already + |v.emitted|)
    ensures !closed ==> v' == Said(v, parts, deferred) && !ClosedWithin(closeAfter, already, already + |v'.emitted|)
    ensures closed ==>
              && !deferred && closeAfter == Some(already + |v'.emitted|)
              && exists k :: 0 < k <= |parts| && v' == Said(v, parts[..k], deferred)
  {
    v', closed := v, false;
    assert v == Said(v, [], deferred);
    for j := 0 to |parts|
      invariant v' == Said(v, parts[..j], deferred)
      invariant !ClosedWithin(closeAfter, already, already + |v'.emitted|)
    {
      assert parts[..j + 1] == parts[..j] + [parts[j]];
      SaidOneMore(v, parts[..j], parts[j], deferred);
      v' := v'.(spoken := v'.spoken + [parts[j]]);
      if !deferred {
        v' := v'.(recorded := v'.recorded + [parts[j]]);
        v' := v'.(emitted := v'.emitted + [parts[j]]);
        if closeAfter == Some(already + |v'.emitted|) {
          closed := true;
          return;
        }
      }
    }
    assert parts[..|parts|] == parts;
  }

  lemma SaidOneMore(v: Voice, parts: seq<string>, part: string, deferred: bool)
    ensures Said(v, parts + [part], deferred) == Said(Said(v, parts, deferred), [part], deferred)
  {
    assert v.spoken + (parts + [part]) == v.spoken + parts + [part];
    assert v.recorded + (parts + [part]) == v.recorded + parts + [part];
    assert v.emitted + (parts + [part]) == v.emitted + parts + [part];
  }

  lemma DecideOneMore(texts: seq<string>, text: string, recover: bool)
    ensures var before := Decide(texts, recover);
            var visible := LStrip(Flatten(texts + [text]));
            Decide(texts + [text], recover) ==
            if before != Undecided then before
            else if visible == "" then Undecided
            else if recover && LooksLikeToolMarkupStart(visible) then Suppress
            else Speak
  {
    assert (texts + [text])[..|texts|] == texts;
  }

  /** The first visible fragment: everything that was pending is spoken with it. */
  method BeginSpeaking(text: string, texts: seq<string>, deferred: bool, recover: bool, already: nat, closeAfter: Option<nat>)
    returns (v': Voice, closed: bool)
    requires Decide(texts + [text], recover) == Speak && !ClosedWithin(closeAfter, already, already)
    ensures !closed ==> SpokenOut(texts + [text], v', Speak, deferred, recover, already, closeAfter)
    ensures closed ==> !deferred && CutShort(texts + [text], v', Speak, recover, already, closeAfter)
  {
    hide Decide;
    v', closed := SpeakAll(SILENT, texts + [text], deferred, already, closeAfter);
    assert [] + (texts + [text]) == texts + [text];
    if closed {
      ghost var k :| 0 < k <= |texts + [text]| && v' == Said(SILENT, (texts + [text])[..k], deferred);
      assert [] + (texts + [text])[..k] == (texts + [text])[..k];
    }
  }

  method GoOnSpeaking(text: string, texts: seq<string>, v: Voice, deferred: bool, recover: bool, already: nat, closeAfter: Option<nat>)
    returns (v': Voice, closed: bool)
    requires SpokenOut(texts, v, Speak, deferred, recover, already, closeAfter)
    ensures !closed ==> SpokenOut(texts + [text], v', Speak, deferred, recover, already, closeAfter)
    ensures closed ==> !deferred && CutShort(texts + [text], v', Speak, recover, already, closeAfter)
  {
    DecideOneMore(texts, text, recover);
    hide Decide;
    v', closed := SpeakAll(v, [text], deferred, already, closeAfter);
    if closed {
      ghost var k :| 0 < k <= |[text]| && v' == Said(v, [text][..k], deferred);
      assert [text][..k] == [text];
    }
  }

  /** One text delta. */
  method OnText(text: string, texts: seq<string>, pending: seq<string>, v: Voice,
                decision: Decision, deferred: bool, recover: bool, already: nat, closeAfter: Option<nat>)
    returns (pending': seq<string>, v': Voice, decision': Decision, closed: bool)
    requires SpokenOut(texts, v, decision, deferred, recover, already, closeAfter)
    requires pending == if decision == Undecided then texts else []
    ensures !closed ==> SpokenOut(texts + [text], v', decision', deferred, recover, already, closeAfter)
    ensures !closed ==> pending' == if decision' == Undecided then texts + [text] else []
    ensures closed ==> !deferred && CutShort(texts + [text], v', decision', recover, already, closeAfter)
  {
    pending', v', decision', closed := pending, v, decision, false;
    DecideOneMore(texts, text, recover);
    hide Decide;
    hide LStrip;
    hide Flatten;
    if decision == Undecided {
      var visible := LStrip(Flatten(texts + [text]));
      if visible == "" {
        pending' := pending + [text];
      } else if recover && LooksLikeToolMarkupStart(visible) {
        decision', pending' := Suppress, [];
      } else {
        decision', pending' := Speak, [];
        v', closed := BeginSpeaking(text, pending, deferred, recover, already, closeAfter);
      }
    } else if decision == Speak {
      v', closed := GoOnSpeaking(text, texts, v, deferred, recover, already, closeAfter);
    }
  }

  method RunTurn(t: Turn, deferred: bool, recover: bool, already: nat, closeAfter: Option<nat>) returns (log: TurnLog)
    ensures TurnMeaning(t, deferred, recover, already, closeAfter, log)
  {
    hide Decide;
    hide SpokenOut;
    hide CutShort;
    var texts, pending: seq<string> := [], [];
    var v, decision := SILENT, Undecided;
    var completion: Option<seq<Call>> := None;
    NothingSaidYet(deferred, recover, already, closeAfter);
    for i := 0 to |t.arrivals|
      invariant texts == Texts(t.arrivals, i) && completion == LastCompletion(t.arrivals, i)
      invariant Uncancelled(t.arrivals, i)
      invariant SpokenOut(texts, v, decision, deferred, recover, already, closeAfter)
      invariant pending == if decision == Undecided then texts else []
    {
      if t.arrivals[i].cancelSet {
        return TurnLog(i, texts, v.spoken, v.recorded, v.emitted, decision, completion, Interrupted);
      }
      match t.arrivals[i].event {
        case Completion(calls) =>
          completion := Some(calls);
        case Delta(text) =>
          if text != "" {
            var closed;
            pending, v, decision, closed := OnText(text, texts, pending, v, decision, deferred, recover, already, closeAfter);
            texts := texts + [text];
            if closed {
              return TurnLog(i + 1, texts, v.spoken, v.recorded, v.emitted, decision, completion, ConsumerClosed);
            }
          }
      }
    }
    return TurnLog(|t.arrivals|, texts, v.spoken, v.recorded, v.emitted, decision, completion,
                   if t.raises then BackendRaised else StreamDone);
  }

  lemma NothingSaidYet(deferred: bool, recover: bool, already: nat, closeAfter: Option<nat>)
    ensures SpokenOut([], SILENT, Undecided, deferred, recover, already, closeAfter)
  {
  }

  // ---------------------------------------------------------------------------
  // Chunking
  // ---------------------------------------------------------------------------

  /** The decision taken on the whole text at once. */
  function DecideWhole(text: string, recover: bool): Decision {
    var visible := LStrip(text);
    if visible == "" then Undecided
    else if recover && LooksLikeToolMarkupStart(visible) then Suppress
    else Speak
  }

  lemma {:induction false} LStripExtends(s: string, t: string)
    ensures LStrip(s) != "" ==> LStrip(s + t) == LStrip(s) + t
  {
    if s != "" && IsSpace(s[0]) {
      LStripExtends(s[1..], t);
      assert (s + t)[1..] == s[1..] + t;
    }
  }

  /** Unless the visible text begins with "<", how it was cut into fragments does not matter. */
  lemma {:induction false} DecisionIgnoresChunking(texts: seq<string>, recover: bool)
    requires LStrip(Flatten(texts)) == "" || LStrip(Flatten(texts))[0] != '<'
    ensures Decide(texts, recover) == DecideWhole(Flatten(texts), recover)
  {
    if texts != [] {
      var before, last := texts[..|texts| - 1], texts[|texts| - 1];
      assert texts == before + [last];
      FlattenAppend(before, [last]);
      assert Flatten([last]) == last;
      LStripExtends(Flatten(before), last);
      if LStrip(Flatten(before)) != "" {
        assert LStrip(Flatten(texts))[0] == LStrip(Flatten(before))[0];
      }
      DecisionIgnoresChunking(before, recover);
    }
  }

  /** Two cuts of the same text are treated alike, in what is spoken and in what is held back. */
  lemma ChunkingDoesNotMatter(left: seq<string>, right: seq<string>, recover: bool)
    requires Flatten(left) == Flatten(right)
    requires LStrip(Flatten(left)) == "" || LStrip(Flatten(left))[0] != '<'
    ensures Decide(left, recover) == Decide(right, recover)
  {
    DecisionIgnoresChunking(left, recover);
    DecisionIgnoresChunking(right, recover);
  }

  /** The fragments up to and including the first one that makes the turn visible. */
  function VisiblePrefix(texts: seq<string>): nat
    ensures VisiblePrefix(texts) <= |texts|
  {
    if texts == [] then 0
    else
      var before := VisiblePrefix(texts[..|texts| - 1]);
      if LStrip(Flatten(texts[..before])) != "" then before else |texts|
  }

  /**
   For text that begins with "<" the cut matters: the turn is held back exactly when the first
   visible fragment already spells the whole tag.
   */
  lemma {:induction false} TagMustArriveWhole(texts: seq<string>)
    requires LStrip(Flatten(texts)) != "" && LStrip(Flatten(texts))[0] == '<'
    ensures Decide(texts, true) == Suppress <==> TAG <= LStrip(Flatten(texts[..VisiblePrefix(texts)]))
    ensures Decide(texts, true) != Undecided
  {
    var before, last := texts[..|texts| - 1], texts[|texts| - 1];
    assert texts == before + [last] && texts[..|texts|] == texts;
    FlattenAppend(before, [last]);
    assert Flatten([last]) == last;
    LStripExtends(Flatten(before), last);
    if LStrip(Flatten(before)) != "" {
      assert LStrip(Flatten(before))[0] == LStrip(Flatten(texts))[0];
      TagMustArriveWhole(before);
      VisiblePrefixIsVisible(before);
      assert texts[..VisiblePrefix(before)] == before[..VisiblePrefix(before)];
    } else {
      InvisibleIsUndecided(before);
      VisiblePrefixOfInvisible(before);
      assert texts[..VisiblePrefix(before)] == before;
    }
  }

  lemma {:induction false} VisiblePrefixIsVisible(texts: seq<string>)
    requires LStrip(Flatten(texts)) != ""
    ensures LStrip(Flatten(texts[..VisiblePrefix(texts)])) != ""
  {
    assert texts[..|texts|] == texts;
  }

  lemma {:induction false} InvisibleIsUndecided(texts: seq<string>)
    requires LStrip(Flatten(texts)) == ""
    ensures Decide(texts, true) == Undecided
  {
    DecisionIgnoresChunking(texts, true);
  }

  lemma {:induction false} VisiblePrefixOfInvisible(texts: seq<string>)
    requires LStrip(Flatten(texts)) == ""
    ensures VisiblePrefix(texts) == |texts|
  {
    if texts != [] {
      var before := texts[..|texts| - 1];
      assert texts == before + [texts[|texts| - 1]];
      FlattenAppend(before, [texts[|texts| - 1]]);
      LStripExtends(Flatten(before), Flatten([texts[|texts| - 1]]));
      VisiblePrefixOfInvisible(before);
      assert texts[..|before|] == before;
    }
  }

  /** The same leaked call, cut inside the tag, is spoken aloud. */
  lemma SplitTagIsSpoken()
    ensures Flatten(["<tool_call>"]) == Flatten(["<tool", "_call>"])
    ensures Decide(["<tool_call>"], true) == Suppress
    ensures Decide(["<tool", "_call>"], true) == Speak
  {
    var whole, cut := ["<tool_call>"], ["<tool", "_call>"];
    assert Flatten(whole) == "<tool_call>" && Flatten(cut) == "<tool_call>";
    assert cut[..1] == ["<tool"] && Flatten(["<tool"]) == "<tool";
    assert !IsSpace('<');
    assert LStrip("<tool") == "<tool" && LStrip("<tool_call>") == "<tool_call>";
    assert whole[..0] == [] && cut[..1][..0] == [];
    assert TAG == "<tool_call>"[..|TAG|];
    assert !("{" <= "<tool");
  }
}
