/**
 What a turn says, what the model is told that it said, and what is stored as the answer
 (butler/agent/runtime.py, `run_command_stream`).
 */
module AgentSpeech {
  import opened PyText
  import opened TextMeaning
  import opened ToolHistory
  import opened StreamTurn
  import opened AgentLoop
  import opened AgentRuns

  // ---------------------------------------------------------------------------
  // The first visible character decides
  // ---------------------------------------------------------------------------

  lemma {:induction false} LStripTakesBlanks(front: string, text: string)
    requires Blank(front) && (text != "" ==> !IsSpace(text[0]))
    ensures LStrip(front + text) == text
  {
    if front == "" {
      assert front + text == text;
    } else {
      assert (front + text)[0] == front[0] && (front + text)[1..] == front[1..] + text;
      LStripTakesBlanks(front[1..], text);
    }
  }

  /**
   However the text is cut: a turn of nothing but whitespace is not decided; one that begins with a brace is held back
   if leaked calls are to be recovered; one that begins with anything but a brace or "<" is spoken.
   */
  lemma FirstCharacterDecides(texts: seq<string>, recover: bool, front: string, text: string)
    requires Flatten(texts) == front + text && Blank(front) && (text != "" ==> !IsSpace(text[0]))
    ensures text == "" ==> Decide(texts, recover) == Undecided
    ensures text != "" && text[0] == '{' ==> Decide(texts, recover) == if recover then Suppress else Speak
    ensures text != "" && text[0] != '{' && text[0] != '<' ==> Decide(texts, recover) == Speak
  {
    LStripTakesBlanks(front, text);
    hide LStrip;
    if text == "" || text[0] != '<' {
      DecisionIgnoresChunking(texts, recover);
      FirstOfPrefix(text);
    }
  }

  lemma FirstOfPrefix(text: string)
    ensures "<tool_call" <= text ==> text[0] == '<'
    ensures "{" <= text <==> text != "" && text[0] == '{'
  {
  }

  // ---------------------------------------------------------------------------
  // What the model is told that it said
  // ---------------------------------------------------------------------------

  /** All of a completed turn, unless it is blank or calls were recovered from it, and whether or not it was deferred. */
  lemma ModelIsToldItsWords(c: Config, w: World, initial: seq<Message>, t: Trace, ending: Ending, before: Trace, round: Round)
    requires LegalRun(c, w, initial, t, ending) && Reaches(t, Then(before, round)) && round.action.Batch?
    ensures SpokenText(round)
            == if Blank(Flatten(round.log.texts)) || (round.log.decision == Suppress && w.leaked(Flatten(round.log.texts)) != [])
               then "" else Flatten(round.log.texts)
  {
    hide LegalRun;
    hide Reaches;
    hide Legal;
    hide FinalRound;
    hide Blank;
    ReachedRound(c, w, initial, t, ending, before, round);
    BatchIsLegalRound(c, w, initial, before, round, ending);
    SpokenIs(c, w, initial, before, round);
    LStripEmptyIffBlank(Flatten(round.log.texts));
    DecisionKnown(round.log.texts, c.recover);
    hide LStrip;
    hide Decide;
    FlattenAppend(round.log.spoken, SaidAll(round.extras));
    OnlyText(Flatten(round.log.texts));
  }

  lemma BatchIsLegalRound(c: Config, w: World, initial: seq<Message>, before: Trace, round: Round, ending: Ending)
    requires AllSized(before) && round.action.Batch?
    requires LegalRound(c, w, initial, before, round) || FinalRound(c, w, initial, before, round, ending)
    ensures LegalRound(c, w, initial, before, round)
  {
  }

  lemma SpokenIs(c: Config, w: World, initial: seq<Message>, before: Trace, round: Round)
    requires AllSized(before) && LegalRound(c, w, initial, before, round)
    ensures round.log.decision == Decide(round.log.texts, c.recover)
    ensures round.log.spoken == if round.log.decision == Speak then round.log.texts else []
    ensures round.extras == if round.log.decision == Suppress && w.leaked(Flatten(round.log.texts)) == []
                            then [HeldBack(Flatten(round.log.texts))] else []
  {
    hide Decide;
    hide Flatten;
  }

  lemma OnlyText(text: string)
    ensures SaidAll([HeldBack(text)]) == [text] && SaidAll([]) == []
    ensures Flatten([text]) == text && Flatten<char>([]) == "" && text + "" == text && "" + text == text
  {
    assert [HeldBack(text)][1..] == [];
    assert [text][1..] == [];
  }

  lemma {:induction false} LStripEmptyIffBlank(s: string)
    ensures LStrip(s) == "" <==> Blank(s)
  {
    if s != "" && IsSpace(s[0]) {
      LStripEmptyIffBlank(s[1..]);
      assert forall i :: 0 < i < |s| ==> s[i] == s[1..][i - 1];
    }
  }

  // ---------------------------------------------------------------------------
  // The stored answer
  // ---------------------------------------------------------------------------

  /** The speaker's name occurs at place `i`. */
  predicate NameAt(text: string, i: nat) {
    i + 14 <= |text| && text[i..i + 14] == "Monkey Butler:"
  }

  predicate NoName(text: string) {
    forall i: nat :: i < |text| ==> !NameAt(text, i)
  }

  lemma {:induction false} WithoutNameIsKept(text: string)
    requires NoName(text)
    ensures WithoutPrefix(text) == text
  {
    if text != "" {
      assert !NameAt(text, 0);
      NameAtFront(text);
      TailHasNoName(text);
      WithoutNameIsKept(text[1..]);
    }
  }

  lemma NameAtFront(text: string)
    ensures "Monkey Butler:" <= text <==> NameAt(text, 0)
  {
    assert |text| >= 14 ==> text[0..14] == text[..14];
  }

  lemma TailHasNoName(text: string)
    requires NoName(text) && text != ""
    ensures NoName(text[1..])
  {
    forall i: nat | i < |text| - 1 ensures !NameAt(text[1..], i) {
      assert !NameAt(text, i + 1);
      assert i + 15 <= |text| ==> text[1..][i..i + 14] == text[i + 1..i + 15];
    }
  }

  /** Only the first letter of the name is an "M": no occurrence begins inside another or runs into one. */
  lemma NameDoesNotOverlap(front: string, rest: string, i: nat)
    requires NoName(front) && i < |front|
    ensures !NameAt(front + "Monkey Butler:" + rest, i)
  {
    var whole := front + "Monkey Butler:" + rest;
    if i + 14 <= |front| {
      assert whole[i..i + 14] == front[i..i + 14];
      assert !NameAt(front, i);
    } else {
      assert whole[i..i + 14][|front| - i] == 'M';
      OneM(|front| - i);
    }
  }

  lemma OneM(k: nat)
    requires 0 < k < 14
    ensures "Monkey Butler:"[k] != 'M'
  {
  }

  lemma NameStep(text: string)
    requires text != ""
    ensures NameAt(text, 0) ==> WithoutPrefix(text) == WithoutPrefix(text[14..])
    ensures !NameAt(text, 0) ==> WithoutPrefix(text) == [text[0]] + WithoutPrefix(text[1..])
  {
    NameAtFront(text);
  }

  lemma NameFirst(rest: string)
    ensures NameAt("Monkey Butler:" + rest, 0) && ("Monkey Butler:" + rest)[14..] == rest
  {
  }

  /** The first occurrence goes, and what follows is treated by itself. */
  lemma {:induction false} NameIsTaken(front: string, rest: string)
    requires NoName(front)
    ensures WithoutPrefix(front + "Monkey Butler:" + rest) == front + WithoutPrefix(rest)
  {
    hide WithoutPrefix;
    hide NoName;
    hide NameAt;
    var whole := front + "Monkey Butler:" + rest;
    NameStep(whole);
    if front == "" {
      assert whole == "Monkey Butler:" + rest;
      NameFirst(rest);
      assert "" + WithoutPrefix(rest) == WithoutPrefix(rest);
    } else {
      NameDoesNotOverlap(front, rest, 0);
      TailHasNoName(front);
      NameIsTaken(front[1..], rest);
      assert whole[1..] == front[1..] + "Monkey Butler:" + rest && whole[0] == front[0];
      assert [front[0]] + (front[1..] + WithoutPrefix(rest)) == front + WithoutPrefix(rest);
    }
  }

  /** Pieces of text with the speaker's name between them. */
  function Named(pieces: seq<string>): string {
    if pieces == [] then ""
    else if |pieces| == 1 then pieces[0]
    else pieces[0] + "Monkey Butler:" + Named(pieces[1..])
  }

  lemma {:induction false} NamesAreTaken(pieces: seq<string>)
    requires forall i :: 0 <= i < |pieces| ==> NoName(pieces[i])
    ensures WithoutPrefix(Named(pieces)) == Flatten(pieces)
  {
    if pieces != [] {
      assert forall i :: 0 <= i < |pieces[1..]| ==> pieces[1..][i] == pieces[i + 1];
      NamesAreTaken(pieces[1..]);
      if |pieces| == 1 {
        WithoutNameIsKept(pieces[0]);
        assert Flatten(pieces[1..]) == "" && pieces[0] + "" == pieces[0];
      } else {
        NameIsTaken(pieces[0], Named(pieces[1..]));
      }
    }
  }

  /** The stored answer is all that was said, without the speaker's name wherever it occurs and without outer blanks. */
  lemma ResponseIsWhatWasSaid(fragments: seq<string>, pieces: seq<string>, front: string, text: string, back: string)
    requires Flatten(fragments) == Named(pieces) && forall i :: 0 <= i < |pieces| ==> NoName(pieces[i])
    requires Flatten(pieces) == front + text + back && Blank(front) && Stripped(text) && Blank(back)
    ensures ResponseText(fragments) == text
  {
    NamesAreTaken(pieces);
    StripTakesBlanks(front, text, back);
  }
}
