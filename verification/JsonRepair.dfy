/**
 Completing a cut-off JSON object (butler/tool_arguments.py, `_repair_json_object`): one pass over
 the characters that escapes raw line breaks in strings and remembers what is still open.
 */
module JsonRepair {
  import opened PyText

  datatype Mode = Outside | InString | Escaping

  /** Where the pass is, and the closing brackets it owes, innermost last. */
  datatype Scanner = Scanner(mode: Mode, owed: string)

  const START := Scanner(Outside, "")

  predicate Control(c: char) {
    c == '\n' || c == '\r' || c == '\t'
  }

  function Move(mode: Mode, c: char): Mode {
    match mode
    case Outside => if c == '"' then InString else Outside
    case InString => if c == '\\' then Escaping else if c == '"' then Outside else InString
    case Escaping => InString
  }

  function Step(s: Scanner, c: char): Scanner {
    var mode := Move(s.mode, c);
    if s.mode != Outside then Scanner(mode, s.owed)
    else if c == '{' then Scanner(mode, s.owed + ['}'])
    else if c == '[' then Scanner(mode, s.owed + [']'])
    else if (c == '}' || c == ']') && s.owed != "" && s.owed[|s.owed| - 1] == c then Scanner(mode, s.owed[..|s.owed| - 1])
    else Scanner(mode, s.owed)
  }

  function Emit(s: Scanner, c: char): string {
    if s.mode != InString || !Control(c) then [c]
    else if c == '\n' then "\\n"
    else if c == '\r' then "\\r"
    else "\\t"
  }

  function Scan(s: Scanner, text: string): Scanner
    decreases |text|
  {
    if text == "" then s else Scan(Step(s, text[0]), text[1..])
  }

  function Escaped(s: Scanner, text: string): string
    decreases |text|
  {
    if text == "" then "" else Emit(s, text[0]) + Escaped(Step(s, text[0]), text[1..])
  }

  function Reversed(s: string): string {
    if s == "" then "" else [s[|s| - 1]] + Reversed(s[..|s| - 1])
  }

  function Closing(s: Scanner): string {
    (if s.mode == Outside then "" else "\"") + Reversed(s.owed)
  }

  function Completed(text: string): string {
    Escaped(START, text) + Closing(Scan(START, text))
  }

  /** `text.strip().startswith("{")` */
  predicate StartsObject(text: string) {
    Strip(text) != "" && Strip(text)[0] == '{'
  }

  /** The result in front of the pass that removes trailing commas. */
  function Repaired(text: string): string {
    if StartsObject(text) then Completed(text) else text
  }

  // ---------------------------------------------------------------------------
  // The loop
  // ---------------------------------------------------------------------------

  lemma OneStep(s: Scanner, text: string, i: nat, done: string)
    requires i < |text|
    ensures Scan(s, text[i..]) == Scan(Step(s, text[i]), text[i + 1..])
    ensures done + Escaped(s, text[i..]) == done + Emit(s, text[i]) + Escaped(Step(s, text[i]), text[i + 1..])
  {
    hide Emit;
    hide Step;
    assert text[i..][0] == text[i] && text[i..][1..] == text[i + 1..];
    var first, rest := Emit(s, text[i]), Escaped(Step(s, text[i]), text[i + 1..]);
    assert done + (first + rest) == done + first + rest;
  }

  lemma NothingLeft(s: Scanner, text: string)
    requires text == ""
    ensures Scan(s, text) == s && Escaped(s, text) == ""
  {
  }

  function ModeOf(inString: bool, escaping: bool): Mode {
    if escaping then Escaping else if inString then InString else Outside
  }

  /** The character loop: the text with the breaks in its strings written out, and where it ends. */
  method EscapeBreaks(text: string) returns (repaired: string, inString: bool, stack: string, ghost escaping: bool)
    ensures escaping ==> inString
    ensures Scan(START, text) == Scanner(ModeOf(inString, escaping), stack)
    ensures repaired == Escaped(START, text)
  {
    hide Scan;
    hide Escaped;
    repaired, stack, inString := "", "", false;
    var escapes := false;
    assert text[0..] == text;
    for i := 0 to |text|
      invariant escapes ==> inString
      invariant Scan(START, text) == Scan(Scanner(ModeOf(inString, escapes), stack), text[i..])
      invariant repaired + Escaped(Scanner(ModeOf(inString, escapes), stack), text[i..]) == Escaped(START, text)
    {
      var c := text[i];
      ghost var s, done := Scanner(ModeOf(inString, escapes), stack), repaired;
      OneStep(s, text, i, repaired);
      if inString {
        if escapes {
          repaired := repaired + [c];
          escapes := false;
        } else if c == '\\' {
          repaired := repaired + [c];
          escapes := true;
        } else if c == '"' {
          repaired := repaired + [c];
          inString := false;
        } else if c == '\n' {
          repaired := repaired + "\\n";
        } else if c == '\r' {
          repaired := repaired + "\\r";
        } else if c == '\t' {
          repaired := repaired + "\\t";
        } else {
          repaired := repaired + [c];
        }
        assert Step(s, c) == Scanner(ModeOf(inString, escapes), stack) && repaired == done + Emit(s, c);
      } else {
        if c == '"' {
          inString := true;
        } else if c == '{' {
          stack := stack + ['}'];
        } else if c == '[' {
          stack := stack + [']'];
        } else if c == '}' || c == ']' {
          if stack != "" && stack[|stack| - 1] == c {
            stack := stack[..|stack| - 1];
          }
        }
        repaired := repaired + [c];
        assert Step(s, c) == Scanner(ModeOf(inString, escapes), stack) && repaired == done + Emit(s, c);
      }
    }
    NothingLeft(Scanner(ModeOf(inString, escapes), stack), text[|text|..]);
    escaping := escapes;
  }

  lemma ClosingIs(front: string, inString: bool, escaping: bool, stack: string)
    requires escaping ==> inString
    ensures var quoted := if inString then front + "\"" else front;
            front + Closing(Scanner(ModeOf(inString, escaping), stack)) == if stack != "" then quoted + Reversed(stack) else quoted
  {
    if stack == "" {
      assert Reversed(stack) == "";
    }
    var quote := if inString then "\"" else "";
    assert front + (quote + Reversed(stack)) == front + quote + Reversed(stack);
  }

  method RepairJsonObject(text: string) returns (repaired: string)
    ensures repaired == Repaired(text)
  {
    hide Scan;
    hide Escaped;
    hide Reversed;
    hide Closing;
    hide Strip;
    var stripped := Strip(text);
    if stripped == "" || stripped[0] != '{' {
      return text;
    }
    var inString, stack;
    ghost var escaping;
    repaired, inString, stack, escaping := EscapeBreaks(text);
    ClosingIs(repaired, inString, escaping, stack);
    if inString {
      repaired := repaired + "\"";
    }
    if stack != "" {
      repaired := repaired + Reversed(stack);
    }
  }

  // ---------------------------------------------------------------------------
  // What a reader makes of it
  // ---------------------------------------------------------------------------

  datatype Unit = Char(c: char) | Escape(c: char)

  datatype Mark = Plain(c: char) | Opened | Inside(unit: Unit) | Closed

  /** Section 7 of RFC 8259, for the three escapes that matter here; the others stay as they are. */
  function Meaning(c: char): Unit {
    match c
    case 'n' => Char('\n')
    case 'r' => Char('\r')
    case 't' => Char('\t')
    case _ => Escape(c)
  }

  function MarkOf(mode: Mode, c: char): seq<Mark> {
    match mode
    case Outside => if c == '"' then [Opened] else [Plain(c)]
    case InString => if c == '\\' then [] else if c == '"' then [Closed] else [Inside(Char(c))]
    case Escaping => [Inside(Meaning(c))]
  }

  /** A reader that lets a raw line break in a string stand for itself. */
  function Read(mode: Mode, text: string): seq<Mark>
    decreases |text|
  {
    if text == "" then [] else MarkOf(mode, text[0]) + Read(Move(mode, text[0]), text[1..])
  }

  function Plains(text: string): seq<Mark> {
    if text == "" then [] else [Plain(text[0])] + Plains(text[1..])
  }

  /** No raw line break or tab in a string, except right behind a backslash. */
  predicate Clean(mode: Mode, text: string)
    decreases |text|
  {
    text == "" || (!(mode == InString && Control(text[0])) && Clean(Move(mode, text[0]), text[1..]))
  }

  predicate IsClosed(s: Scanner) {
    s == START
  }

  /** The text breaks off behind a backslash that escapes the next character. */
  predicate EndsMidEscape(text: string) {
    Scan(START, text).mode == Escaping
  }

  // ---------------------------------------------------------------------------
  // Lemmas about the pass
  // ---------------------------------------------------------------------------

  lemma {:induction false} ScanAppend(s: Scanner, first: string, second: string)
    ensures Scan(s, first + second) == Scan(Scan(s, first), second)
    decreases |first|
  {
    if first == "" {
      assert first + second == second;
    } else {
      assert (first + second)[1..] == first[1..] + second;
      ScanAppend(Step(s, first[0]), first[1..], second);
    }
  }

  lemma {:induction false} ReadAppend(s: Scanner, first: string, second: string)
    ensures Read(s.mode, first + second) == Read(s.mode, first) + Read(Scan(s, first).mode, second)
    ensures Clean(s.mode, first + second) <==> Clean(s.mode, first) && Clean(Scan(s, first).mode, second)
    decreases |first|
  {
    hide Step;
    hide MarkOf;
    hide Move;
    if first == "" {
      assert first + second == second;
    } else {
      assert (first + second)[0] == first[0] && (first + second)[1..] == first[1..] + second;
      ReadAppend(Step(s, first[0]), first[1..], second);
      StepMoves(s, first[0]);
      MarksRegroup(MarkOf(s.mode, first[0]), Read(Step(s, first[0]).mode, first[1..]), Read(Scan(s, first).mode, second));
    }
  }

  lemma MarksRegroup(a: seq<Mark>, b: seq<Mark>, c: seq<Mark>)
    ensures a + b + c == a + (b + c)
  {
  }

  /** An escaped character leaves the scanner where the raw one would, and means the same. */
  lemma EmitIsFaithful(s: Scanner, c: char)
    ensures Scan(s, Emit(s, c)) == Step(s, c)
    ensures Read(s.mode, Emit(s, c)) == MarkOf(s.mode, c)
    ensures Clean(s.mode, Emit(s, c))
  {
    var out := Emit(s, c);
    if |out| == 1 {
      assert out[1..] == "";
      assert Read(s.mode, out) == MarkOf(s.mode, c) + [];
    } else {
      var middle := Scanner(Escaping, s.owed);
      assert out[0] == '\\' && out[1..] == [out[1]] && out[1..][1..] == "";
      assert Scan(middle, out[1..]) == Step(middle, out[1]);
      assert Read(Escaping, out[1..]) == [Inside(Meaning(out[1]))] + [];
      assert Read(InString, out) == [] + Read(Escaping, out[1..]);
    }
  }

  /** The whole pass: same place, same reading, and clean strings. */
  lemma {:induction false} EscapedIsFaithful(s: Scanner, text: string)
    ensures Scan(s, Escaped(s, text)) == Scan(s, text)
    ensures Read(s.mode, Escaped(s, text)) == Read(s.mode, text)
    ensures Clean(s.mode, Escaped(s, text))
    decreases |text|
  {
    if text != "" {
      hide Emit;
      hide Step;
      var first, rest := Emit(s, text[0]), Escaped(Step(s, text[0]), text[1..]);
      EmitIsFaithful(s, text[0]);
      EscapedIsFaithful(Step(s, text[0]), text[1..]);
      ScanAppend(s, first, rest);
      ReadAppend(s, first, rest);
      StepMoves(s, text[0]);
    }
  }

  lemma StepMoves(s: Scanner, c: char)
    ensures Step(s, c).mode == Move(s.mode, c)
  {
  }

  predicate Brackets(owed: string) {
    forall i :: 0 <= i < |owed| ==> owed[i] == '}' || owed[i] == ']'
  }

  lemma {:induction false} OwedAreBrackets(s: Scanner, text: string)
    requires Brackets(s.owed)
    ensures Brackets(Scan(s, text).owed)
    decreases |text|
  {
    if text != "" {
      OwedAreBrackets(Step(s, text[0]), text[1..]);
    }
  }

  /** Outside strings the owed brackets, innermost first, close everything. */
  lemma {:induction false} OwedClose(owed: string)
    requires Brackets(owed)
    ensures Scan(Scanner(Outside, owed), Reversed(owed)) == START
    ensures Read(Outside, Reversed(owed)) == Plains(Reversed(owed)) && Clean(Outside, Reversed(owed))
  {
    if owed != "" {
      var rest, last := owed[..|owed| - 1], owed[|owed| - 1];
      OwedClose(rest);
      assert Reversed(owed)[0] == last && Reversed(owed)[1..] == Reversed(rest);
      assert Step(Scanner(Outside, owed), last) == Scanner(Outside, rest);
    }
  }

  /** Inside a string they change nothing. */
  lemma {:induction false} OwedStayInString(s: Scanner, owed: string)
    requires Brackets(owed) && s.mode == InString
    ensures Scan(s, Reversed(owed)) == s && Clean(InString, Reversed(owed))
  {
    if owed != "" {
      var rest, last := owed[..|owed| - 1], owed[|owed| - 1];
      OwedStayInString(s, rest);
      assert Reversed(owed)[0] == last && Reversed(owed)[1..] == Reversed(rest);
      assert Step(s, last) == s;
    }
  }

  lemma ClosingCloses(s: Scanner)
    requires Brackets(s.owed)
    ensures Clean(s.mode, Closing(s))
    ensures s.mode != Escaping ==>
              && Scan(s, Closing(s)) == START
              && Read(s.mode, Closing(s)) == (if s.mode == InString then [Closed] else []) + Plains(Reversed(s.owed))
    ensures s.mode == Escaping ==> Scan(s, Closing(s)) == Scanner(InString, s.owed)
  {
    OwedClose(s.owed);
    OwedStayInString(Scanner(InString, s.owed), s.owed);
    if s.mode == Outside {
      assert Closing(s) == Reversed(s.owed);
    } else {
      assert Closing(s)[0] == '"' && Closing(s)[1..] == Reversed(s.owed);
      assert Step(s, '"') == Scanner(Move(s.mode, '"'), s.owed);
    }
  }

  // ---------------------------------------------------------------------------
  // The results
  // ---------------------------------------------------------------------------

  /** The completed text is closed exactly when the text did not break off behind an escaping backslash. */
  lemma CompletedIsClosedIff(text: string)
    ensures IsClosed(Scan(START, Completed(text))) <==> !EndsMidEscape(text)
  {
    EscapedIsFaithful(START, text);
    OwedAreBrackets(START, text);
    ClosingCloses(Scan(START, text));
    ScanAppend(START, Escaped(START, text), Closing(Scan(START, text)));
  }

  /** No string of the completed text holds a raw line break or tab, except behind a backslash. */
  lemma CompletedIsClean(text: string)
    ensures Clean(Outside, Completed(text))
  {
    EscapedIsFaithful(START, text);
    OwedAreBrackets(START, text);
    ClosingCloses(Scan(START, text));
    ReadAppend(START, Escaped(START, text), Closing(Scan(START, text)));
  }

  /** A reader finds all that was there, unchanged and in order, and behind it only the missing closers. */
  lemma CompletionKeepsMeaning(text: string)
    requires !EndsMidEscape(text)
    ensures var end := Scan(START, text);
            Read(Outside, Completed(text))
            == Read(Outside, text) + ((if end.mode == InString then [Closed] else []) + Plains(Reversed(end.owed)))
  {
    EscapedIsFaithful(START, text);
    OwedAreBrackets(START, text);
    ClosingCloses(Scan(START, text));
    ReadAppend(START, Escaped(START, text), Closing(Scan(START, text)));
  }

  lemma {:induction false} EscapedSameIffClean(s: Scanner, text: string)
    ensures |Escaped(s, text)| >= |text|
    ensures Escaped(s, text) == text <==> Clean(s.mode, text)
    decreases |text|
  {
    if text != "" {
      var first, rest := Emit(s, text[0]), Escaped(Step(s, text[0]), text[1..]);
      EscapedSameIffClean(Step(s, text[0]), text[1..]);
      if |first| == 1 {
        assert (first + rest)[1..] == rest;
        assert text == [text[0]] + text[1..];
      } else {
        assert |first + rest| > |text|;
      }
    }
  }

  lemma {:induction false} ReversedLength(s: string)
    ensures |Reversed(s)| == |s|
  {
    if s != "" {
      ReversedLength(s[..|s| - 1]);
    }
  }

  /** Nothing is changed exactly when nothing was open and every string was clean: this decides whether a second parse is tried. */
  lemma UnchangedIff(text: string)
    ensures Completed(text) == text <==> IsClosed(Scan(START, text)) && Clean(Outside, text)
  {
    var end := Scan(START, text);
    EscapedSameIffClean(START, text);
    ReversedLength(end.owed);
    if Closing(end) == "" {
      assert Escaped(START, text) + "" == Escaped(START, text);
    } else {
      assert |Completed(text)| > |text|;
    }
  }

  predicate FirstVisible(text: string, c: char) {
    text != "" && if IsSpace(text[0]) then FirstVisible(text[1..], c) else text[0] == c
  }

  lemma {:induction false} StartsObjectIff(text: string)
    ensures StartsObject(text) <==> FirstVisible(text, '{')
    decreases |text|
  {
    if text != "" {
      if IsSpace(text[0]) {
        StartsObjectIff(text[1..]);
      } else if IsSpace(text[|text| - 1]) {
        assert text[..|text| - 1] != "";
        StartsObjectIff(text[..|text| - 1]);
      }
    }
  }

  lemma {:induction false} EscapedStartsAlike(text: string, more: string)
    requires FirstVisible(text, '{')
    ensures FirstVisible(Escaped(START, text) + more, '{')
  {
    var first, rest := Emit(START, text[0]), Escaped(Step(START, text[0]), text[1..]);
    var all := Escaped(START, text) + more;
    assert all[0] == text[0] && all[1..] == rest + more;
    if IsSpace(text[0]) {
      assert Step(START, text[0]) == START;
      EscapedStartsAlike(text[1..], more);
    }
  }

  /** A second pass finds nothing to do exactly when the first one could close the text. */
  lemma RepairIsFixedPointIff(text: string)
    requires StartsObject(text)
    ensures Repaired(Repaired(text)) == Repaired(text) <==> !EndsMidEscape(text)
  {
    StartsObjectIff(text);
    EscapedStartsAlike(text, Closing(Scan(START, text)));
    StartsObjectIff(Completed(text));
    CompletedIsClosedIff(text);
    CompletedIsClean(text);
    UnchangedIff(Completed(text));
  }
}
