/**
 Writing a value with line breaks into the settings file: what it does to the other settings
 (butler/launcher/config.py, `set_setting`).
 */
module SettingsBreaks {
  import opened PyText
  import opened SettingsFile

  // ---------------------------------------------------------------------------
  // A file is read line by line
  // ---------------------------------------------------------------------------

  function Said(line: string, key: string, active: bool): Option<string> {
    if active then ActiveValue(key, line) else CommentedValue(key, line)
  }

  function First(lines: seq<string>, key: string, active: bool): Option<string> {
    if lines == [] then None
    else if Said(lines[0], key, active).Some? then Said(lines[0], key, active)
    else First(lines[1..], key, active)
  }

  function Find(lines: seq<string>, key: string, from: nat, active: bool): nat
    requires from <= |lines|
  {
    if active then FindActive(lines, key, from) else FindCommented(lines, key, from)
  }

  lemma {:induction false} FirstIsFound(lines: seq<string>, key: string, from: nat, active: bool)
    requires from <= |lines|
    ensures var n := Find(lines, key, from, active);
            First(lines[from..], key, active) == if n < |lines| then Said(lines[n], key, active) else None
    decreases |lines| - from
  {
    hide ActiveValue;
    hide CommentedValue;
    if from < |lines| {
      assert lines[from..][0] == lines[from] && lines[from..][1..] == lines[from + 1..];
      FirstIsFound(lines, key, from + 1, active);
    }
  }

  lemma LookupIsFirst(lines: seq<string>, key: string)
    ensures Lookup(lines, key)
            == match First(lines, key, true)
               case Some(raw) => Some(StripInline(raw))
               case None =>
                 match First(lines, key, false)
                 case Some(raw) => Some(StripInline(raw))
                 case None => None
  {
    hide StripInline;
    assert lines[0..] == lines;
    FirstIsFound(lines, key, 0, true);
    FirstIsFound(lines, key, 0, false);
  }

  lemma {:induction false} FirstAppend(a: seq<string>, b: seq<string>, key: string, active: bool)
    ensures First(a + b, key, active) == if First(a, key, active).Some? then First(a, key, active) else First(b, key, active)
  {
    hide Said;
    if a == [] {
      assert a + b == b;
    } else {
      assert (a + b)[0] == a[0] && (a + b)[1..] == a[1..] + b;
      FirstAppend(a[1..], b, key, active);
    }
  }

  /** No line says anything about the key. */
  predicate Silent(lines: seq<string>, key: string) {
    forall i :: 0 <= i < |lines| ==> ActiveValue(key, lines[i]).None? && CommentedValue(key, lines[i]).None?
  }

  lemma {:induction false} SilentIff(lines: seq<string>, key: string)
    ensures Silent(lines, key) <==> First(lines, key, true).None? && First(lines, key, false).None?
  {
    hide ActiveValue;
    hide CommentedValue;
    if lines != [] {
      SilentIff(lines[1..], key);
      SilentStep(lines, key);
    }
  }

  lemma SilentStep(lines: seq<string>, key: string)
    requires lines != []
    ensures Silent(lines, key) <==>
              ActiveValue(key, lines[0]).None? && CommentedValue(key, lines[0]).None? && Silent(lines[1..], key)
  {
    hide ActiveValue;
    hide CommentedValue;
    assert lines == [lines[0]] + lines[1..];
  }

  /** Lines that say nothing about a key might as well be absent. */
  lemma SilentInside(front: seq<string>, silent: seq<string>, back: seq<string>, key: string)
    requires Silent(silent, key)
    ensures Lookup(front + silent + back, key) == Lookup(front + back, key)
  {
    hide Silent;
    hide First;
    hide Lookup;
    SilentIff(silent, key);
    LookupIsFirst(front + silent + back, key);
    LookupIsFirst(front + back, key);
    OnlyAround(front, silent, back, key, true);
    OnlyAround(front, silent, back, key, false);
  }

  lemma OnlyAround(front: seq<string>, silent: seq<string>, back: seq<string>, key: string, active: bool)
    requires First(silent, key, active).None?
    ensures First(front + silent + back, key, active) == First(front + back, key, active)
  {
    hide First;
    FirstAppend(front + silent, back, key, active);
    FirstAppend(front, silent, key, active);
    FirstAppend(front, back, key, active);
  }

  // ---------------------------------------------------------------------------
  // What a value becomes in the file
  // ---------------------------------------------------------------------------

  /** The lines that a value takes in the file; the first one follows `KEY=`. */
  function Broken(value: string): (lines: seq<string>)
    ensures lines != []
  {
    SplitLines(value + "\n")
  }

  function Behind(value: string): seq<string> {
    Broken(value)[1..]
  }

  lemma {:induction false} LineLengthBehind(start: string, text: string)
    requires OneLine(start)
    ensures LineLength(start + text) == |start| + LineLength(text)
  {
    if start == "" {
      assert start + text == text;
    } else {
      assert (start + text)[1..] == start[1..] + text;
      LineLengthBehind(start[1..], text);
    }
  }

  lemma SplitStep(text: string)
    requires text != ""
    ensures LineLength(text) == |text| ==> SplitLines(text) == [text]
    ensures var n := LineLength(text);
            n < |text| ==> SplitLines(text) == [text[..n]] + SplitLines(text[n + BreakLength(text[n..])..])
  {
    hide LineLength;
    hide OneLine;
  }

  lemma Shifted(start: string, text: string, k: nat)
    requires k <= |text|
    ensures (start + text)[..|start| + k] == start + text[..k] && (start + text)[|start| + k..] == text[k..]
  {
  }

  /** What stands in front of a value in its line does not change how the value is broken. */
  lemma SplitBehindStart(start: string, text: string)
    requires OneLine(start) && text != ""
    ensures SplitLines(text) != []
    ensures SplitLines(start + text) == [start + SplitLines(text)[0]] + SplitLines(text)[1..]
  {
    hide SplitLines;
    hide LineLength;
    hide OneLine;
    hide BreakLength;
    var n := LineLength(text);
    LineLengthBehind(start, text);
    SplitStep(text);
    SplitStep(start + text);
    Shifted(start, text, n);
    if n < |text| {
      Shifted(start, text, n + BreakLength(text[n..]));
      HeadAndTail(text[..n], SplitLines(text[n + BreakLength(text[n..])..]));
    } else {
      HeadAndTail(text, []);
      assert [start + text] + [] == [start + text];
    }
  }

  lemma HeadAndTail(line: string, lines: seq<string>)
    ensures ([line] + lines)[0] == line && ([line] + lines)[1..] == lines
    ensures lines == [] ==> [line] + lines == [line]
  {
  }

  /** A line feed ends a line whatever is in front of it. */
  lemma {:induction false} SplitBehindNewline(value: string, rest: string)
    ensures SplitLines(value + "\n" + rest) == SplitLines(value + "\n") + SplitLines(rest)
    decreases |value|
  {
    hide SplitLines;
    hide LineLength;
    hide OneLine;
    if LineLength(value) < |value| {
      SplitInside(value, rest);
    } else {
      assert value[..|value|] == value;
      assert value + "\n" + "" == value + "\n";
      SplitFirst(value, "");
      SplitFirst(value, rest);
      SplitNothing();
      HeadAndTail(value, []);
    }
  }

  lemma SplitNothing()
    ensures SplitLines("") == []
  {
  }

  lemma LineLengthIn(value: string, more: string)
    requires more != "" && IsBreak(more[0])
    ensures LineLength(value + more) == LineLength(value)
  {
    var n := LineLength(value);
    assert value == value[..n] + value[n..];
    assert value + more == value[..n] + (value[n..] + more);
    FirstBreak(value[..n], value[n..] + more);
  }

  /** The first break is inside the value; a final carriage return and the line feed behind the value are one break. */
  lemma {:induction false} SplitInside(value: string, rest: string)
    requires LineLength(value) < |value|
    ensures SplitLines(value + "\n" + rest) == SplitLines(value + "\n") + SplitLines(rest)
    decreases |value|, 0
  {
    hide SplitLines;
    hide LineLength;
    hide OneLine;
    hide BreakLength;
    var n := LineLength(value);
    var part := value + "\n";
    var b := BreakInside(value, rest, n);
    SplitStep(part);
    SplitStep(part + rest);
    if n + b <= |value| {
      var later := value[n + b..];
      assert part[n + b..] == later + "\n" && later + "\n" + rest == part[n + b..] + rest;
      SplitBehindNewline(later, rest);
      LinesRegroup([value[..n]], SplitLines(later + "\n"), SplitLines(rest));
    } else {
      assert part[n + b..] == "" && part[n + b..] + rest == rest;
      SplitNothing();
      HeadAndTail(value[..n], []);
    }
  }

  lemma BreakInside(value: string, rest: string, n: nat) returns (b: nat)
    requires n == LineLength(value) < |value|
    ensures var part := value + "\n";
            && LineLength(part) == n && LineLength(part + rest) == n
            && b == BreakLength(part[n..]) == BreakLength((part + rest)[n..]) && n + b <= |part|
            && part[..n] == value[..n] && (part + rest)[..n] == value[..n]
            && (part + rest)[n + b..] == part[n + b..] + rest
  {
    hide LineLength;
    hide OneLine;
    var part := value + "\n";
    LineLengthIn(value, "\n");
    LineLengthIn(value, "\n" + rest);
    assert part + rest == value + ("\n" + rest);
    b := BreakLength(part[n..]);
    assert (part + rest)[n..] == part[n..] + rest;
  }

  lemma LinesRegroup(a: seq<string>, b: seq<string>, c: seq<string>)
    ensures a + b + c == a + (b + c)
  {
  }

  /** The file after a change, whatever the value is: only the written line is broken. */
  lemma FileAfterChange(lines: seq<string>, key: string, value: string)
    requires AllOneLine(lines) && IsKey(key)
    ensures var after, p := Changed(lines, key, value), Place(lines, key);
            && p < |after|
            && SplitLines(JoinLines(after))
               == after[..p] + ([PlaceIndent(lines, key) + key + "=" + Broken(value)[0]] + Behind(value)) + after[p + 1..]
  {
    hide Changed;
    hide Place;
    hide PlaceIndent;
    hide SplitLines;
    hide JoinLines;
    hide Broken;
    hide Behind;
    hide OneLine;
    hide AllOneLine;
    hide IsKey;
    OneLineChanges(lines, key, value);
    AroundIsOneLine(lines, key, value);
    var after, p := Changed(lines, key, value), Place(lines, key);
    var start := PlaceIndent(lines, key) + key + "=";
    JoinAround(after, p, start, value);
    FileIsSplit(after[..p], start, value, after[p + 1..]);
  }

  lemma FileIsSplit(front: seq<string>, start: string, value: string, back: seq<string>)
    requires AllOneLine(front) && OneLine(start) && AllOneLine(back)
    ensures SplitLines(JoinLines(front) + (start + (value + "\n" + JoinLines(back))))
            == front + ([start + Broken(value)[0]] + Behind(value)) + back
  {
    hide SplitLines;
    hide JoinLines;
    hide OneLine;
    hide AllOneLine;
    SplitPrefix(front, start + (value + "\n" + JoinLines(back)));
    assert start + (value + "\n" + JoinLines(back)) == start + value + "\n" + JoinLines(back);
    SplitBehindNewline(start + value, JoinLines(back));
    assert start + value + "\n" == start + (value + "\n");
    SplitBehindStart(start, value + "\n");
    LinesRoundTrip(back);
    LinesRegroup(front, [start + Broken(value)[0]] + Behind(value), back);
  }

  lemma AroundIsOneLine(lines: seq<string>, key: string, value: string)
    requires AllOneLine(lines) && IsKey(key)
    ensures var after, p := Changed(lines, key, value), Place(lines, key);
            && p < |after| && AllOneLine(after[..p]) && AllOneLine(after[p + 1..])
            && OneLine(PlaceIndent(lines, key) + key + "=")
  {
    OneLineChanges(lines, key, value);
    KeptPartIsOneLine(lines, key, "");
    assert PlaceIndent(lines, key) + key + "=" + ""[..LineLength("")] == PlaceIndent(lines, key) + key + "=";
  }

  // ---------------------------------------------------------------------------
  // The other settings
  // ---------------------------------------------------------------------------

  lemma OtherKeySurvives(lines: seq<string>, key: string, value: string, other: string)
    requires AllOneLine(lines) && IsKey(key) && IsKey(other) && key != other && Silent(Behind(value), other)
    ensures Lookup(SplitLines(JoinLines(Changed(lines, key, value))), other) == Lookup(lines, other)
  {
    hide Changed;
    hide Place;
    hide PlaceIndent;
    hide Lookup;
    hide Broken;
    hide Behind;
    hide Silent;
    hide SplitLines;
    hide JoinLines;
    hide AllOneLine;
    var after, p, indent := Changed(lines, key, value), Place(lines, key), PlaceIndent(lines, key);
    FileAfterChange(lines, key, value);
    OtherKeysUntouched(lines, key, value, other);
    OneLineChanges(lines, key, value);
    assert Silent([], other) by {
      NothingIsSilent(other);
    }
    WrittenIsSilent(indent, key, value, [], other);
    WrittenIsSilent(indent, key, Broken(value)[0], Behind(value), other);
    SplitAround(after, p);
    SilentInside(after[..p], [after[p]], after[p + 1..], other);
    SilentInside(after[..p], [indent + key + "=" + Broken(value)[0]] + Behind(value), after[p + 1..], other);
  }

  lemma NothingIsSilent(key: string)
    ensures Silent([], key)
  {
  }

  lemma SplitAround(lines: seq<string>, p: nat)
    requires p < |lines|
    ensures lines == lines[..p] + [lines[p]] + lines[p + 1..]
  {
  }

  lemma WrittenIsSilent(indent: string, key: string, value: string, behind: seq<string>, other: string)
    requires Blank(indent) && IsKey(key) && IsKey(other) && key != other && Silent(behind, other)
    ensures Silent([indent + key + "=" + value] + behind, other) && (behind == [] ==> Silent([indent + key + "=" + value], other))
  {
    hide ActiveValue;
    hide CommentedValue;
    WrittenLine(indent, key, value);
    HeadAndTail(indent + key + "=" + value, behind);
    SilentStep([indent + key + "=" + value] + behind, other);
  }

  /** Into an empty file, every line of the value behind its first break is a line of the file. */
  lemma SpokenOfBehind(key: string, value: string, other: string)
    requires IsKey(key) && IsKey(other) && key != other && !Silent(Behind(value), other)
    ensures Lookup(SplitLines(JoinLines(Changed([], key, value))), other) != Lookup([], other)
  {
    hide Lookup;
    hide Silent;
    hide SplitLines;
    hide JoinLines;
    hide Behind;
    hide Broken;
    hide IsKey;
    var line := "" + key + "=" + Broken(value)[0];
    FileOfOne(key, value);
    NothingIsSilent(other);
    WrittenIsSilent("", key, Broken(value)[0], [], other);
    SilentInside([], [line], Behind(value), other);
    NothingInFront([line], Behind(value));
    SpokenIsFound(Behind(value), other);
  }

  lemma NothingInFront(a: seq<string>, b: seq<string>)
    ensures [] + a + b == a + b && [] + b == b
  {
  }

  lemma FileOfOne(key: string, value: string)
    requires IsKey(key)
    ensures SplitLines(JoinLines(Changed([], key, value))) == ["" + key + "=" + Broken(value)[0]] + Behind(value)
  {
    hide SplitLines;
    hide JoinLines;
    hide Broken;
    hide Behind;
    FileAfterChange([], key, value);
    var after := Changed([], key, value);
    assert |after| == 1 && Place([], key) == 0 && PlaceIndent([], key) == "";
    var written := ["" + key + "=" + Broken(value)[0]] + Behind(value);
    assert after[..0] == [] && after[1..] == [];
    assert [] + written + [] == written;
  }

  lemma SpokenIsFound(lines: seq<string>, key: string)
    requires !Silent(lines, key)
    ensures Lookup(lines, key) != Lookup([], key)
  {
    hide Silent;
    SilentIff(lines, key);
    LookupIsFirst(lines, key);
    LookupIsFirst([], key);
  }

  /**
   Writing one setting leaves another one alone in every file exactly when no line of the value behind its first break
   assigns the other one, be it in a comment.
   */
  lemma OtherKeysSurviveIff(key: string, value: string, other: string)
    requires IsKey(key) && IsKey(other) && key != other
    ensures (forall lines | AllOneLine(lines) ::
               Lookup(SplitLines(JoinLines(Changed(lines, key, value))), other) == Lookup(lines, other))
            <==> Silent(Behind(value), other)
  {
    hide Lookup;
    hide Changed;
    hide SplitLines;
    hide JoinLines;
    if Silent(Behind(value), other) {
      forall lines | AllOneLine(lines)
        ensures Lookup(SplitLines(JoinLines(Changed(lines, key, value))), other) == Lookup(lines, other)
      {
        OtherKeySurvives(lines, key, value, other);
      }
    } else {
      SpokenOfBehind(key, value, other);
      assert AllOneLine([]);
    }
  }

  /** A value with a break sets another setting as well. */
  lemma BrokenValueSetsAnother()
    ensures Lookup(SplitLines(JoinLines(Changed([], "A", "x\nB=1"))), "B") != Lookup([], "B")
  {
    var value := "x\nB=1";
    BrokenInTwo();
    hide Broken;
    AssignsB();
    assert Behind(value)[0] == "B=1";
    SpokenOfBehind("A", value, "B");
  }

  lemma AssignsB()
    ensures ActiveValue("B", "B=1").Some? && IsKey("A") && IsKey("B")
  {
    assert LStrip("B=1") == "B=1" && "B=1"[..1] == "B";
    assert OneLine("A") && OneLine("B");
  }

  lemma BrokenInTwo()
    ensures Broken("x\nB=1") == ["x", "B=1"]
  {
    hide SplitLines;
    assert "x\nB=1" + "\n" == "x" + "\n" + "B=1\n";
    SplitFirst("x", "B=1\n");
    assert "B=1" + "\n" + "" == "B=1\n";
    SplitFirst("B=1", "");
    SplitNothing();
  }
}
