/**
 Reading and writing single settings in a commented file (butler/launcher/config.py,
 `get_setting`, `set_setting`, `_strip_inline`, `_write_settings`).
 */
module SettingsFile {
  import opened PyText

  // ---------------------------------------------------------------------------
  // Lines
  // ---------------------------------------------------------------------------

  /** The characters at which `str.splitlines` splits. */
  predicate IsBreak(c: char) {
    var n := c as int;
    0x0A <= n <= 0x0D || 0x1C <= n <= 0x1E || n == 0x85 || n == 0x2028 || n == 0x2029
  }

  predicate OneLine(s: string) {
    forall i :: 0 <= i < |s| ==> !IsBreak(s[i])
  }

  predicate AllOneLine(lines: seq<string>) {
    forall i :: 0 <= i < |lines| ==> OneLine(lines[i])
  }

  function LineLength(text: string): (n: nat)
    ensures n <= |text| && OneLine(text[..n]) && (n < |text| ==> IsBreak(text[n]))
  {
    if text == "" || IsBreak(text[0]) then 0 else 1 + LineLength(text[1..])
  }

  /** A carriage return and the line feed behind it are one break. */
  function BreakLength(text: string): (n: nat)
    requires text != ""
    ensures 0 < n <= |text|
  {
    if text[0] == '\r' && |text| > 1 && text[1] == '\n' then 2 else 1
  }

  /** `str.splitlines()` */
  function SplitLines(text: string): (lines: seq<string>)
    ensures AllOneLine(lines)
    decreases |text|
  {
    var n := LineLength(text);
    if n == |text| then (if text == "" then [] else [text])
    else [text[..n]] + SplitLines(text[n + BreakLength(text[n..])..])
  }

  /** `"\n".join(lines) + "\n"`, for at least one line. */
  function JoinLines(lines: seq<string>): string {
    if lines == [] then "" else lines[0] + "\n" + JoinLines(lines[1..])
  }

  // ---------------------------------------------------------------------------
  // Assignments
  // ---------------------------------------------------------------------------

  /** The names of settings are plain words; this is all that is needed of them. */
  predicate IsKey(key: string) {
    key != "" && !IsSpace(key[0]) && key[0] != '#' && '=' !in key && OneLine(key)
  }

  function Assigned(key: string, body: string): Option<string> {
    if |key| < |body| && body[..|key|] == key && body[|key|] == '=' then Some(body[|key| + 1..]) else None
  }

  /** A line `KEY=value`, possibly indented. */
  function ActiveValue(key: string, line: string): Option<string> {
    Assigned(key, LStrip(line))
  }

  /** A line `# KEY=value`. */
  function CommentedValue(key: string, line: string): Option<string> {
    var body := LStrip(line);
    if body != "" && body[0] == '#' then Assigned(key, LStrip(body[1..])) else None
  }

  function Indent(line: string): string {
    line[..|line| - |LStrip(line)|]
  }

  /** The place of the first `" #"`. */
  function CommentStart(value: string): (n: nat)
    ensures n <= |value|
  {
    if |value| < 2 then |value|
    else if value[..2] == " #" then 0
    else 1 + CommentStart(value[1..])
  }

  function StripInline(raw: string): string {
    var value := Strip(raw);
    if CommentStart(value) < |value| then Strip(value[..CommentStart(value)]) else value
  }

  function FindActive(lines: seq<string>, key: string, from: nat): (n: nat)
    requires from <= |lines|
    ensures from <= n <= |lines| && (n < |lines| ==> ActiveValue(key, lines[n]).Some?)
    ensures forall i :: from <= i < n ==> ActiveValue(key, lines[i]).None?
    decreases |lines| - from
  {
    if from == |lines| || ActiveValue(key, lines[from]).Some? then from else FindActive(lines, key, from + 1)
  }

  function FindCommented(lines: seq<string>, key: string, from: nat): (n: nat)
    requires from <= |lines|
    ensures from <= n <= |lines| && (n < |lines| ==> CommentedValue(key, lines[n]).Some?)
    ensures forall i :: from <= i < n ==> CommentedValue(key, lines[i]).None?
    decreases |lines| - from
  {
    if from == |lines| || CommentedValue(key, lines[from]).Some? then from else FindCommented(lines, key, from + 1)
  }

  /** What the file says about a key: the first assignment, or else the first commented one. */
  function Lookup(lines: seq<string>, key: string): Option<string> {
    var a, c := FindActive(lines, key, 0), FindCommented(lines, key, 0);
    if a < |lines| then Some(StripInline(ActiveValue(key, lines[a]).value))
    else if c < |lines| then Some(StripInline(CommentedValue(key, lines[c]).value))
    else None
  }

  /** With the fallbacks behind the file: the launcher's own defaults, then the caller's. */
  function Effective(lines: seq<string>, key: string, builtIn: map<string, string>, default: Option<string>): string {
    match Lookup(lines, key)
    case Some(value) => value
    case None => if key in builtIn then builtIn[key] else if default.Some? then default.value else ""
  }

  function Changed(lines: seq<string>, key: string, value: string): seq<string> {
    var a, c := FindActive(lines, key, 0), FindCommented(lines, key, 0);
    if a < |lines| then lines[a := Indent(lines[a]) + key + "=" + value]
    else if c < |lines| then lines[c := Indent(lines[c]) + key + "=" + value]
    else lines + (if lines != [] && Strip(lines[|lines| - 1]) != "" then [""] else []) + [key + "=" + value]
  }

  // ---------------------------------------------------------------------------
  // The file
  // ---------------------------------------------------------------------------

  class Settings {
    var text: Option<string>  // `None` when there is no file
    const builtIn: map<string, string>

    constructor (text: Option<string>, builtIn: map<string, string>)
      ensures this.text == text && this.builtIn == builtIn
    {
      this.text, this.builtIn := text, builtIn;
    }

    function Lines(): seq<string>
      reads this
    {
      if text == None then [] else SplitLines(text.value)
    }

    method GetSetting(key: string, default: Option<string>) returns (value: string)
      ensures value == Effective(Lines(), key, builtIn, default)
    {
      var lines := Lines();
      var commented: Option<string> := None;
      for i := 0 to |lines|
        invariant FindActive(lines, key, 0) == FindActive(lines, key, i)
        invariant commented == None ==> FindCommented(lines, key, 0) == FindCommented(lines, key, i)
        invariant commented.Some? ==>
                    var c := FindCommented(lines, key, 0);
                    c < i && commented == Some(StripInline(CommentedValue(key, lines[c]).value))
      {
        var active := ActiveValue(key, lines[i]);
        if active.Some? {
          return StripInline(active.value);
        }
        if commented == None {
          var candidate := CommentedValue(key, lines[i]);
          if candidate.Some? {
            commented := Some(StripInline(candidate.value));
          }
        }
      }
      if commented.Some? {
        return commented.value;
      }
      if key in builtIn {
        return builtIn[key];
      }
      return if default.Some? then default.value else "";
    }

    method SetSetting(key: string, value: string)
      modifies this
      ensures text == Some(JoinLines(Changed(old(Lines()), key, value)))
    {
      hide ActiveValue;
      hide CommentedValue;
      hide LStrip;
      hide JoinLines;
      hide Strip;
      hide Indent;
      var lines := Lines();
      for i := 0 to |lines|
        invariant FindActive(lines, key, 0) == FindActive(lines, key, i)
      {
        if ActiveValue(key, lines[i]).Some? {
          lines := lines[i := Indent(lines[i]) + key + "=" + value];
          WriteSettings(lines);
          return;
        }
      }
      for i := 0 to |lines|
        invariant FindCommented(lines, key, 0) == FindCommented(lines, key, i)
      {
        if CommentedValue(key, lines[i]).Some? {
          lines := lines[i := Indent(lines[i]) + key + "=" + value];
          WriteSettings(lines);
          return;
        }
      }
      if lines != [] && Strip(lines[|lines| - 1]) != "" {
        lines := lines + [""];
      }
      lines := lines + [key + "=" + value];
      assert lines == Changed(old(Lines()), key, value);
      WriteSettings(lines);
    }

    method WriteSettings(lines: seq<string>)
      modifies this
      ensures text == Some(JoinLines(lines))
    {
      text := Some(JoinLines(lines));
    }
  }

  // ---------------------------------------------------------------------------
  // Lines survive the file
  // ---------------------------------------------------------------------------

  lemma {:induction false} FirstBreak(line: string, more: string)
    requires OneLine(line) && (more == "" || IsBreak(more[0]))
    ensures LineLength(line + more) == |line|
  {
    if line == "" {
      assert line + more == more;
    } else {
      assert (line + more)[1..] == line[1..] + more;
      FirstBreak(line[1..], more);
    }
  }

  lemma SplitFirst(line: string, rest: string)
    requires OneLine(line)
    ensures SplitLines(line + "\n" + rest) == [line] + SplitLines(rest)
  {
    var text := line + "\n" + rest;
    assert text == line + ("\n" + rest);
    FirstBreak(line, "\n" + rest);
    assert text[|line|..] == "\n" + rest && text[..|line|] == line;
    assert text[|line| + 1..] == rest;
  }

  /** What is written is read back as the same lines. */
  lemma {:induction false} LinesRoundTrip(lines: seq<string>)
    requires AllOneLine(lines)
    ensures SplitLines(JoinLines(lines)) == lines
  {
    if lines != [] {
      LinesRoundTrip(lines[1..]);
      SplitFirst(lines[0], JoinLines(lines[1..]));
    }
  }

  // ---------------------------------------------------------------------------
  // One line, one key
  // ---------------------------------------------------------------------------

  function FirstEquals(body: string): nat {
    if body == "" || body[0] == '=' then 0 else 1 + FirstEquals(body[1..])
  }

  lemma {:induction false} KeyEndsAtEquals(key: string, body: string)
    requires '=' !in key && Assigned(key, body).Some?
    ensures |key| == FirstEquals(body)
  {
    if key != "" {
      assert body[1..][..|key| - 1] == key[1..];
      assert body[0] == key[0];
      KeyEndsAtEquals(key[1..], body[1..]);
    }
  }

  lemma AssignedOnce(key: string, other: string, body: string)
    requires '=' !in key && '=' !in other && Assigned(key, body).Some? && Assigned(other, body).Some?
    ensures key == other
  {
    KeyEndsAtEquals(key, body);
    KeyEndsAtEquals(other, body);
  }

  lemma AssignedStart(key: string, body: string)
    ensures key != "" && Assigned(key, body).Some? ==> body[0] == key[0]
  {
  }

  lemma {:induction false} IndentIsBlank(line: string)
    ensures line == Indent(line) + LStrip(line) && Blank(Indent(line))
  {
    if line != "" && IsSpace(line[0]) {
      IndentIsBlank(line[1..]);
      assert Indent(line) == [line[0]] + Indent(line[1..]);
    }
  }

  lemma {:induction false} LStripIndented(indent: string, body: string)
    requires Blank(indent) && body != "" && !IsSpace(body[0])
    ensures LStrip(indent + body) == body
  {
    if indent == "" {
      assert indent + body == body;
    } else {
      assert (indent + body)[1..] == indent[1..] + body;
      LStripIndented(indent[1..], body);
    }
  }

  /** The line that is written: an assignment of its key, and nothing to any other key. */
  lemma WrittenLine(indent: string, key: string, value: string)
    requires Blank(indent) && IsKey(key)
    ensures var line := indent + key + "=" + value;
            && ActiveValue(key, line) == Some(value)
            && Indent(line) == indent
            && forall other :: IsKey(other) && other != key ==> ActiveValue(other, line).None? && CommentedValue(other, line).None?
  {
    var body := key + "=" + value;
    assert indent + key + "=" + value == indent + body;
    LStripIndented(indent, body);
    assert body[..|key|] == key && body[|key| + 1..] == value;
    forall other | IsKey(other) && other != key ensures Assigned(other, body).None? {
      if Assigned(other, body).Some? {
        AssignedOnce(key, other, body);
      }
    }
  }

  /** A line about one key says nothing about another. */
  lemma LineHasOneKey(key: string, other: string, line: string)
    requires IsKey(key) && IsKey(other) && key != other
    requires ActiveValue(key, line).Some? || CommentedValue(key, line).Some?
    ensures ActiveValue(other, line).None? && CommentedValue(other, line).None?
  {
    var body := LStrip(line);
    if ActiveValue(key, line).Some? {
      AssignedStart(key, body);
      if Assigned(other, body).Some? {
        AssignedOnce(key, other, body);
      }
    } else {
      AssignedStart(other, body);
      if Assigned(other, LStrip(body[1..])).Some? {
        AssignedOnce(key, other, LStrip(body[1..]));
      }
    }
  }

  // ---------------------------------------------------------------------------
  // The effect of a change
  // ---------------------------------------------------------------------------

  /** The line that `Changed` writes. */
  function Place(lines: seq<string>, key: string): nat {
    var a, c := FindActive(lines, key, 0), FindCommented(lines, key, 0);
    if a < |lines| then a else if c < |lines| then c
    else |lines| + if lines != [] && Strip(lines[|lines| - 1]) != "" then 1 else 0
  }

  function PlaceIndent(lines: seq<string>, key: string): string {
    if Place(lines, key) < |lines| then Indent(lines[Place(lines, key)]) else ""
  }

  /** One line is written; every other line stays, in its place, and at most one blank line is added in front of it. */
  lemma OneLineChanges(lines: seq<string>, key: string, value: string)
    ensures var after, p := Changed(lines, key, value), Place(lines, key);
            && p < |after| && after[p] == PlaceIndent(lines, key) + key + "=" + value && Blank(PlaceIndent(lines, key))
            && (forall i :: 0 <= i < |lines| && i != p ==> after[i] == lines[i])
            && (if p < |lines| then |after| == |lines|
                else |after| == p + 1 <= |lines| + 2 && forall i :: |lines| <= i < p ==> after[i] == "")
  {
    if Place(lines, key) < |lines| {
      IndentIsBlank(lines[Place(lines, key)]);
    } else {
      assert "" + key + "=" + value == key + "=" + value;
    }
  }

  lemma FindActiveIs(lines: seq<string>, key: string, from: nat, n: nat)
    requires from <= n < |lines| && ActiveValue(key, lines[n]).Some?
    requires forall i :: from <= i < n ==> ActiveValue(key, lines[i]).None?
    ensures FindActive(lines, key, from) == n
  {
  }

  /** No line in front of the written one assigns the key. */
  lemma PlaceIsFirst(lines: seq<string>, key: string, value: string)
    requires IsKey(key)
    ensures var after, p := Changed(lines, key, value), Place(lines, key);
            p < |after| && ActiveValue(key, after[p]) == Some(value) && FindActive(after, key, 0) == p
  {
    var after, p := Changed(lines, key, value), Place(lines, key);
    OneLineChanges(lines, key, value);
    WrittenLine(PlaceIndent(lines, key), key, value);
    forall i | 0 <= i < p ensures ActiveValue(key, after[i]).None? {
      if i >= |lines| {
        assert after[i] == "" && LStrip("") == "";
      }
    }
    FindActiveIs(after, key, 0, p);
  }

  /** The key now has the value that was written, as `_strip_inline` reads it. */
  lemma ChangedKeyReads(lines: seq<string>, key: string, value: string)
    requires IsKey(key)
    ensures Lookup(Changed(lines, key, value), key) == Some(StripInline(value))
  {
    PlaceIsFirst(lines, key, value);
  }

  /** Two files whose lines say the same about a key give it the same value. */
  lemma {:induction false} SameLookup(before: seq<string>, after: seq<string>, key: string, from: nat)
    requires from <= |before| <= |after|
    requires forall i :: from <= i < |before| ==>
               ActiveValue(key, after[i]) == ActiveValue(key, before[i]) && CommentedValue(key, after[i]) == CommentedValue(key, before[i])
    requires forall i :: |before| <= i < |after| ==> ActiveValue(key, after[i]).None? && CommentedValue(key, after[i]).None?
    ensures var a, b := FindActive(after, key, from), FindActive(before, key, from);
            if b < |before| then a == b else a == |after|
    ensures var a, b := FindCommented(after, key, from), FindCommented(before, key, from);
            if b < |before| then a == b else a == |after|
    decreases |before| - from
  {
    hide ActiveValue;
    hide CommentedValue;
    if from < |before| {
      SameLookup(before, after, key, from + 1);
    } else {
      NothingBehind(after, key, from);
    }
  }

  lemma {:induction false} NothingBehind(lines: seq<string>, key: string, from: nat)
    requires from <= |lines|
    requires forall i :: from <= i < |lines| ==> ActiveValue(key, lines[i]).None? && CommentedValue(key, lines[i]).None?
    ensures FindActive(lines, key, from) == |lines| && FindCommented(lines, key, from) == |lines|
    decreases |lines| - from
  {
    hide ActiveValue;
    hide CommentedValue;
    if from < |lines| {
      NothingBehind(lines, key, from + 1);
    }
  }

  /** Every other key reads as before. */
  lemma OtherKeysUntouched(lines: seq<string>, key: string, value: string, other: string)
    requires IsKey(key) && IsKey(other) && key != other
    ensures Lookup(Changed(lines, key, value), other) == Lookup(lines, other)
  {
    var after, p := Changed(lines, key, value), Place(lines, key);
    OneLineChanges(lines, key, value);
    WrittenLine(PlaceIndent(lines, key), key, value);
    if p < |lines| {
      LineHasOneKey(key, other, lines[p]);
    }
    assert LStrip("") == "";
    SameLookup(lines, after, other, 0);
  }

  /** A second write of the same key leaves no trace of the first. */
  lemma LastWriteWins(lines: seq<string>, key: string, first: string, second: string)
    requires IsKey(key)
    ensures Changed(Changed(lines, key, first), key, second) == Changed(lines, key, second)
  {
    var once, p := Changed(lines, key, first), Place(lines, key);
    PlaceIsFirst(lines, key, first);
    OneLineChanges(lines, key, first);
    OneLineChanges(lines, key, second);
    WrittenLine(PlaceIndent(lines, key), key, first);
    OneLineChanges(once, key, second);
    assert Place(once, key) == p;
  }

  // ---------------------------------------------------------------------------
  // Which values survive
  // ---------------------------------------------------------------------------

  /** `" #" in value` */
  predicate HasComment(value: string) {
    exists i :: 0 <= i < |value| - 1 && value[i] == ' ' && value[i + 1] == '#'
  }

  /** Cutting at the first such place finds it whenever there is one. */
  lemma {:induction false} CommentIsFound(value: string)
    ensures CommentStart(value) < |value| <==> HasComment(value)
  {
    if |value| >= 2 {
      CommentIsFound(value[1..]);
      if value[..2] == " #" {
        assert value[0] == ' ' && value[1] == '#';
      } else if HasComment(value[1..]) {
        var i :| 0 <= i < |value[1..]| - 1 && value[1..][i] == ' ' && value[1..][i + 1] == '#';
        assert value[i + 1] == ' ' && value[i + 1 + 1] == '#';
      } else {
        forall i | 0 <= i < |value| - 1 ensures !(value[i] == ' ' && value[i + 1] == '#') {
          if i > 0 {
            assert value[i] == value[1..][i - 1] && value[i + 1] == value[1..][i - 1 + 1];
          } else {
            assert value[..2] == [value[0], value[1]];
          }
        }
      }
    }
  }

  lemma StripInlineShortens(raw: string)
    ensures |StripInline(raw)| <= |raw|
    ensures StripInline(raw) == raw <==> Stripped(raw) && !HasComment(raw)
  {
    CommentIsFound(raw);
    StripFixes(raw);
    var value := Strip(raw);
    StripFixes(value[..CommentStart(value)]);
  }

  lemma ChangedLinesAreOneLine(lines: seq<string>, key: string, value: string)
    requires AllOneLine(lines) && IsKey(key) && OneLine(value)
    ensures AllOneLine(Changed(lines, key, value))
  {
    hide OneLine;
    hide Changed;
    hide Place;
    hide PlaceIndent;
    OneLineChanges(lines, key, value);
    WrittenIsOneLine(lines, key, value);
    var after, p := Changed(lines, key, value), Place(lines, key);
    forall i | 0 <= i < |after| ensures OneLine(after[i]) {
      assert i < |lines| && i != p ==> after[i] == lines[i];
    }
  }

  lemma WrittenIsOneLine(lines: seq<string>, key: string, value: string)
    requires AllOneLine(lines) && IsKey(key) && OneLine(value)
    ensures OneLine(PlaceIndent(lines, key) + key + "=" + value) && OneLine("")
  {
    assert Place(lines, key) < |lines| ==> OneLine(lines[Place(lines, key)]);
  }

  /** A value that is one line survives the file together with everything else. */
  lemma ChangeSurvivesFile(lines: seq<string>, key: string, value: string)
    requires AllOneLine(lines) && IsKey(key) && OneLine(value)
    ensures SplitLines(JoinLines(Changed(lines, key, value))) == Changed(lines, key, value)
  {
    ChangedLinesAreOneLine(lines, key, value);
    LinesRoundTrip(Changed(lines, key, value));
  }

  lemma {:induction false} JoinAppend(front: seq<string>, back: seq<string>)
    ensures JoinLines(front + back) == JoinLines(front) + JoinLines(back)
  {
    if front == [] {
      assert front + back == back;
    } else {
      JoinAppend(front[1..], back);
      assert (front + back)[1..] == front[1..] + back;
    }
  }

  lemma JoinFirst(front: seq<string>, rest: string)
    requires front != []
    ensures JoinLines(front) + rest == front[0] + "\n" + (JoinLines(front[1..]) + rest)
  {
  }

  lemma {:induction false} SplitPrefix(front: seq<string>, rest: string)
    requires AllOneLine(front)
    ensures SplitLines(JoinLines(front) + rest) == front + SplitLines(rest)
  {
    hide SplitLines;
    hide OneLine;
    if front == [] {
      assert JoinLines(front) + rest == rest;
      assert front + SplitLines(rest) == SplitLines(rest);
    } else {
      hide JoinLines;
      SplitPrefix(front[1..], rest);
      JoinFirst(front, rest);
      SplitFirst(front[0], JoinLines(front[1..]) + rest);
      assert [front[0]] + (front[1..] + SplitLines(rest)) == front + SplitLines(rest);
    }
  }

  lemma SplitAtBreak(line: string, rest: string)
    requires OneLine(line) && rest != "" && IsBreak(rest[0])
    ensures SplitLines(line + rest) != [] && SplitLines(line + rest)[0] == line
  {
    FirstBreak(line, rest);
    assert (line + rest)[..|line|] == line;
  }

  /** The assignment found first wins, whatever follows the break behind it. */
  lemma FirstAssignmentIsRead(front: seq<string>, line: string, rest: string, key: string)
    requires AllOneLine(front) && forall i :: 0 <= i < |front| ==> ActiveValue(key, front[i]).None?
    requires OneLine(line) && ActiveValue(key, line).Some? && rest != "" && IsBreak(rest[0])
    ensures Lookup(SplitLines(JoinLines(front) + (line + rest)), key) == Some(StripInline(ActiveValue(key, line).value))
  {
    hide JoinLines;
    hide ActiveValue;
    SplitPrefix(front, line + rest);
    SplitAtBreak(line, rest);
    hide SplitLines;
    var read := SplitLines(JoinLines(front) + (line + rest));
    assert read[|front|] == line && forall i :: 0 <= i < |front| ==> read[i] == front[i];
    FindActiveIs(read, key, 0, |front|);
  }

  /** A value with a line break is cut at the break. */
  lemma BrokenValueIsCut(lines: seq<string>, key: string, value: string)
    requires AllOneLine(lines) && IsKey(key) && !OneLine(value)
    ensures Lookup(SplitLines(JoinLines(Changed(lines, key, value))), key) == Some(StripInline(value[..LineLength(value)]))
  {
    hide Changed;
    hide Place;
    hide PlaceIndent;
    hide SplitLines;
    hide JoinLines;
    hide OneLine;
    hide AllOneLine;
    hide LineLength;
    hide IsKey;
    hide Lookup;
    var after, p, n := Changed(lines, key, value), Place(lines, key), LineLength(value);
    var indent := PlaceIndent(lines, key);
    OneLineChanges(lines, key, value);
    FrontIsSilent(lines, key, value);
    BreakIsInside(value);
    var line := indent + key + "=" + value[..n];
    KeptPartIsOneLine(lines, key, value);
    WrittenLine(indent, key, value[..n]);
    StringsRegroup(indent + key + "=", value[..n], value[n..]);
    assert value[..n] + value[n..] == value;
    JoinAround(after, p, line, value[n..]);
    var rest := value[n..] + "\n" + JoinLines(after[p + 1..]);
    assert rest != "" && rest[0] == value[n];
    FirstAssignmentIsRead(after[..p], line, rest, key);
  }

  lemma BreakIsInside(value: string)
    requires !OneLine(value)
    ensures LineLength(value) < |value| && IsBreak(value[LineLength(value)])
  {
    hide LineLength;
    assert value[..|value|] == value;
  }

  lemma FrontIsSilent(lines: seq<string>, key: string, value: string)
    requires AllOneLine(lines) && IsKey(key)
    ensures var after, p := Changed(lines, key, value), Place(lines, key);
            p < |after| && AllOneLine(after[..p]) && forall i :: 0 <= i < |after[..p]| ==> ActiveValue(key, after[..p][i]).None?
  {
    hide ActiveValue;
    PlaceIsFirst(lines, key, value);
    FrontIsOneLine(lines, key, value);
  }

  lemma FrontIsOneLine(lines: seq<string>, key: string, value: string)
    requires AllOneLine(lines)
    ensures Place(lines, key) < |Changed(lines, key, value)| && AllOneLine(Changed(lines, key, value)[..Place(lines, key)])
  {
    OneLineChanges(lines, key, value);
  }

  lemma KeptPartIsOneLine(lines: seq<string>, key: string, value: string)
    requires AllOneLine(lines) && IsKey(key)
    ensures OneLine(PlaceIndent(lines, key) + key + "=" + value[..LineLength(value)])
  {
    var p := Place(lines, key);
    if p < |lines| {
      assert OneLine(lines[p]);
    }
  }

  lemma JoinAround(lines: seq<string>, p: nat, start: string, end: string)
    requires p < |lines| && lines[p] == start + end
    ensures JoinLines(lines) == JoinLines(lines[..p]) + (start + (end + "\n" + JoinLines(lines[p + 1..])))
  {
    var front, back := lines[..p], lines[p..];
    assert lines == front + back;
    JoinAppend(front, back);
    JoinHead(back, start, end);
    assert back[1..] == lines[p + 1..];
  }

  lemma JoinHead(lines: seq<string>, start: string, end: string)
    requires lines != [] && lines[0] == start + end
    ensures JoinLines(lines) == start + (end + "\n" + JoinLines(lines[1..]))
  {
    StringsRegroup(start, end, "\n");
    StringsRegroup(start, end + "\n", JoinLines(lines[1..]));
  }

  lemma StringsRegroup(a: string, b: string, c: string)
    ensures a + b + c == a + (b + c)
  {
  }

  predicate Storable(value: string) {
    Stripped(value) && !HasComment(value) && OneLine(value)
  }

  /** What is written is what is read, through the file, exactly for stripped single lines without `" #"`. */
  lemma WrittenValueReadsBackIff(lines: seq<string>, key: string, value: string)
    requires AllOneLine(lines) && IsKey(key)
    ensures Lookup(SplitLines(JoinLines(Changed(lines, key, value))), key) == Some(value) <==> Storable(value)
  {
    StripInlineShortens(value);
    if OneLine(value) {
      ChangeSurvivesFile(lines, key, value);
      ChangedKeyReads(lines, key, value);
    } else {
      BrokenValueIsCut(lines, key, value);
      StripInlineShortens(value[..LineLength(value)]);
      assert LineLength(value) < |value| by {
        assert value[..|value|] == value;
      }
    }
  }

  // ---------------------------------------------------------------------------
  // Any sequence of writes behaves like a map
  // ---------------------------------------------------------------------------

  datatype Write = Write(key: string, value: string)

  predicate AllStorable(writes: seq<Write>) {
    forall i :: 0 <= i < |writes| ==> IsKey(writes[i].key) && Storable(writes[i].value)
  }

  /** The file after the first `n` calls of `set_setting`. */
  function FileAfter(text: string, writes: seq<Write>, n: nat): string
    requires n <= |writes|
  {
    if n == 0 then text
    else JoinLines(Changed(SplitLines(FileAfter(text, writes, n - 1)), writes[n - 1].key, writes[n - 1].value))
  }

  function LastWrite(writes: seq<Write>, n: nat, key: string): Option<string>
    requires n <= |writes|
  {
    if n == 0 then None
    else if writes[n - 1].key == key then Some(writes[n - 1].value)
    else LastWrite(writes, n - 1, key)
  }

  lemma OneWrite(lines: seq<string>, write: Write, key: string)
    requires AllOneLine(lines) && IsKey(write.key) && Storable(write.value) && IsKey(key)
    ensures Lookup(SplitLines(JoinLines(Changed(lines, write.key, write.value))), key)
            == if write.key == key then Some(write.value) else Lookup(lines, key)
  {
    ChangeSurvivesFile(lines, write.key, write.value);
    if write.key == key {
      ChangedKeyReads(lines, key, write.value);
      StripInlineShortens(write.value);
    } else {
      OtherKeysUntouched(lines, write.key, write.value, key);
    }
  }

  lemma {:induction false} WritesBehaveLikeMap(text: string, writes: seq<Write>, n: nat, key: string)
    requires n <= |writes| && AllStorable(writes) && IsKey(key)
    ensures Lookup(SplitLines(FileAfter(text, writes, n)), key)
            == if LastWrite(writes, n, key).Some? then LastWrite(writes, n, key) else Lookup(SplitLines(text), key)
  {
    hide SplitLines;
    hide JoinLines;
    hide Changed;
    hide Lookup;
    hide IsKey;
    hide Storable;
    if n > 0 {
      WritesBehaveLikeMap(text, writes, n - 1, key);
      OneWrite(SplitLines(FileAfter(text, writes, n - 1)), writes[n - 1], key);
    }
  }
}
