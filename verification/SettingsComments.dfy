/**
 What is read from a settings file: values, blanks and comments
 (butler/launcher/config.py, `get_setting` and `_strip_inline`).
 */
module SettingsComments {
  import opened PyText
  import opened TextMeaning
  import opened SettingsFile
  import opened SettingsBreaks

  // ---------------------------------------------------------------------------
  // The value of a line
  // ---------------------------------------------------------------------------

  /** `" #"` stands at place `i`. */
  predicate CommentAt(s: string, i: nat) {
    i + 1 < |s| && s[i] == ' ' && s[i + 1] == '#'
  }

  lemma {:induction false} CommentStartIs(s: string, n: nat)
    requires CommentAt(s, n) && forall i: nat :: i < n ==> !CommentAt(s, i)
    ensures CommentStart(s) == n
  {
    assert s[..2] == [s[0], s[1]];
    if n > 0 {
      assert !CommentAt(s, 0);
      forall i: nat | i < n - 1 ensures !CommentAt(s[1..], i) {
        assert !CommentAt(s, i + 1);
      }
      CommentStartIs(s[1..], n - 1);
    } else {
      assert s[..2] == " #";
    }
  }

  /** A comment without the blanks behind it. */
  lemma {:induction false} CommentParts(comment: string) returns (text: string, back: string)
    ensures "#" + comment == text + back && Blank(back) && text != "" && text[0] == '#' && !IsSpace(text[|text| - 1])
    decreases |comment|
  {
    text, back := "#" + comment, "";
    if comment != "" && IsSpace(comment[|comment| - 1]) {
      text, back := CommentParts(comment[..|comment| - 1]);
      back := BlankAnd(back, comment[|comment| - 1]);
      assert "#" + comment == "#" + comment[..|comment| - 1] + [comment[|comment| - 1]];
    } else {
      assert text[|text| - 1] == if comment == "" then '#' else comment[|comment| - 1];
    }
  }

  /** The first `" #"` behind a value without one. */
  lemma FirstComment(value: string, padding: string, text: string)
    requires Stripped(value) && !HasComment(value) && Blank(padding) && text != "" && text[0] == '#'
    ensures CommentStart(value + padding + " " + text) == |value + padding|
  {
    var s, n := value + padding + " " + text, |value + padding|;
    assert s[n] == ' ' && s[n + 1] == '#';
    forall i: nat | i < n ensures !CommentAt(s, i) {
      if i + 1 < |value| {
        assert s[i] == value[i] && s[i + 1] == value[i + 1];
      } else if i < |value| {
        assert s[i] == value[|value| - 1];
      } else if i + 1 < n {
        assert s[i + 1] == padding[i + 1 - |value|];
      } else {
        assert s[i + 1] == ' ';
      }
    }
    CommentStartIs(s, n);
  }

  lemma CommentedText(front: string, kept: string, text: string, back: string, comment: string)
    requires "#" + comment == text + back
    ensures front + kept + " #" + comment == front + (kept + " " + text) + back
  {
    assert " #" + comment == " " + text + back by {
      assert " #" == " " + "#";
      assert " " + "#" + comment == " " + ("#" + comment);
      assert " " + (text + back) == " " + text + back;
    }
    assert front + kept + " #" + comment == front + kept + (" #" + comment);
    assert front + kept + (" " + text + back) == front + (kept + " " + text) + back;
  }

  lemma CommentIsTaken(front: string, value: string, padding: string, comment: string)
    requires Blank(front) && Stripped(value) && value != "" && !HasComment(value) && Blank(padding)
    ensures StripInline(front + value + padding + " #" + comment) == value
  {
    hide Strip;
    hide CommentStart;
    hide HasComment;
    hide Blank;
    var text, back := CommentParts(comment);
    var kept := value + padding + " " + text;
    CommentedText(front, value + padding, text, back, comment);
    assert front + value + padding + " #" + comment == front + (value + padding) + " #" + comment;
    assert kept[0] == value[0] && kept[|kept| - 1] == text[|text| - 1];
    StripTakesBlanks(front, kept, back);
    FirstComment(value, padding, text);
    assert kept[..|value + padding|] == value + padding;
    ValueBeforeBlanks(value, padding);
  }

  lemma ValueBeforeBlanks(value: string, padding: string)
    requires Stripped(value) && Blank(padding)
    ensures Strip(value + padding) == value
  {
    assert "" + value + padding == value + padding;
    StripTakesBlanks("", value, padding);
  }

  /** Blanks and a comment around a value are not part of it. */
  lemma ValueIsRead(front: string, value: string, padding: string, comment: string)
    requires Blank(front) && Stripped(value) && value != "" && !HasComment(value) && Blank(padding)
    ensures StripInline(front + value + padding + " #" + comment) == value
    ensures StripInline(front + value + padding) == value
  {
    CommentIsTaken(front, value, padding, comment);
    StripTakesBlanks(front, value, padding);
    CommentIsFound(value);
    hide Strip;
    hide CommentStart;
    hide HasComment;
  }

  // ---------------------------------------------------------------------------
  // The value of a key
  // ---------------------------------------------------------------------------

  /** No line assigns the key, not even in a comment: the file says nothing of it. */
  lemma NothingIsRead(lines: seq<string>, key: string)
    requires Silent(lines, key)
    ensures Lookup(lines, key) == None
  {
    SilentIff(lines, key);
    LookupIsFirst(lines, key);
  }

  lemma AssignmentSays(indent: string, key: string, raw: string)
    requires Blank(indent) && IsKey(key)
    ensures ActiveValue(key, indent + key + "=" + raw) == Some(raw)
  {
    WrittenLine(indent, key, raw);
  }

  lemma CommentedSays(indent: string, gap: string, key: string, raw: string)
    requires Blank(indent) && Blank(gap) && IsKey(key)
    ensures CommentedValue(key, indent + "#" + gap + key + "=" + raw) == Some(raw)
    ensures ActiveValue(key, indent + "#" + gap + key + "=" + raw) == None
  {
    var body := key + "=" + raw;
    var commented := "#" + gap + body;
    assert indent + "#" + gap + key + "=" + raw == indent + commented;
    LStripIndented(indent, commented);
    assert commented[1..] == gap + body;
    LStripIndented(gap, body);
    assert body[..|key|] == key && body[|key| + 1..] == raw;
    assert commented[0] == '#';
  }

  /**
   The first line `KEY=value`, with any indentation and any blanks and comment around the value, gives the value,
   whatever commented lines are in front of it and whatever is behind.
   */
  lemma AssignmentIsRead(before: seq<string>, indent: string, key: string, front: string, value: string, padding: string,
                         comment: string, behind: seq<string>)
    requires IsKey(key) && (forall i :: 0 <= i < |before| ==> ActiveValue(key, before[i]).None?)
    requires Blank(indent) && Blank(front) && Stripped(value) && value != "" && !HasComment(value) && Blank(padding)
    ensures Lookup(before + [indent + key + "=" + (front + value + padding + " #" + comment)] + behind, key) == Some(value)
    ensures Lookup(before + [indent + key + "=" + (front + value + padding)] + behind, key) == Some(value)
  {
    ValueIsRead(front, value, padding, comment);
    FirstActiveIsRead(before, indent, key, front + value + padding + " #" + comment, behind);
    FirstActiveIsRead(before, indent, key, front + value + padding, behind);
  }

  lemma FirstActiveIsRead(before: seq<string>, indent: string, key: string, raw: string, behind: seq<string>)
    requires IsKey(key) && Blank(indent) && forall i :: 0 <= i < |before| ==> ActiveValue(key, before[i]).None?
    ensures Lookup(before + [indent + key + "=" + raw] + behind, key) == Some(StripInline(raw))
  {
    hide StripInline;
    hide ActiveValue;
    hide IsKey;
    var line := indent + key + "=" + raw;
    var lines := before + [line] + behind;
    AssignmentSays(indent, key, raw);
    assert lines[|before|] == line && forall i :: 0 <= i < |before| ==> lines[i] == before[i];
    FindActiveIs(lines, key, 0, |before|);
  }

  /** Without any such line, the first line `# KEY=value` gives the value in the same way. */
  lemma CommentedAssignmentIsRead(before: seq<string>, indent: string, gap: string, key: string, front: string, value: string,
                                  padding: string, comment: string, behind: seq<string>)
    requires IsKey(key) && Silent(before, key) && (forall i :: 0 <= i < |behind| ==> ActiveValue(key, behind[i]).None?)
    requires Blank(indent) && Blank(gap) && Blank(front) && Stripped(value) && value != "" && !HasComment(value) && Blank(padding)
    ensures var raw := front + value + padding + " #" + comment;
            Lookup(before + [indent + "#" + gap + key + "=" + raw] + behind, key) == Some(value)
    ensures Lookup(before + [indent + "#" + gap + key + "=" + (front + value + padding)] + behind, key) == Some(value)
  {
    ValueIsRead(front, value, padding, comment);
    FirstCommentedIsRead(before, indent, gap, key, front + value + padding + " #" + comment, behind);
    FirstCommentedIsRead(before, indent, gap, key, front + value + padding, behind);
  }

  lemma FirstCommentedIsRead(before: seq<string>, indent: string, gap: string, key: string, raw: string, behind: seq<string>)
    requires IsKey(key) && Blank(indent) && Blank(gap) && Silent(before, key)
    requires forall i :: 0 <= i < |behind| ==> ActiveValue(key, behind[i]).None?
    ensures Lookup(before + [indent + "#" + gap + key + "=" + raw] + behind, key) == Some(StripInline(raw))
  {
    hide StripInline;
    hide ActiveValue;
    hide CommentedValue;
    hide IsKey;
    var line := indent + "#" + gap + key + "=" + raw;
    var lines := before + [line] + behind;
    CommentedSays(indent, gap, key, raw);
    assert lines[|before|] == line && forall i :: 0 <= i < |before| ==> lines[i] == before[i];
    assert forall i :: |before| < i < |lines| ==> lines[i] == behind[i - |before| - 1];
    assert FindActive(lines, key, 0) == |lines|;
    assert FindCommented(lines, key, 0) == |before|;
  }

  // ---------------------------------------------------------------------------
  // Which lines say something of a key
  // ---------------------------------------------------------------------------

  lemma AssignedParts(key: string, body: string)
    ensures Assigned(key, body).Some? ==> body == key + "=" + Assigned(key, body).value
  {
    if Assigned(key, body).Some? {
      assert body == body[..|key|] + [body[|key|]] + body[|key| + 1..];
    }
  }

  /** A line assigns a key exactly when it is blanks, the key, "=" and what it assigns. */
  lemma AssignsIff(key: string, line: string, raw: string)
    requires IsKey(key)
    ensures ActiveValue(key, line) == Some(raw) <==> exists indent :: Blank(indent) && line == indent + key + "=" + raw
  {
    if ActiveValue(key, line) == Some(raw) {
      var indent := LStripParts(line);
      AssignedParts(key, LStrip(line));
      StringsRegroup(indent, key + "=", raw);
      assert indent + key + "=" == indent + (key + "=");
      assert Blank(indent) && line == indent + key + "=" + raw;
    }
    if indent :| Blank(indent) && line == indent + key + "=" + raw {
      AssignmentSays(indent, key, raw);
    }
  }

  /** A line assigns a key in a comment exactly when it is blanks, "#", blanks, the key, "=" and what it assigns. */
  lemma CommentAssignsIff(key: string, line: string, raw: string)
    requires IsKey(key)
    ensures CommentedValue(key, line) == Some(raw) <==>
              exists indent, gap :: Blank(indent) && Blank(gap) && line == indent + "#" + gap + key + "=" + raw
  {
    if CommentedValue(key, line) == Some(raw) {
      var indent := LStripParts(line);
      var body := LStrip(line);
      var gap := LStripParts(body[1..]);
      AssignedParts(key, LStrip(body[1..]));
      CommentedLine(line, indent, body, gap, key, raw);
    }
    if indent, gap :| Blank(indent) && Blank(gap) && line == indent + "#" + gap + key + "=" + raw {
      CommentedSays(indent, gap, key, raw);
    }
  }

  lemma CommentedLine(line: string, indent: string, body: string, gap: string, key: string, raw: string)
    requires line == indent + body && body != "" && body[0] == '#' && body[1..] == gap + (key + "=" + raw)
    ensures line == indent + "#" + gap + key + "=" + raw
  {
    assert body == "#" + body[1..];
    assert indent + ("#" + (gap + (key + "=" + raw))) == indent + "#" + gap + key + "=" + raw;
  }

  lemma {:induction false} IndentIs(indent: string, body: string)
    requires Blank(indent) && body != "" && !IsSpace(body[0])
    ensures Indent(indent + body) == indent
  {
    LStripIndented(indent, body);
  }

  /** A write keeps the indentation of the line it takes over, be it an assignment or a commented one. */
  lemma IndentationIsKept(lines: seq<string>, key: string, value: string, indent: string, rest: string)
    requires IsKey(key) && Blank(indent) && Place(lines, key) < |lines|
    requires lines[Place(lines, key)] == indent + rest && rest != "" && !IsSpace(rest[0])
    ensures Place(lines, key) < |Changed(lines, key, value)|
    ensures Changed(lines, key, value)[Place(lines, key)] == indent + key + "=" + value
  {
    OneLineChanges(lines, key, value);
    IndentIs(indent, rest);
  }

  // ---------------------------------------------------------------------------
  // Where lines end
  // ---------------------------------------------------------------------------

  /** The code points at which a line ends. */
  lemma BreaksAre(c: char)
    ensures IsBreak(c) <==> c as int in {10, 11, 12, 13, 28, 29, 30, 133, 8232, 8233}
  {
  }

  /** Every break ends one line; a carriage return and the line feed behind it are one break. */
  lemma LinesEndAtBreaks(line: string, c: char, rest: string)
    requires OneLine(line) && IsBreak(c)
    ensures c == '\r' && rest != "" && rest[0] == '\n' ==> SplitLines(line + [c] + rest) == [line] + SplitLines(rest[1..])
    ensures !(c == '\r' && rest != "" && rest[0] == '\n') ==> SplitLines(line + [c] + rest) == [line] + SplitLines(rest)
    ensures line != "" ==> SplitLines(line) == [line]
    ensures SplitLines("") == []
  {
    hide SplitLines;
    hide OneLine;
    hide IsBreak;
    hide LineLength;
    FirstBreak(line, [c] + rest);
    SplitStep(line + ([c] + rest));
    BehindBreak(line, c, rest);
    FirstBreak(line, "");
    assert line + "" == line;
    if line != "" {
      SplitStep(line);
    }
    SplitNothing();
  }

  lemma BehindBreak(line: string, c: char, rest: string)
    ensures var text, n := line + ([c] + rest), |line|;
            && line + [c] + rest == text && text[..n] == line && text[n..] == [c] + rest
            && text[n + 1..] == rest && (rest != "" ==> text[n + 2..] == rest[1..])
            && BreakLength(text[n..]) == if c == '\r' && rest != "" && rest[0] == '\n' then 2 else 1
  {
    var text := line + ([c] + rest);
    assert text[|line|..] == [c] + rest;
    assert rest != "" ==> ([c] + rest)[1] == rest[0];
  }

  /** The launcher's own default comes before the caller's, and both behind the file. */
  lemma DefaultsComeLast(lines: seq<string>, key: string, builtIn: map<string, string>, default: Option<string>)
    ensures Lookup(lines, key).Some? ==> Effective(lines, key, builtIn, default) == Lookup(lines, key).value
    ensures Silent(lines, key) && key in builtIn ==> Effective(lines, key, builtIn, default) == builtIn[key]
    ensures Silent(lines, key) && key !in builtIn && default.Some? ==> Effective(lines, key, builtIn, default) == default.value
    ensures Silent(lines, key) && key !in builtIn && default.None? ==> Effective(lines, key, builtIn, default) == ""
  {
    if Silent(lines, key) {
      NothingIsRead(lines, key);
    }
  }
}
