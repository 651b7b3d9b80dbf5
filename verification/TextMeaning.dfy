/** What the functions of `PyText` do to a text, told without their definitions. */
module TextMeaning {
  import opened PyText

  // ---------------------------------------------------------------------------
  // Stripping
  // ---------------------------------------------------------------------------

  /** The code points that Python counts as whitespace. */
  lemma SpacesAre(c: char)
    ensures IsSpace(c) <==>
              c as int in {9, 10, 11, 12, 13, 28, 29, 30, 31, 32, 133, 160, 5760, 8192, 8193, 8194, 8195, 8196, 8197, 8198,
                           8199, 8200, 8201, 8202, 8232, 8233, 8239, 8287, 12288}
  {
  }

  lemma StripFront(s: string)
    requires s != "" && IsSpace(s[0])
    ensures Strip(s) == Strip(s[1..])
  {
  }

  lemma {:induction false} StripBack(s: string)
    requires s != "" && IsSpace(s[|s| - 1])
    ensures Strip(s) == Strip(s[..|s| - 1])
    decreases |s|
  {
    if |s| > 1 && IsSpace(s[0]) {
      var tail, front := s[1..], s[..|s| - 1];
      StripBack(tail);
      StripFront(front);
      assert tail[..|tail| - 1] == front[1..];
    }
  }

  lemma {:induction false} StripBlankFront(front: string, text: string)
    requires Blank(front)
    ensures Strip(front + text) == Strip(text)
  {
    if front == "" {
      assert front + text == text;
    } else {
      StripFront(front + text);
      assert (front + text)[1..] == front[1..] + text;
      StripBlankFront(front[1..], text);
    }
  }

  lemma {:induction false} StripBlankBack(text: string, back: string)
    requires Blank(back)
    ensures Strip(text + back) == Strip(text)
    decreases |back|
  {
    if back == "" {
      assert text + back == text;
    } else {
      var whole := text + back;
      StripBack(whole);
      assert whole[..|whole| - 1] == text + back[..|back| - 1];
      StripBlankBack(text, back[..|back| - 1]);
    }
  }

  /** Blanks in front and behind go, and nothing else. */
  lemma StripTakesBlanks(front: string, text: string, back: string)
    requires Blank(front) && Stripped(text) && Blank(back)
    ensures Strip(front + text + back) == text
  {
    hide Strip;
    StripBlankBack(front + text, back);
    StripBlankFront(front, text);
    StripFixes(text);
  }

  /** Every text is blanks, a stripped text, and blanks. */
  lemma {:induction false} StripParts(s: string) returns (front: string, back: string)
    ensures Blank(front) && Blank(back) && Stripped(Strip(s)) && s == front + Strip(s) + back
    decreases |s|
  {
    hide Stripped;
    hide Blank;
    hide IsSpace;
    hide Strip;
    StripFixes(s);
    front, back := "", "";
    NothingIsBlank();
    if s != "" && IsSpace(s[0]) {
      front, back := StripParts(s[1..]);
      Around([s[0]], front, Strip(s[1..]), back);
      front := AndBlank(s[0], front);
      StripFront(s);
    } else if s != "" && IsSpace(s[|s| - 1]) {
      front, back := StripParts(s[..|s| - 1]);
      Around(front, Strip(s[..|s| - 1]), back, [s[|s| - 1]]);
      back := BlankAnd(back, s[|s| - 1]);
      StripBack(s);
    } else {
      assert Stripped(s) by {
        NotBlankEnds(s);
      }
      assert "" + s + "" == s;
    }
  }

  lemma NothingIsBlank()
    ensures Blank("")
  {
  }

  lemma NotBlankEnds(s: string)
    requires s != "" ==> !IsSpace(s[0]) && !IsSpace(s[|s| - 1])
    ensures Stripped(s)
  {
  }

  lemma Around(a: string, b: string, c: string, d: string)
    ensures a + (b + c + d) == a + b + c + d && a + b + c + d == a + b + (c + d)
  {
  }

  lemma AndBlank(c: char, blanks: string) returns (more: string)
    requires IsSpace(c) && Blank(blanks)
    ensures more == [c] + blanks && Blank(more)
  {
    more := [c] + blanks;
  }

  lemma BlankAnd(blanks: string, c: char) returns (more: string)
    requires IsSpace(c) && Blank(blanks)
    ensures more == blanks + [c] && Blank(more)
  {
    more := blanks + [c];
  }

  // ---------------------------------------------------------------------------
  // Normalised text
  // ---------------------------------------------------------------------------

  /** A visible character, and whether whitespace parts it from the one before. */
  datatype Seen = Seen(c: char, apart: bool)

  /** What can be seen of a text. */
  function Skeleton(s: string): seq<Seen> {
    if s == "" then []
    else
      var before, last := Skeleton(s[..|s| - 1]), s[|s| - 1];
      if IsSpace(last) then before else before + [Seen(last, before != [] && IsSpace(s[|s| - 2]))]
  }

  /** No whitespace but single blanks between visible characters. */
  predicate Plain(s: string) {
    forall i :: 0 <= i < |s| && IsSpace(s[i]) ==> s[i] == ' ' && 0 < i < |s| - 1 && !IsSpace(s[i - 1])
  }

  /** What follows in a text that has visible characters in front; `gap` tells whether it ended with whitespace. */
  function Later(s: string, gap: bool): seq<Seen> {
    if s == "" then []
    else
      var before, last := Later(s[..|s| - 1], gap), s[|s| - 1];
      if IsSpace(last) then before else before + [Seen(last, if |s| == 1 then gap else IsSpace(s[|s| - 2]))]
  }

  lemma {:induction false} SkeletonAppend(front: string, back: string)
    requires Skeleton(front) != []
    ensures Skeleton(front + back) == Skeleton(front) + Later(back, IsSpace(front[|front| - 1]))
    decreases |back|
  {
    var whole, gap := front + back, IsSpace(front[|front| - 1]);
    if back == "" {
      assert whole == front;
    } else {
      var less, last := back[..|back| - 1], back[|back| - 1];
      SkeletonAppend(front, less);
      assert whole[..|whole| - 1] == front + less && whole[|whole| - 1] == last;
      assert whole[|whole| - 2] == if |back| == 1 then front[|front| - 1] else back[|back| - 2];
    }
  }

  lemma {:induction false} SkeletonOfBlank(front: string)
    requires Blank(front)
    ensures Skeleton(front) == []
  {
    if front != "" {
      SkeletonOfBlank(front[..|front| - 1]);
    }
  }

  /** Blanks in front are not seen. */
  lemma {:induction false} SkeletonBehindBlank(front: string, text: string)
    requires Blank(front)
    ensures Skeleton(front + text) == Skeleton(text)
    decreases |text|
  {
    if text == "" {
      assert front + text == front;
      SkeletonOfBlank(front);
    } else {
      var whole, less := front + text, text[..|text| - 1];
      assert whole[..|whole| - 1] == front + less;
      SkeletonBehindBlank(front, less);
      if |text| == 1 {
        assert Skeleton(less) == [];
      } else {
        assert whole[|whole| - 2] == text[|text| - 2];
      }
    }
  }

  function Apart(seen: seq<Seen>): seq<Seen> {
    if seen == [] then [] else [Seen(seen[0].c, true)] + seen[1..]
  }

  /** Behind whitespace only the first visible character is seen differently. */
  lemma {:induction false} LaterIsApart(s: string)
    requires s != "" && IsSpace(s[0])
    ensures Later(s, false) == Apart(Skeleton(s))
    decreases |s|
  {
    if |s| == 1 {
      assert s[..0] == "";
    } else {
      var less, last := s[..|s| - 1], s[|s| - 1];
      LaterIsApart(less);
      if !IsSpace(last) && Skeleton(less) == [] {
        FirstIsBehindSpace(s);
      }
    }
  }

  lemma {:induction false} FirstIsBehindSpace(s: string)
    requires |s| > 1 && IsSpace(s[0]) && Skeleton(s[..|s| - 1]) == []
    ensures IsSpace(s[|s| - 2])
    decreases |s|
  {
    var less := s[..|s| - 1];
    assert less[|less| - 1] == s[|s| - 2];
  }

  lemma {:induction false} WordIsSolid(word: string)
    requires word != "" && forall i :: 0 <= i < |word| ==> !IsSpace(word[i])
    ensures Skeleton(word) != []
  {
  }

  lemma {:induction false} LStripParts(s: string) returns (front: string)
    ensures Blank(front) && s == front + LStrip(s)
    ensures LStrip(s) == "" || !IsSpace(LStrip(s)[0])
  {
    front := "";
    if s != "" && IsSpace(s[0]) {
      front := LStripParts(s[1..]);
      front := [s[0]] + front;
      assert s == [s[0]] + s[1..];
    }
  }

  lemma {:induction false} WordEnds(s: string)
    ensures forall i :: 0 <= i < WordLength(s) ==> !IsSpace(s[i])
    ensures WordLength(s) < |s| ==> IsSpace(s[WordLength(s)])
  {
    if s != "" && !IsSpace(s[0]) {
      WordEnds(s[1..]);
      assert forall i :: 0 < i < |s| ==> s[i] == s[1..][i - 1];
    }
  }

  /** The words joined by blanks are plain, and look like the text. */
  lemma {:induction false} NormalisedMeans(s: string)
    ensures var r := JoinWords(Words(s));
            Plain(r) && Skeleton(r) == Skeleton(s) && (Words(s) == [] <==> r == "") && (r != "" ==> !IsSpace(r[0]))
    decreases |s|
  {
    hide Skeleton;
    hide Plain;
    hide LStrip;
    hide JoinWords;
    hide WordLength;
    var front := LStripParts(s);
    var t := LStrip(s);
    SkeletonBehindBlank(front, t);
    NoWordsJoin();
    if t == "" {
      NothingIsPlain();
    } else {
      var n := WordLength(t);
      WordEnds(t);
      NormalisedMeans(t[n..]);
      OneWordMore(t[..n], t[n..], JoinWords(Words(t[n..])));
      assert t == t[..n] + t[n..];
      WordsJoin(t[..n], Words(t[n..]));
    }
  }

  lemma {:induction false} SeenIffNotBlank(s: string)
    ensures Skeleton(s) == [] <==> Blank(s)
  {
    if s != "" {
      SeenIffNotBlank(s[..|s| - 1]);
      assert forall i :: 0 <= i < |s| - 1 ==> s[..|s| - 1][i] == s[i];
    }
  }

  lemma NothingIsPlain()
    ensures Plain("") && Skeleton("") == []
  {
  }

  lemma NoWordsJoin()
    ensures JoinWords([]) == ""
  {
  }

  lemma WordsJoin(word: string, words: seq<string>)
    ensures JoinWords([word] + words) == if words == [] then word else word + " " + JoinWords(words)
  {
    assert words != [] ==> ([word] + words)[1..] == words;
  }

  lemma WordBehind(word: string, rest: string)
    requires word != "" && forall i :: 0 <= i < |word| ==> !IsSpace(word[i])
    requires rest != "" ==> IsSpace(rest[0])
    ensures Skeleton(word + rest) == Skeleton(word) + Apart(Skeleton(rest))
  {
    WordIsSolid(word);
    NothingIsPlain();
    hide Skeleton;
    SkeletonAppend(word, rest);
    if rest == "" {
      LaterNothing();
    } else {
      LaterIsApart(rest);
    }
  }

  lemma NothingIsApart()
    ensures Apart([]) == []
  {
  }

  lemma WordIsPlain(word: string)
    requires forall i :: 0 <= i < |word| ==> !IsSpace(word[i])
    ensures Plain(word)
  {
  }

  /** A word in front of a text and in front of what the text looks like. */
  lemma OneWordMore(word: string, rest: string, r: string)
    requires word != "" && forall i :: 0 <= i < |word| ==> !IsSpace(word[i])
    requires rest != "" ==> IsSpace(rest[0])
    requires Plain(r) && Skeleton(r) == Skeleton(rest) && (r != "" ==> !IsSpace(r[0]))
    ensures var all := if r == "" then word else word + " " + r;
            Plain(all) && Skeleton(all) == Skeleton(word + rest)
  {
    PlainIsSeen(r);
    WordIsPlain(word);
    hide Skeleton;
    hide Plain;
    hide Apart;
    WordBehind(word, rest);
    NothingIsApart();
    if r == "" {
      assert Skeleton(word) + [] == Skeleton(word);
    } else {
      assert word + " " + r == word + (" " + r);
      WordBehind(word, " " + r);
      SkeletonBehindBlank(" ", r);
      PlainBehindWord(word, r);
    }
  }

  lemma LaterNothing()
    ensures Later("", false) == []
  {
  }

  /** A plain text has something to be seen, unless it is empty. */
  lemma PlainIsSeen(r: string)
    requires Plain(r)
    ensures Skeleton(r) == [] <==> r == ""
  {
    assert r != "" ==> !IsSpace(r[|r| - 1]);
  }

  lemma PlainBehindWord(word: string, r: string)
    requires word != "" && forall i :: 0 <= i < |word| ==> !IsSpace(word[i])
    requires Plain(r) && r != "" && !IsSpace(r[0])
    ensures Plain(word + " " + r)
  {
    var all, n := word + " " + r, |word|;
    forall i | 0 <= i < |all| && IsSpace(all[i])
      ensures all[i] == ' ' && 0 < i < |all| - 1 && !IsSpace(all[i - 1])
    {
      if i > n {
        assert all[i] == r[i - n - 1] && (i > n + 1 ==> all[i - 1] == r[i - n - 2]);
      }
    }
  }

  /** Plain texts that look alike are the same. */
  lemma {:induction false} PlainIsUnique(a: string, b: string)
    requires Plain(a) && Plain(b) && Skeleton(a) == Skeleton(b)
    ensures a == b
    decreases |a|
  {
    PlainIsSeen(a);
    PlainIsSeen(b);
    hide Skeleton;
    hide Plain;
    hide Shorter;
    if a != "" {
      LastSeen(a);
      LastSeen(b);
      PlainShorter(a);
      PlainShorter(b);
      SameEnds(Skeleton(Shorter(a)), Skeleton(Shorter(b)), LastOf(a), LastOf(b));
      PlainIsUnique(Shorter(a), Shorter(b));
    }
  }

  lemma SameEnds(a: seq<Seen>, b: seq<Seen>, x: Seen, y: Seen)
    requires a + [x] == b + [y]
    ensures a == b && x == y
  {
    assert (a + [x])[..|a|] == a && (b + [y])[..|b|] == b;
    assert (a + [x])[|a|] == x && (b + [y])[|b|] == y;
  }

  /** Without the last visible character and the blank in front of it. */
  function Shorter(r: string): string
    requires r != ""
  {
    if |r| > 1 && IsSpace(r[|r| - 2]) then r[..|r| - 2] else r[..|r| - 1]
  }

  function LastOf(r: string): Seen
    requires r != ""
  {
    Seen(r[|r| - 1], |r| > 1 && IsSpace(r[|r| - 2]))
  }

  lemma LastSeen(r: string)
    requires Plain(r) && r != ""
    ensures Skeleton(r) == Skeleton(Shorter(r)) + [LastOf(r)]
    ensures r == Shorter(r) + if LastOf(r).apart then [' ', LastOf(r).c] else [LastOf(r).c]
  {
    assert !IsSpace(r[|r| - 1]);
    if LastOf(r).apart {
      assert |r| > 2 && r[|r| - 2] == ' ';
      BlankIsNotSeen(r[..|r| - 1]);
      assert r[..|r| - 1][..|r| - 2] == r[..|r| - 2];
      SeenInFront(r);
    } else {
      assert |r| > 1 ==> !IsSpace(r[|r| - 2]);
    }
  }

  lemma BlankIsNotSeen(s: string)
    requires s != "" && IsSpace(s[|s| - 1])
    ensures Skeleton(s) == Skeleton(s[..|s| - 1])
  {
  }

  lemma SeenInFront(r: string)
    requires |r| > 2 && !IsSpace(r[|r| - 3])
    ensures Skeleton(r[..|r| - 2]) != []
  {
    assert r[..|r| - 2][|r| - 3] == r[|r| - 3];
  }

  lemma PlainShorter(r: string)
    requires Plain(r) && r != ""
    ensures Plain(Shorter(r))
  {
    assert forall i :: 0 <= i < |Shorter(r)| ==> Shorter(r)[i] == r[i];
    if |r| > 1 && IsSpace(r[|r| - 2]) {
      assert !IsSpace(r[|r| - 3]);
    }
  }

  // ---------------------------------------------------------------------------
  // Bounded text
  // ---------------------------------------------------------------------------

  /** `whole` cut behind its last blank within the limit, if it is too long. */
  predicate Cut(whole: string, limit: nat, r: string) {
    if |whole| <= limit then r == whole
    else if limit <= 3 then r == whole[..limit]
    else if ' ' in whole[..limit - 3] then
      exists k: nat :: k < limit - 3 && whole[k] == ' ' && ' ' !in whole[k + 1..limit - 3] && r == whole[..k] + "..."
    else r == whole[..limit - 3] + "..."
  }

  /** `r` shows a text that looks like `value`, as far as the limit allows. */
  ghost predicate Shows(value: string, limit: nat, r: string) {
    exists whole :: Plain(whole) && Skeleton(whole) == Skeleton(value) && Cut(whole, limit, r)
  }

  lemma {:induction false} BeforeLastBlankMeans(s: string)
    ensures ' ' !in s ==> BeforeLastBlank(s) == s
    ensures ' ' in s ==> var k := |BeforeLastBlank(s)|; k < |s| && BeforeLastBlank(s) == s[..k] && s[k] == ' ' && ' ' !in s[k + 1..]
    decreases |s|
  {
    if ' ' in s && s[|s| - 1] != ' ' {
      var less := s[..|s| - 1];
      assert s == less + [s[|s| - 1]];
      BeforeLastBlankMeans(less);
      var k := |BeforeLastBlank(s)|;
      assert s[k + 1..] == less[k + 1..] + [s[|s| - 1]];
    }
  }

  lemma CutIs(whole: string, limit: nat)
    ensures Cut(whole, limit, if |whole| <= limit then whole else if limit <= 3 then whole[..limit]
                              else BeforeLastBlank(whole[..limit - 3]) + "...")
  {
    if limit > 3 && |whole| > limit {
      var s := whole[..limit - 3];
      BeforeLastBlankMeans(s);
      if ' ' in s {
        var k := |BeforeLastBlank(s)|;
        assert s[..k] == whole[..k] && s[k + 1..] == whole[k + 1..limit - 3] && whole[k] == ' ';
      }
    }
  }

  lemma CutIsUnique(whole: string, limit: nat, r: string, r': string)
    requires Cut(whole, limit, r) && Cut(whole, limit, r')
    ensures r == r'
  {
    if |whole| > limit > 3 && ' ' in whole[..limit - 3] {
      var k: nat :| k < limit - 3 && whole[k] == ' ' && ' ' !in whole[k + 1..limit - 3] && r == whole[..k] + "...";
      var j: nat :| j < limit - 3 && whole[j] == ' ' && ' ' !in whole[j + 1..limit - 3] && r' == whole[..j] + "...";
      BlankBehind(whole, j, k, limit - 3);
      BlankBehind(whole, k, j, limit - 3);
    }
  }

  lemma BlankBehind(s: string, j: nat, k: nat, end: nat)
    requires j < end <= |s| && k < end && s[k] == ' '
    ensures j < k ==> ' ' in s[j + 1..end]
  {
    assert j < k ==> s[j + 1..end][k - j - 1] == ' ';
  }

  /** `_compact_text` shows the text, and nothing else shows it. */
  lemma CompactTextIs(value: string, limit: nat, r: string)
    ensures Shows(value, limit, r) <==> r == CompactText(value, limit)
    ensures |CompactText(value, limit)| <= limit
  {
    hide Skeleton;
    hide Plain;
    hide Cut;
    var whole := JoinWords(Words(value));
    NormalisedMeans(value);
    CutIs(whole, limit);
    if Shows(value, limit, r) {
      var other :| Plain(other) && Skeleton(other) == Skeleton(value) && Cut(other, limit, r);
      PlainIsUnique(other, whole);
      CutIsUnique(whole, limit, r, CompactText(value, limit));
    }
  }
}
