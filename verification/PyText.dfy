/** The parts of Python's `str` and of exception handling that several components rely on. */
module PyText {

  /** A value, or the fault that a Python function would have raised. */
  datatype Result<+T, +F> = Success(value: T) | Failure(fault: F) {
    predicate IsFailure() {
      Failure?
    }

    function PropagateFailure<U>(): Result<U, F>
      requires Failure?
    {
      Failure(fault)
    }

    function Extract(): T
      requires Success?
    {
      value
    }
  }

  datatype Option<+T> = None | Some(value: T)

  /** The characters for which `str.isspace` holds; `str.strip()` and `str.split()` use this set. */
  predicate IsSpace(c: char) {
    var n := c as int;
    || 0x09 <= n <= 0x0D
    || 0x1C <= n <= 0x20
    || n == 0x85
    || n == 0xA0
    || n == 0x1680
    || 0x2000 <= n <= 0x200A
    || n == 0x2028
    || n == 0x2029
    || n == 0x202F
    || n == 0x205F
    || n == 0x3000
  }

  predicate Blank(s: string) {
    forall i :: 0 <= i < |s| ==> IsSpace(s[i])
  }

  /** `str.lstrip()` */
  function LStrip(s: string): (r: string)
    ensures |r| <= |s|
  {
    if s == "" || !IsSpace(s[0]) then s else LStrip(s[1..])
  }

  /** `str.strip()` */
  function Strip(s: string): string {
    if s == "" then s
    else if IsSpace(s[0]) then Strip(s[1..])
    else if IsSpace(s[|s| - 1]) then Strip(s[..|s| - 1])
    else s
  }

  /** A string is unchanged by `strip()` exactly when it neither begins nor ends with whitespace. */
  predicate Stripped(s: string) {
    s == "" || (!IsSpace(s[0]) && !IsSpace(s[|s| - 1]))
  }

  lemma {:induction false} StripFixes(s: string)
    ensures Stripped(Strip(s))
    ensures Strip(s) == s <==> Stripped(s)
    ensures Strip(Strip(s)) == Strip(s)
    ensures |Strip(s)| <= |s|
  {
    if s != "" {
      if IsSpace(s[0]) {
        StripFixes(s[1..]);
      } else if IsSpace(s[|s| - 1]) {
        StripFixes(s[..|s| - 1]);
      }
    }
  }

  lemma {:induction false} StripEmptyIffBlank(s: string)
    ensures Strip(s) == "" <==> Blank(s)
  {
    if s != "" {
      if IsSpace(s[0]) {
        StripEmptyIffBlank(s[1..]);
        assert forall i :: 0 < i < |s| ==> s[i] == s[1..][i - 1];
      } else if IsSpace(s[|s| - 1]) {
        StripEmptyIffBlank(s[..|s| - 1]);
      }
    }
  }

  // ---------------------------------------------------------------------------
  // Whitespace-normalised, bounded text (`_compact_text`)
  // ---------------------------------------------------------------------------

  function WordLength(s: string): (n: nat)
    ensures n <= |s| && (s != "" && !IsSpace(s[0]) ==> n > 0)
  {
    if s == "" || IsSpace(s[0]) then 0 else 1 + WordLength(s[1..])
  }

  /** `str.split()` */
  function Words(s: string): seq<string>
    decreases |s|
  {
    var t := LStrip(s);
    if t == "" || IsSpace(t[0]) then []
    else [t[..WordLength(t)]] + Words(t[WordLength(t)..])
  }

  /** `" ".join(words)` */
  function JoinWords(words: seq<string>): string {
    if words == [] then ""
    else if |words| == 1 then words[0]
    else words[0] + " " + JoinWords(words[1..])
  }

  /** `s.rsplit(" ", 1)[0]` */
  function BeforeLastBlank(s: string): (r: string)
    ensures |r| <= |s|
  {
    if ' ' !in s then s
    else if s[|s| - 1] == ' ' then s[..|s| - 1]
    else BeforeLastBlank(s[..|s| - 1])
  }

  function CompactText(value: string, limit: nat): string {
    var compacted := JoinWords(Words(value));
    if |compacted| <= limit then compacted
    else if limit <= 3 then compacted[..limit]
    else BeforeLastBlank(compacted[..limit - 3]) + "..."
  }

  /** The parts one after the other. */
  function Flatten<T>(parts: seq<seq<T>>): seq<T> {
    if parts == [] then [] else parts[0] + Flatten(parts[1..])
  }

  lemma {:induction false} FlattenAppend<T>(left: seq<seq<T>>, right: seq<seq<T>>)
    ensures Flatten(left + right) == Flatten(left) + Flatten(right)
  {
    if left == [] {
      assert left + right == right;
    } else {
      assert (left + right)[1..] == left[1..] + right;
      FlattenAppend(left[1..], right);
    }
  }
}
