/** The word count behind the description check of the description-first
    variant: `text.trim().split(/\s+/).length`, and an independent count of
    words (maximal runs of non-whitespace) that it is proved to agree with. */
module Words {

  /** JavaScript whitespace: what `\s` matches and `trim()` removes (the
      WhiteSpace and LineTerminator characters of ECMA-262). */
  predicate IsSpace(c: char)
  {
    || c == '\t' || c == '\n' || c == '\U{000B}' || c == '\U{000C}' || c == '\r' || c == ' '
    || c == '\U{00A0}' || c == '\U{1680}' || ('\U{2000}' <= c <= '\U{200A}')
    || c == '\U{2028}' || c == '\U{2029}' || c == '\U{202F}' || c == '\U{205F}'
    || c == '\U{3000}' || c == '\U{FEFF}'
  }

  predicate HasSpace(s: string)
  {
    exists i :: 0 <= i < |s| && IsSpace(s[i])
  }

  /** `trimStart()`: drops the leading whitespace and nothing else. */
  function TrimStart(s: string): (r: string)
    ensures |r| <= |s| && r == s[|s| - |r|..]
    ensures |r| > 0 ==> !IsSpace(r[0])
    ensures forall i :: 0 <= i < |s| - |r| ==> IsSpace(s[i])
  {
    if |s| > 0 && IsSpace(s[0]) then TrimStart(s[1..]) else s
  }

  /** `trimEnd()`: drops the trailing whitespace and nothing else. */
  function TrimEnd(s: string): (r: string)
    ensures |r| <= |s| && r == s[..|r|]
    ensures |r| > 0 ==> !IsSpace(r[|r| - 1])
    ensures forall i :: |r| <= i < |s| ==> IsSpace(s[i])
  {
    if |s| > 0 && IsSpace(s[|s| - 1]) then TrimEnd(s[..|s| - 1]) else s
  }

  function Trim(s: string): string
  {
    TrimEnd(TrimStart(s))
  }

  function FirstSpace(s: string): (i: nat)
    requires HasSpace(s)
    ensures i < |s| && IsSpace(s[i])
    ensures forall k :: 0 <= k < i ==> !IsSpace(s[k])
  {
    if IsSpace(s[0]) then 0
    else
      assert HasSpace(s[1..]) by {
        var k :| 0 <= k < |s| && IsSpace(s[k]);
        assert s[1..][k - 1] == s[k];
      }
      FirstSpace(s[1..]) + 1
  }

  /** `split(/\s+/)`: the pieces between maximal whitespace runs, at least
      one (the empty string splits into one empty piece). */
  function SplitOnSpaceRuns(s: string): (pieces: seq<string>)
    ensures |pieces| >= 1
    ensures forall k, j :: 0 <= k < |pieces| && 0 <= j < |pieces[k]| ==> !IsSpace(pieces[k][j])
    ensures !HasSpace(s) ==> pieces == [s]
    decreases |s|
  {
    if !HasSpace(s) then [s]
    else
      var i := FirstSpace(s);
      var rest := TrimStart(s[i..]);
      assert forall j :: 0 <= j < i ==> !IsSpace(s[..i][j]);
      [s[..i]] + SplitOnSpaceRuns(rest)
  }

  /** The count the source compares with its bounds. */
  function JsWordCount(text: string): (n: nat)
    ensures n >= 1
    ensures !HasSpace(text) ==> n == 1
  {
    |SplitOnSpaceRuns(Trim(text))|
  }

  /** Position `i` begins a word: a non-space that is first or follows a space. */
  predicate StartsWord(s: string, i: nat)
    requires i < |s|
  {
    !IsSpace(s[i]) && (i == 0 || IsSpace(s[i - 1]))
  }

  /** The number of words of `s`: positions that begin a word. */
  function WordCount(s: string): nat
  {
    if |s| == 0 then 0
    else WordCount(s[..|s| - 1]) + (if StartsWord(s, |s| - 1) then 1 else 0)
  }

  /** The source's count is the number of words, except that text without
      any word still counts as one (the single empty piece). */
  lemma JsWordCountIsWordCount(text: string)
    ensures JsWordCount(text) == if WordCount(text) == 0 then 1 else WordCount(text)
  {
    var left := TrimStart(text);
    var t := TrimEnd(left);
    WordCountTrimStart(text);
    WordCountTrimEnd(left);
    if |t| > 0 {
      assert t[0] == left[0];
    }
    SplitCount(t);
  }

  lemma {:induction false} SplitCount(t: string)
    requires |t| > 0 ==> !IsSpace(t[0]) && !IsSpace(t[|t| - 1])
    ensures |SplitOnSpaceRuns(t)| == if |t| == 0 then 1 else WordCount(t)
    decreases |t|
  {
    if !HasSpace(t) {
      if |t| > 0 {
        WordCountOfWord(t);
      }
    } else {
      var i := FirstSpace(t);
      var tail := t[i..];
      var rest := TrimStart(tail);
      assert |SplitOnSpaceRuns(t)| == 1 + |SplitOnSpaceRuns(rest)| by {
        assert SplitOnSpaceRuns(t) == [t[..i]] + SplitOnSpaceRuns(rest);
      }
      RestIsTrimmed(t, i);
      SplitCount(rest);
      WordThenRest(t, i);
    }
  }

  /** A trimmed text with a space at `i` is the word before `i` followed by
      the words after the whitespace run. */
  lemma WordThenRest(t: string, i: nat)
    requires |t| > 0 && !IsSpace(t[0])
    requires i < |t| && IsSpace(t[i]) && forall k :: 0 <= k < i ==> !IsSpace(t[k])
    ensures WordCount(t) == 1 + WordCount(TrimStart(t[i..]))
  {
    var tail := t[i..];
    assert i > 0;
    WordCountTrimStart(tail);
    FirstWord(t, i);
    WordCountConcat(t[..i], tail);
    assert t[..i] + tail == t;
  }

  /** What follows the first whitespace run of a trimmed text is trimmed too. */
  lemma RestIsTrimmed(t: string, i: nat)
    requires |t| > 0 && !IsSpace(t[|t| - 1])
    requires i < |t| && IsSpace(t[i])
    ensures var rest := TrimStart(t[i..]);
      |rest| > 0 && !IsSpace(rest[0]) && !IsSpace(rest[|rest| - 1])
  {
    var tail := t[i..];
    var rest := TrimStart(tail);
    assert tail[|tail| - 1] == t[|t| - 1];
    assert rest[|rest| - 1] == tail[|tail| - 1];
  }

  /** The text before the first whitespace of a trimmed text is one word. */
  lemma FirstWord(t: string, i: nat)
    requires |t| > 0 && !IsSpace(t[0])
    requires i < |t| && forall k :: 0 <= k < i ==> !IsSpace(t[k])
    ensures i > 0 ==> WordCount(t[..i]) == 1
  {
    if i > 0 {
      assert forall k :: 0 <= k < i ==> !IsSpace(t[..i][k]);
      WordCountOfWord(t[..i]);
    }
  }

  /** A non-empty run without whitespace is one word. */
  lemma {:induction false} WordCountOfWord(w: string)
    requires |w| > 0
    requires forall k :: 0 <= k < |w| ==> !IsSpace(w[k])
    ensures WordCount(w) == 1
  {
    if |w| > 1 {
      WordCountOfWord(w[..|w| - 1]);
    }
  }

  /** Words do not merge across a whitespace boundary. */
  lemma {:induction false} WordCountConcat(w: string, r: string)
    requires |r| > 0 && IsSpace(r[0])
    ensures WordCount(w + r) == WordCount(w) + WordCount(r)
    decreases |r|
  {
    var s := w + r;
    assert s[..|s| - 1] == w + r[..|r| - 1];
    if |r| > 1 {
      WordCountConcat(w, r[..|r| - 1]);
      assert StartsWord(s, |s| - 1) == StartsWord(r, |r| - 1);
    } else {
      assert s[..|s| - 1] == w;
    }
  }

  /** Leading whitespace contributes no word. */
  lemma {:induction false} WordCountTrimStart(s: string)
    ensures WordCount(TrimStart(s)) == WordCount(s)
  {
    if |s| > 0 && IsSpace(s[0]) {
      WordCountTrimStart(s[1..]);
      WordCountSpacePrefix(s[0], s[1..]);
      assert [s[0]] + s[1..] == s;
    }
  }

  lemma {:induction false} WordCountSpacePrefix(c: char, y: string)
    requires IsSpace(c)
    ensures WordCount([c] + y) == WordCount(y)
    decreases |y|
  {
    if |y| > 0 {
      var s := [c] + y;
      assert s[..|s| - 1] == [c] + y[..|y| - 1];
      WordCountSpacePrefix(c, y[..|y| - 1]);
      assert StartsWord(s, |s| - 1) == StartsWord(y, |y| - 1);
    }
  }

  /** Trailing whitespace contributes no word. */
  lemma {:induction false} WordCountTrimEnd(s: string)
    ensures WordCount(TrimEnd(s)) == WordCount(s)
  {
    if |s| > 0 && IsSpace(s[|s| - 1]) {
      WordCountTrimEnd(s[..|s| - 1]);
    }
  }

  /** `pattern` starts at position `i` of `s`. */
  predicate StartsAt(pattern: string, s: string, i: int)
  {
    0 <= i <= |s| - |pattern| && s[i..i + |pattern|] == pattern
  }

  /** Whether `pattern` occurs somewhere in `s`: a regular expression made of
      literal characters only, such as `/\/start/`, matches exactly then. */
  predicate Occurs(pattern: string, s: string)
    decreases |s|
  {
    pattern <= s || (|s| > 0 && Occurs(pattern, s[1..]))
  }

  /** `Occurs` is the search for a position where `pattern` starts. */
  lemma {:induction false} OccursAt(pattern: string, s: string)
    ensures Occurs(pattern, s) <==> exists i :: StartsAt(pattern, s, i)
    decreases |s|
  {
    if pattern <= s {
      assert StartsAt(pattern, s, 0);
    } else if |s| > 0 {
      OccursAt(pattern, s[1..]);
      if Occurs(pattern, s[1..]) {
        var i :| StartsAt(pattern, s[1..], i);
        assert s[1..][i..i + |pattern|] == s[i + 1..i + 1 + |pattern|];
        assert StartsAt(pattern, s, i + 1);
      }
      if exists i :: StartsAt(pattern, s, i) {
        var i :| StartsAt(pattern, s, i);
        assert s[1..][i - 1..i - 1 + |pattern|] == s[i..i + |pattern|];
        assert StartsAt(pattern, s[1..], i - 1);
      }
    }
  }
}
