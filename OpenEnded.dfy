/** The open-ended question: the word count of the answer, and its status
    against optional minimum and maximum word counts. */
module OpenEnded {
  import opened Util

  /** The whitespace the word splitter breaks on (the ASCII members of
      JavaScript's `\s`). */
  predicate IsSpace(c: char)
  {
    c == ' ' || c == '\t' || c == '\n' || c == '\r' || c as int == 11 || c as int == 12
  }

  // ---------------------------------------------------------------- trim, split on whitespace, keep the non-empty words

  function TrimStart(s: string): (r: string)
    ensures |r| <= |s|
  {
    if s != [] && IsSpace(s[0]) then TrimStart(s[1..]) else s
  }

  function TrimEnd(s: string): (r: string)
    ensures |r| <= |s|
  {
    if s != [] && IsSpace(s[|s| - 1]) then TrimEnd(s[..|s| - 1]) else s
  }

  /** `s.trim()`. */
  function Trim(s: string): string
  {
    TrimEnd(TrimStart(s))
  }

  /** The pieces between whitespace characters. Splitting on runs of
      whitespace, as `split(/\s+/)` does, gives the same pieces once the empty
      ones are dropped. */
  function SplitSpaces(s: string): (parts: seq<string>)
    ensures |parts| >= 1
    ensures forall i, j :: 0 <= i < |parts| && 0 <= j < |parts[i]| ==> !IsSpace(parts[i][j])
  {
    if s == [] then [[]]
    else
      var rest := SplitSpaces(s[1..]);
      if IsSpace(s[0]) then [[]] + rest
      else
        assert forall j :: 1 <= j < |[s[0]] + rest[0]| ==> ([s[0]] + rest[0])[j] == rest[0][j - 1];
        [[s[0]] + rest[0]] + rest[1..]
  }

  /** `filter((word) => word.length > 0)`. */
  function NonEmpty(parts: seq<string>): (r: seq<string>)
    ensures forall i :: 0 <= i < |r| ==> |r[i]| > 0
  {
    if parts == [] then []
    else (if |parts[0]| > 0 then [parts[0]] else []) + NonEmpty(parts[1..])
  }

  /** The word count the component shows: 0 for an absent or empty answer,
      otherwise the number of non-empty pieces of the trimmed answer. */
  function WordCount(answer: Option<string>): nat
  {
    if answer.None? || answer.value == [] then 0 else |NonEmpty(SplitSpaces(Trim(answer.value)))|
  }

  /** The character count: the answer's length, 0 when absent. */
  function CharCount(answer: Option<string>): nat
  {
    if answer.None? then 0 else |answer.value|
  }

  // ---------------------------------------------------------------- reference count

  /** The number of positions where a word starts: a non-space character
      that is first or follows a space (`afterSpace` says whether the
      position before `s` counts as a space). */
  function WordStarts(s: string, afterSpace: bool): nat
  {
    if s == [] then 0
    else (if !IsSpace(s[0]) && afterSpace then 1 else 0) + WordStarts(s[1..], IsSpace(s[0]))
  }

  lemma NonEmptyCons(x: string, rest: seq<string>)
    ensures |NonEmpty([x] + rest)| == (if |x| > 0 then 1 else 0) + |NonEmpty(rest)|
  {
    assert ([x] + rest)[1..] == rest;
  }

  /** The pieces of a split count the word starts; the pieces after the
      first count the word starts of a text that continues a word. */
  lemma {:induction false} SplitCountsWordStarts(t: string)
    ensures |NonEmpty(SplitSpaces(t))| == WordStarts(t, true)
    ensures |NonEmpty(SplitSpaces(t)[1..])| == WordStarts(t, false)
  {
    if t != [] {
      SplitCountsWordStarts(t[1..]);
      var rest := SplitSpaces(t[1..]);
      if IsSpace(t[0]) {
        NonEmptyCons([], rest);
        assert ([[]] + rest)[1..] == rest;
      } else {
        NonEmptyCons([t[0]] + rest[0], rest[1..]);
        assert ([[t[0]] + rest[0]] + rest[1..])[1..] == rest[1..];
      }
    }
  }

  lemma {:induction false} TrimStartKeepsWordStarts(s: string)
    ensures WordStarts(TrimStart(s), true) == WordStarts(s, true)
  {
    if s != [] && IsSpace(s[0]) {
      TrimStartKeepsWordStarts(s[1..]);
    }
  }

  /** A trailing space starts no word. */
  lemma {:induction false} DropLastSpace(s: string, afterSpace: bool)
    requires s != [] && IsSpace(s[|s| - 1])
    ensures WordStarts(s[..|s| - 1], afterSpace) == WordStarts(s, afterSpace)
  {
    if |s| > 1 {
      assert s[..|s| - 1][1..] == s[1..][..|s[1..]| - 1];
      DropLastSpace(s[1..], IsSpace(s[0]));
    }
  }

  lemma {:induction false} TrimEndKeepsWordStarts(s: string)
    ensures WordStarts(TrimEnd(s), true) == WordStarts(s, true)
    decreases |s|
  {
    if s != [] && IsSpace(s[|s| - 1]) {
      DropLastSpace(s, true);
      TrimEndKeepsWordStarts(s[..|s| - 1]);
    }
  }

  /** The component's word count is the number of word starts in the
      answer: trimming and empty pieces never change it. */
  lemma WordCountIsWordStarts(answer: string)
    ensures WordCount(Some(answer)) == WordStarts(answer, true)
  {
    TrimStartKeepsWordStarts(answer);
    TrimEndKeepsWordStarts(TrimStart(answer));
    SplitCountsWordStarts(Trim(answer));
  }

  /** Whitespace holds no word start. */
  lemma {:induction false} BlankHasNoWordStarts(s: string, afterSpace: bool)
    requires forall i :: 0 <= i < |s| ==> IsSpace(s[i])
    ensures WordStarts(s, afterSpace) == 0
  {
    if s != [] {
      assert forall i :: 0 <= i < |s[1..]| ==> s[1..][i] == s[i + 1];
      BlankHasNoWordStarts(s[1..], IsSpace(s[0]));
    }
  }

  /** Text made only of whitespace has no words. */
  lemma BlankHasNoWords(s: string)
    requires forall i :: 0 <= i < |s| ==> IsSpace(s[i])
    ensures WordCount(Some(s)) == 0
  {
    WordCountIsWordStarts(s);
    BlankHasNoWordStarts(s, true);
  }

  /** An example: two words separated by a run of spaces, with spaces
      around. */
  lemma TwoWords()
    ensures WordCount(Some(" a  b ")) == 2
  {
    var s := " a  b ";
    WordCountIsWordStarts(s);
    assert s[1..] == "a  b ";
    assert s[1..][1..] == "  b ";
    assert s[1..][1..][1..] == " b ";
    assert s[1..][1..][1..][1..] == "b ";
    assert s[1..][1..][1..][1..][1..] == " ";
  }

  lemma {:induction false} WordStartsAtMostLength(s: string, afterSpace: bool)
    ensures WordStarts(s, afterSpace) <= |s|
  {
    if s != [] {
      WordStartsAtMostLength(s[1..], IsSpace(s[0]));
    }
  }

  /** Words never outnumber characters. */
  lemma WordsAtMostChars(answer: Option<string>)
    ensures WordCount(answer) <= CharCount(answer)
  {
    if answer.Some? {
      WordCountIsWordStarts(answer.value);
      WordStartsAtMostLength(answer.value, true);
    }
  }

  // ---------------------------------------------------------------- limits

  /** A bound is set when it is present and not 0 (`question.minWords &&`). */
  predicate IsSet(bound: Option<nat>)
  {
    bound.Some? && bound.value > 0
  }

  /** `isWordCountValid`. */
  function IsWordCountValid(count: nat, minWords: Option<nat>, maxWords: Option<nat>): bool
  {
    if IsSet(minWords) && count < minWords.value then false
    else if IsSet(maxWords) && count > maxWords.value then false
    else true
  }

  datatype Status = Neutral | Insufficient | Excessive | Valid

  /** `getWordCountStatus`: neutral without limits; otherwise a missing
      minimum is reported before an excess. The status allows the answer
      (neutral or valid) exactly when `isWordCountValid` holds, and the
      messages name a positive number of missing or surplus words. */
  function WordCountStatus(count: nat, minWords: Option<nat>, maxWords: Option<nat>): (st: Status)
    ensures st in {Neutral, Valid} <==> IsWordCountValid(count, minWords, maxWords)
    ensures st == Neutral <==> !IsSet(minWords) && !IsSet(maxWords)
    ensures st == Insufficient <==> IsSet(minWords) && count < minWords.value
    ensures st == Excessive <==>
      IsSet(maxWords) && count > maxWords.value && !(IsSet(minWords) && count < minWords.value)
    ensures st == Insufficient ==> IsSet(minWords) && minWords.value - count >= 1
    ensures st == Excessive ==> IsSet(maxWords) && count - maxWords.value >= 1
    ensures st == Valid ==>
      (IsSet(minWords) ==> count >= minWords.value) && (IsSet(maxWords) ==> count <= maxWords.value)
  {
    if !IsSet(minWords) && !IsSet(maxWords) then Neutral
    else if IsSet(minWords) && count < minWords.value then Insufficient
    else if IsSet(maxWords) && count > maxWords.value then Excessive
    else Valid
  }
}
