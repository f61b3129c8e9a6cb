/**
 * The handful of regular expressions the core uses, as scanners. Each pattern
 * is a phrase of lower-case words separated and followed by `\s+`, matched
 * case-insensitively (under `i` without `u` only ASCII letters fold), or an
 * arithmetic shape. Every word starts with a letter, so a greedy `\s+` never
 * gives back a character to let the next word match: the scanners take the
 * maximal run and there is nothing to backtrack over.
 */
module Patterns {
  import opened Text
  import opened Wrappers

  /** The end of a match of `w1\s+w2\s+...wn\s+` that starts at `i`, if there is one. */
  function MatchWords(s: string, i: nat, words: seq<string>): (r: Option<nat>)
    requires i <= |s|
    ensures r.Some? ==> i <= r.value <= |s|
    ensures r.Some? && |words| > 0 ==>
      && WordAt(s, i, words[0])
      && i + |words[0]| < r.value
      && IsSpace(s[r.value - 1])
      && (r.value == |s| || !IsSpace(s[r.value]))
    decreases |words|
  {
    if |words| == 0 then Some(i)
    else
      var e := i + |words[0]|;
      if WordAt(s, i, words[0]) && e < |s| && IsSpace(s[e]) then
        var j := SpaceEnd(s, e);
        var rest := MatchWords(s, j, words[1..]);
        if rest.Some? && |words| > 1 then assert WordAt(s, j, words[1]); rest else rest
      else None
  }

  /** A word followed by white space: the match goes on after the whole run of it. */
  lemma MatchWordsStep(s: string, i: nat, words: seq<string>)
    requires i <= |s| && |words| > 0
    requires WordAt(s, i, words[0]) && i + |words[0]| < |s| && IsSpace(s[i + |words[0]|])
    ensures MatchWords(s, i, words) == MatchWords(s, SpaceEnd(s, i + |words[0]|), words[1..])
  {
  }

  /** A word with no upper-case letter, written out in `s`, matches there. */
  lemma WordWrittenAt(s: string, i: nat, word: string)
    requires i + |word| <= |s| && s[i..i + |word|] == word
    requires forall k | 0 <= k < |word| :: !('A' <= word[k] <= 'Z')
    ensures WordAt(s, i, word)
  {
    assert Lower(s[i..i + |word|]) == word;
  }

  /** The leftmost match of the phrase at or after `from`: its start and end. */
  function FindWords(s: string, words: seq<string>, from: nat): (r: Option<(nat, nat)>)
    requires from <= |s|
    ensures r.Some? ==> from <= r.value.0 <= |s| && MatchWords(s, r.value.0, words) == Some(r.value.1)
    ensures r.Some? ==> forall j | from <= j < r.value.0 :: MatchWords(s, j, words).None?
    ensures r.None? ==> forall j | from <= j <= |s| :: MatchWords(s, j, words).None?
    decreases |s| - from
  {
    match MatchWords(s, from, words)
    case Some(e) => Some((from, e))
    case None => if from == |s| then None else FindWords(s, words, from + 1)
  }

  /** `s.replace(/w1\s+...wn\s+/i, '')`: the leftmost match, and only it, is deleted. */
  function RemoveFirst(s: string, words: seq<string>): string {
    match FindWords(s, words, 0)
    case None => s
    case Some((a, b)) => s[..a] + s[b..]
  }

  /**
   * What `RemoveFirst` deletes: nothing when the phrase does not occur; otherwise
   * one stretch starting with the phrase's first word, ending in white space,
   * with no match anywhere before it.
   */
  lemma RemoveFirstDeletesLeftmost(s: string, words: seq<string>)
    requires |words| > 0
    ensures FindWords(s, words, 0).None? ==> RemoveFirst(s, words) == s
    ensures FindWords(s, words, 0).Some? ==>
      exists a, b | 0 <= a < b <= |s| ::
        && RemoveFirst(s, words) == s[..a] + s[b..]
        && MatchWords(s, a, words) == Some(b)
        && WordAt(s, a, words[0])
        && IsSpace(s[b - 1])
        && |RemoveFirst(s, words)| < |s|
        && forall j | 0 <= j < a :: MatchWords(s, j, words).None?
  {
    if FindWords(s, words, 0).Some? {
      var (a, b) := FindWords(s, words, 0).value;
      assert RemoveFirst(s, words) == s[..a] + s[b..];
    }
  }

  /** A word cannot match where one of its letters meets a different character. */
  lemma NotWordAt(s: string, j: nat, word: string, m: nat)
    requires m < |word|
    requires j + m < |s| ==> LowerChar(s[j + m]) != word[m]
    ensures !WordAt(s, j, word)
  {
    if j + |word| <= |s| {
      assert Lower(s[j..j + |word|])[m] == LowerChar(s[j + m]);
    }
  }

  /** A phrase whose first word's first letter never occurs is never removed. */
  lemma AbsentInitial(s: string, words: seq<string>)
    requires |words| > 0 && |words[0]| > 0
    requires forall k | 0 <= k < |s| :: LowerChar(s[k]) != words[0][0]
    ensures RemoveFirst(s, words) == s
  {
    forall j | 0 <= j <= |s|
      ensures MatchWords(s, j, words).None?
    {
      NotWordAt(s, j, words[0], 0);
    }
  }

  /** A phrase whose first word's first letter is never followed by its second letter is never removed. */
  lemma AbsentOpening(s: string, words: seq<string>)
    requires |words| > 0 && |words[0]| > 1
    requires forall k | 0 <= k < |s| - 1 :: LowerChar(s[k]) == words[0][0] ==> LowerChar(s[k + 1]) != words[0][1]
    ensures RemoveFirst(s, words) == s
  {
    forall j | 0 <= j <= |s|
      ensures MatchWords(s, j, words).None?
    {
      if j < |s| - 1 && LowerChar(s[j]) == words[0][0] {
        NotWordAt(s, j, words[0], 1);
      } else if j < |s| {
        if LowerChar(s[j]) != words[0][0] {
          NotWordAt(s, j, words[0], 0);
        } else {
          NotWordAt(s, j, words[0], 1);
        }
      } else {
        NotWordAt(s, j, words[0], 0);
      }
    }
  }

  predicate IsOperator(c: char) {
    c == '+' || c == '-' || c == '*' || c == '/'
  }

  /** A digit at `a` followed, across optional white space, by an operator and, across more, a digit. */
  predicate DigitOpDigitAt(s: string, a: nat) {
    && a < |s| && IsDigit(s[a])
    && var o := SpaceEnd(s, a + 1);
    && o < |s| && IsOperator(s[o])
    && var d := SpaceEnd(s, o + 1);
    && d < |s| && IsDigit(s[d])
  }

  /**
   * Whether `\d+\s*[+\-*\/]\s*\d+` (or the same with optional `\.\d+` decimals)
   * matches anywhere: a match ends its first number with a digit and the
   * operator and second digit are not white space, so the spaces in between are
   * maximal runs and a single digit on each side is enough.
   */
  predicate DigitOpDigit(s: string) {
    exists a | 0 <= a < |s| :: DigitOpDigitAt(s, a)
  }
}
