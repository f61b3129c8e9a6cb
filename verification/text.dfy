/**
 * The JavaScript string built-ins the core relies on, over `seq<char>`:
 * the `\s` class (which is also what `String.prototype.trim` removes),
 * `\d`, ASCII letters, lower-casing, `includes`, `split` on a literal
 * separator, and number-to-decimal conversion for small naturals.
 */
module Text {

  /** ECMAScript LineTerminator: the characters `.` does not match. */
  predicate IsLineTerminator(c: char) {
    c == '\n' || c == '\r' || c == '\U{2028}' || c == '\U{2029}'
  }

  /** ECMAScript WhiteSpace plus LineTerminator: the regex class `\s`. */
  predicate IsSpace(c: char) {
    || IsLineTerminator(c)
    || c == '\t' || c == '\U{000B}' || c == '\U{000C}' || c == ' '
    || c == '\U{00A0}' || c == '\U{FEFF}' || c == '\U{1680}'
    || ('\U{2000}' <= c <= '\U{200A}')
    || c == '\U{202F}' || c == '\U{205F}' || c == '\U{3000}'
  }

  /** The regex class `\d` (ASCII digits only, as in JavaScript). */
  predicate IsDigit(c: char) {
    '0' <= c <= '9'
  }

  /** `[a-zA-Z]`; under the `i` flag without `u` no other character folds onto these. */
  predicate IsAsciiLetter(c: char) {
    ('a' <= c <= 'z') || ('A' <= c <= 'Z')
  }

  predicate AllSpace(s: string) {
    forall k | 0 <= k < |s| :: IsSpace(s[k])
  }

  function LowerChar(c: char): (d: char)
    ensures IsAsciiLetter(c) ==> 'a' <= d <= 'z'
    ensures !('A' <= c <= 'Z') ==> d == c
  {
    if 'A' <= c <= 'Z' then (c as int + 32) as char else c
  }

  /** `toLowerCase`, restricted to ASCII letters. */
  function Lower(s: string): (r: string)
    ensures |r| == |s|
    ensures forall k | 0 <= k < |s| :: r[k] == LowerChar(s[k])
  {
    seq(|s|, k requires 0 <= k < |s| => LowerChar(s[k]))
  }

  /** `sub` occurs in `s` starting at position `k`. */
  predicate OccursAt(s: string, sub: string, k: int) {
    0 <= k && k + |sub| <= |s| && s[k..k + |sub|] == sub
  }

  /** `s.includes(sub)`. */
  predicate Contains(s: string, sub: string) {
    exists k | 0 <= k <= |s| - |sub| :: OccursAt(s, sub, k)
  }

  /** `word` (lower-case) occurs at position `i` of `s`, compared case-insensitively. */
  predicate WordAt(s: string, i: nat, word: string) {
    i + |word| <= |s| && Lower(s[i..i + |word|]) == word
  }

  /** The end of the maximal run of `\s` characters that starts at `i`. */
  function SpaceEnd(s: string, i: nat): (j: nat)
    requires i <= |s|
    ensures i <= j <= |s|
    ensures forall k | i <= k < j :: IsSpace(s[k])
    ensures j == |s| || !IsSpace(s[j])
    decreases |s| - i
  {
    if i < |s| && IsSpace(s[i]) then SpaceEnd(s, i + 1) else i
  }

  /** The start of the maximal run of `\s` characters that ends at `hi`, not going below `lo`. */
  function SpaceStart(s: string, lo: nat, hi: nat): (j: nat)
    requires lo <= hi <= |s|
    ensures lo <= j <= hi
    ensures forall k | j <= k < hi :: IsSpace(s[k])
    ensures j == lo || !IsSpace(s[j - 1])
    decreases hi
  {
    if lo < hi && IsSpace(s[hi - 1]) then SpaceStart(s, lo, hi - 1) else hi
  }

  /** `r` is `s` with white space only before position `a` and after `a + |r|`. */
  predicate TrimmedAt(s: string, r: string, a: int) {
    && 0 <= a && a + |r| <= |s| && s[a..a + |r|] == r
    && (forall k | 0 <= k < a :: IsSpace(s[k]))
    && (forall k | a + |r| <= k < |s| :: IsSpace(s[k]))
  }

  /** `String.prototype.trim`. */
  function Trim(s: string): (r: string)
    ensures TrimmedAt(s, r, SpaceEnd(s, 0))
    ensures |r| == 0 || (!IsSpace(r[0]) && !IsSpace(r[|r| - 1]))
    ensures |r| == 0 <==> AllSpace(s)
  {
    var a := SpaceEnd(s, 0);
    s[a..SpaceStart(s, a, |s|)]
  }

  /** A string with no white space at either end is its own trim. */
  lemma TrimOfTrimmed(s: string)
    requires |s| == 0 || (!IsSpace(s[0]) && !IsSpace(s[|s| - 1]))
    ensures Trim(s) == s
  {
  }

  /** `s.indexOf(sep, from)`: the first occurrence of `sep` at or after `from`, or -1. */
  function IndexOfFrom(s: string, sep: string, from: nat): (r: int)
    requires |sep| > 0 && from <= |s|
    ensures r == -1 || (from <= r && r + |sep| <= |s| && s[r..r + |sep|] == sep)
    ensures forall j | from <= j && (r == -1 || j < r) :: !OccursAt(s, sep, j)
    decreases |s| - from
  {
    if from + |sep| > |s| then -1
    else if s[from..from + |sep|] == sep then from
    else IndexOfFrom(s, sep, from + 1)
  }

  /** `s.split(sep)` for a non-empty literal separator. */
  function Split(s: string, sep: string): (r: seq<string>)
    requires |sep| > 0
    ensures |r| >= 1
    ensures forall k | 0 <= k < |r| :: !Contains(r[k], sep)
    ensures forall k | 0 <= k < |r| - 1 :: !Contains(r[k] + sep[..|sep| - 1], sep)
    decreases |s|
  {
    var i := IndexOfFrom(s, sep, 0);
    if i < 0 then
      [s]
    else
      var head := s[..i];
      assert !Contains(head, sep) by {
        forall j | 0 <= j <= |head| - |sep|
          ensures !OccursAt(head, sep, j)
        {
          assert head[j..j + |sep|] == s[j..j + |sep|];
          assert !OccursAt(s, sep, j);
        }
      }
      FirstOccurrenceCut(s, sep, i);
      [head] + Split(s[i + |sep|..], sep)
  }

  /**
   * Cutting at the first occurrence: the piece before it, followed by all but
   * the last character of the separator, still holds no occurrence, so no
   * occurrence starts inside the piece or straddles the cut.
   */
  lemma FirstOccurrenceCut(s: string, sep: string, i: nat)
    requires |sep| > 0 && i == IndexOfFrom(s, sep, 0)
    ensures !Contains(s[..i] + sep[..|sep| - 1], sep)
  {
    var t := s[..i] + sep[..|sep| - 1];
    assert t == s[..i + |sep| - 1];
    forall j | 0 <= j <= |t| - |sep|
      ensures !OccursAt(t, sep, j)
    {
      assert t[j..j + |sep|] == s[j..j + |sep|];
      assert !OccursAt(s, sep, j);
    }
  }

  /** A run of three line breaks is cut at its first two: "a\n\n\nb" gives "a" and "\nb". */
  lemma SplitCutsAtFirstOccurrence()
    ensures Split("a\n\n\nb", "\n\n") == ["a", "\nb"]
  {
    var s, sep := "a\n\n\nb", "\n\n";
    assert s[0..2][0] != sep[0] && s[1..3] == sep;
    assert IndexOfFrom(s, sep, 0) == 1;
    var rest := s[3..];
    assert rest == "\nb";
    assert rest[0..2][1] != sep[1];
    assert IndexOfFrom(rest, sep, 0) == -1;
    assert Split(rest, sep) == [rest];
    assert s[..1] == "a";
    assert Split(s, sep) == [s[..1]] + Split(s[1 + |sep|..], sep);
  }

  /** `pieces.join(sep)`. */
  function Join(pieces: seq<string>, sep: string): string {
    if |pieces| == 0 then ""
    else if |pieces| == 1 then pieces[0]
    else pieces[0] + sep + Join(pieces[1..], sep)
  }

  /** Splitting on a separator and joining with it gives the text back. */
  lemma {:induction false} JoinSplit(s: string, sep: string)
    requires |sep| > 0
    ensures Join(Split(s, sep), sep) == s
    decreases |s|
  {
    var i := IndexOfFrom(s, sep, 0);
    if i >= 0 {
      var rest := s[i + |sep|..];
      var tail := Split(rest, sep);
      JoinSplit(rest, sep);
      assert Split(s, sep) == [s[..i]] + tail;
      JoinCons(s[..i], tail, sep);
      assert s == s[..i] + sep + rest;
    }
  }

  lemma JoinCons(head: string, tail: seq<string>, sep: string)
    requires |tail| > 0
    ensures Join([head] + tail, sep) == head + sep + Join(tail, sep)
  {
    assert ([head] + tail)[1..] == tail;
  }

  /** The first position at or after `i` holding a `\s` character, or `|s|`. */
  function NextSpace(s: string, i: nat): (j: nat)
    requires i <= |s|
    ensures i <= j <= |s|
    ensures forall k | i <= k < j :: !IsSpace(s[k])
    ensures j == |s| || IsSpace(s[j])
    decreases |s| - i
  {
    if i == |s| || IsSpace(s[i]) then i else NextSpace(s, i + 1)
  }

  /** `s.split(/\s+/)`: the pieces between maximal runs of `\s`; leading and trailing runs give empty pieces. */
  function SplitSpaces(s: string): (r: seq<string>)
    ensures |r| >= 1
    ensures forall k | 0 <= k < |r| :: forall j | 0 <= j < |r[k]| :: !IsSpace(r[k][j])
    decreases |s|
  {
    var i := NextSpace(s, 0);
    if i == |s| then
      [s]
    else
      var head := s[..i];
      assert forall j | 0 <= j < |head| :: !IsSpace(head[j]);
      [head] + SplitSpaces(s[SpaceEnd(s, i)..])
  }

  /** The concatenation of a list of strings. */
  function Concat(pieces: seq<string>): string {
    if |pieces| == 0 then "" else pieces[0] + Concat(pieces[1..])
  }

  /** `s` with every `\s` character removed. */
  function RemoveSpaces(s: string): (r: string)
    ensures forall k | 0 <= k < |r| :: !IsSpace(r[k])
  {
    if |s| == 0 then ""
    else if IsSpace(s[0]) then RemoveSpaces(s[1..])
    else [s[0]] + RemoveSpaces(s[1..])
  }

  lemma {:induction false} RemoveSpacesAppend(a: string, b: string)
    ensures RemoveSpaces(a + b) == RemoveSpaces(a) + RemoveSpaces(b)
  {
    if |a| > 0 {
      assert (a + b)[1..] == a[1..] + b;
      RemoveSpacesAppend(a[1..], b);
    } else {
      assert a + b == b;
    }
  }

  lemma {:induction false} RemoveSpacesOfWord(a: string)
    requires forall k | 0 <= k < |a| :: !IsSpace(a[k])
    ensures RemoveSpaces(a) == a
  {
    if |a| > 0 {
      RemoveSpacesOfWord(a[1..]);
    }
  }

  lemma {:induction false} RemoveSpacesOfBlank(a: string)
    requires AllSpace(a)
    ensures RemoveSpaces(a) == ""
  {
    if |a| > 0 {
      RemoveSpacesOfBlank(a[1..]);
    }
  }

  /** Splitting on white space loses exactly the white space: the pieces, concatenated, are the other characters in order. */
  lemma {:induction false} SplitSpacesKeepsText(s: string)
    ensures Concat(SplitSpaces(s)) == RemoveSpaces(s)
    decreases |s|
  {
    var i := NextSpace(s, 0);
    if i == |s| {
      RemoveSpacesOfWord(s);
      assert Concat([s]) == s + Concat([]);
    } else {
      var e := SpaceEnd(s, i);
      var head, gap, rest := s[..i], s[i..e], s[e..];
      assert s == head + gap + rest;
      assert RemoveSpaces(s) == head + RemoveSpaces(rest) by {
        RemoveSpacesAppend(head + gap, rest);
        RemoveSpacesAppend(head, gap);
        RemoveSpacesOfWord(head);
        RemoveSpacesOfBlank(gap);
      }
      var tail := SplitSpaces(rest);
      assert Concat(SplitSpaces(s)) == head + Concat(tail) by {
        var pieces := [head] + tail;
        assert SplitSpaces(s) == pieces;
        assert pieces[1..] == tail;
      }
      SplitSpacesKeepsText(rest);
    }
  }

  predicate NoSpace(w: string) {
    forall j | 0 <= j < |w| :: !IsSpace(w[j])
  }

  /** `pieces[0] + gaps[0] + pieces[1] + ... + pieces[n - 1]`. */
  function Weave(pieces: seq<string>, gaps: seq<string>): string
    requires |pieces| == |gaps| + 1
    decreases |gaps|
  {
    if |gaps| == 0 then pieces[0] else pieces[0] + gaps[0] + Weave(pieces[1..], gaps[1..])
  }

  /**
   * `s` is `pieces` separated by `gaps`, each gap a non-empty run of `\s`, no
   * piece holding white space, and only the first and the last piece empty: so
   * every gap is a maximal run of white space in `s`.
   */
  predicate CutAtSpaceRuns(s: string, pieces: seq<string>, gaps: seq<string>) {
    && |pieces| == |gaps| + 1
    && (forall k | 0 <= k < |pieces| :: NoSpace(pieces[k]))
    && (forall k | 0 < k < |pieces| - 1 :: |pieces[k]| > 0)
    && (forall k | 0 <= k < |gaps| :: |gaps[k]| > 0 && AllSpace(gaps[k]))
    && Weave(pieces, gaps) == s
  }

  /** A word without white space is its own split. */
  lemma SplitSpacesOfWord(s: string)
    requires NoSpace(s)
    ensures SplitSpaces(s) == [s]
  {
    assert NextSpace(s, 0) == |s|;
  }

  /** A word, a maximal run of white space, and the rest: the split cuts after the word and goes on after the run. */
  lemma SplitSpacesAtRun(s: string, head: string, gap: string, rest: string)
    requires NoSpace(head) && |gap| > 0 && AllSpace(gap) && s == head + gap + rest
    requires |rest| == 0 || !IsSpace(rest[0])
    ensures SplitSpaces(s) == [head] + SplitSpaces(rest)
  {
    var e := |head| + |gap|;
    assert IsSpace(s[|head|]);
    assert NextSpace(s, 0) == |head|;
    assert forall k | |head| <= k < e :: IsSpace(s[k]);
    assert e == |s| || s[e] == rest[0];
    assert SpaceEnd(s, |head|) == e;
    assert s[..|head|] == head && s[e..] == rest;
  }

  /** A piece and a gap in front of a cut give a cut of the longer text. */
  lemma CutCons(s: string, head: string, gap: string, rest: string, tail: seq<string>, gaps: seq<string>)
    requires CutAtSpaceRuns(rest, tail, gaps)
    requires NoSpace(head) && |gap| > 0 && AllSpace(gap) && s == head + gap + rest
    requires |tail| > 1 ==> |tail[0]| > 0
    ensures CutAtSpaceRuns(s, [head] + tail, [gap] + gaps)
  {
    var pieces, gaps2 := [head] + tail, [gap] + gaps;
    assert pieces[1..] == tail && gaps2[1..] == gaps;
    assert forall k | 0 < k < |pieces| :: pieces[k] == tail[k - 1];
    assert forall k | 0 < k < |gaps2| :: gaps2[k] == gaps[k - 1];
  }

  /** The first piece and gap of a cut, and the cut of what follows them. */
  lemma CutUncons(s: string, pieces: seq<string>, gaps: seq<string>) returns (rest: string)
    requires CutAtSpaceRuns(s, pieces, gaps) && |gaps| > 0
    ensures rest == Weave(pieces[1..], gaps[1..])
    ensures NoSpace(pieces[0]) && |gaps[0]| > 0 && AllSpace(gaps[0]) && s == pieces[0] + gaps[0] + rest
    ensures |rest| == 0 || !IsSpace(rest[0])
    ensures CutAtSpaceRuns(rest, pieces[1..], gaps[1..])
  {
    rest := Weave(pieces[1..], gaps[1..]);
    assert forall k | 0 <= k < |pieces| - 1 :: pieces[1..][k] == pieces[k + 1];
    assert forall k | 0 <= k < |gaps| - 1 :: gaps[1..][k] == gaps[k + 1];
    if |pieces| == 2 {
      assert rest == pieces[1] && NoSpace(pieces[1]);
    } else {
      assert |pieces[1]| > 0 && NoSpace(pieces[1]) && rest[0] == pieces[1][0];
    }
  }

  /** The pieces of `SplitSpaces` are cut out of `s` at maximal runs of white space. */
  lemma {:induction false} SplitSpacesCutsAtRuns(s: string)
    ensures exists gaps :: CutAtSpaceRuns(s, SplitSpaces(s), gaps)
    decreases |s|
  {
    var i := NextSpace(s, 0);
    if i == |s| {
      SplitSpacesOfWord(s);
      assert CutAtSpaceRuns(s, [s], []);
    } else {
      var e := SpaceEnd(s, i);
      var head, gap, rest := s[..i], s[i..e], s[e..];
      assert s == head + gap + rest;
      SplitSpacesAtRun(s, head, gap, rest);
      SplitSpacesCutsAtRuns(rest);
      var tail := SplitSpaces(rest);
      var gaps :| CutAtSpaceRuns(rest, tail, gaps);
      if |tail| > 1 {
        if |rest| == 0 {
          SplitSpacesOfWord(rest);
        } else {
          assert NextSpace(rest, 0) > 0;
        }
      }
      CutCons(s, head, gap, rest, tail, gaps);
      assert CutAtSpaceRuns(s, SplitSpaces(s), [gap] + gaps);
    }
  }

  /** Conversely, any such cut of `s` is the one `SplitSpaces` makes. */
  lemma {:induction false} SplitSpacesIsTheCut(s: string, pieces: seq<string>, gaps: seq<string>)
    requires CutAtSpaceRuns(s, pieces, gaps)
    ensures SplitSpaces(s) == pieces
    decreases |gaps|
  {
    if |gaps| == 0 {
      SplitSpacesOfWord(s);
    } else {
      var rest := CutUncons(s, pieces, gaps);
      SplitSpacesAtRun(s, pieces[0], gaps[0], rest);
      SplitSpacesIsTheCut(rest, pieces[1..], gaps[1..]);
    }
  }

  function DigitChar(d: nat): (c: char)
    requires d < 10
    ensures IsDigit(c)
  {
    ('0' as int + d) as char
  }

  /** Decimal rendering of a natural number, as template literals render it. */
  function NatToString(n: nat): (r: string)
    ensures |r| >= 1
    ensures forall k | 0 <= k < |r| :: IsDigit(r[k])
  {
    if n < 10 then [DigitChar(n)] else NatToString(n / 10) + [DigitChar(n % 10)]
  }
}

/** `Array.prototype.slice` index arithmetic. */
module Js {

  /** How `slice` resolves a relative index against a length: negatives count from the end. */
  function RelativeIndex(rel: int, len: nat): (k: nat)
    ensures k <= len
  {
    if rel < 0 then (if len + rel < 0 then 0 else len + rel)
    else if rel < len then rel else len
  }

  /** `s.slice(start)`. */
  function SliceFrom<T>(s: seq<T>, start: int): seq<T> {
    s[RelativeIndex(start, |s|)..]
  }

  /** `s.slice(0, end)`. */
  function SliceTo<T>(s: seq<T>, end: int): seq<T> {
    s[..RelativeIndex(end, |s|)]
  }
}
