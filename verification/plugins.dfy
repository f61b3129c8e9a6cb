/**
 * `PluginDetector.detectAndExecute`: the weather pattern first, then the
 * three arithmetic patterns, else nothing. The weather plugin reads the
 * environment and calls a web service, so it is the parameter `lookup`,
 * giving the output text and whether the lookup succeeded.
 */
module Plugins {
  import opened Types
  import opened Text
  import opened Wrappers
  import opened Patterns
  import MathPlugin

  const WeatherIn: seq<string> := ["weather", "in"]

  /** The class `[a-zA-Z\s]` (under `i`, still only ASCII letters). */
  predicate IsCityChar(c: char) {
    IsAsciiLetter(c) || IsSpace(c)
  }

  /** The end of the maximal run of city characters starting at `i`. */
  function CityEnd(s: string, i: nat): (k: nat)
    requires i <= |s|
    ensures i <= k <= |s|
    ensures forall j | i <= j < k :: IsCityChar(s[j])
    ensures k == |s| || !IsCityChar(s[k])
    decreases |s| - i
  {
    if i < |s| && IsCityChar(s[i]) then CityEnd(s, i + 1) else i
  }

  /**
   * The capture of `weather\s+in\s+([a-zA-Z\s]+)` for a match starting at `i`.
   * After the greedy `\s+` a letter starts the greedy capture. Otherwise the
   * engine backtracks: if that `\s+` took at least two characters it gives
   * the last one back, and the capture is that single white-space character.
   */
  function WeatherCaptureAt(s: string, i: nat): (r: Option<string>)
    requires i <= |s|
    ensures r.Some? ==> |r.value| >= 1 && forall k | 0 <= k < |r.value| :: IsCityChar(r.value[k])
    ensures r.Some? ==> MatchWords(s, i, WeatherIn).Some?
  {
    match MatchWords(s, i, WeatherIn)
    case None => None
    case Some(j) =>
      if j < |s| && IsAsciiLetter(s[j]) then Some(s[j..CityEnd(s, j)])
      else if j >= 2 && IsSpace(s[j - 2]) then
        assert |WeatherIn| > 0 && IsSpace(s[j - 1]);
        Some(s[j - 1..j])
      else None
  }

  /**
   * What is captured where the phrase matches and ends at `j`: the greedy run of
   * letters and white space when a letter follows, else the last white-space
   * character of the phrase when its final run has at least two, else nothing.
   */
  lemma WeatherCaptureAtPhraseEnd(s: string, i: nat, j: nat)
    requires i <= |s| && MatchWords(s, i, WeatherIn) == Some(j)
    ensures j < |s| && IsAsciiLetter(s[j]) ==> WeatherCaptureAt(s, i) == Some(s[j..CityEnd(s, j)])
    ensures !(j < |s| && IsAsciiLetter(s[j])) ==>
      && (WeatherCaptureAt(s, i).Some? <==> j >= 2 && IsSpace(s[j - 2]))
      && (WeatherCaptureAt(s, i).Some? ==> WeatherCaptureAt(s, i).value == [s[j - 1]])
  {
  }

  /** The first present `f(i)` for `i` from `lo` up to `hi`: a left-to-right search. */
  function FirstPresent<T>(f: nat -> Option<T>, lo: nat, hi: nat): (r: Option<T>)
    requires lo <= hi
    ensures r.None? ==> forall i | lo <= i <= hi :: f(i).None?
    ensures r.Some? ==> exists i | lo <= i <= hi :: f(i) == r && forall j | lo <= j < i :: f(j).None?
    decreases hi - lo
  {
    if f(lo).Some? then f(lo)
    else if lo == hi then None
    else FirstPresent(f, lo + 1, hi)
  }

  /** A search finds the leftmost present value, whatever lies after it. */
  lemma {:induction false} FirstPresentIsLeftmost<T>(f: nat -> Option<T>, lo: nat, hi: nat, i: nat)
    requires lo <= i <= hi && f(i).Some?
    requires forall j | lo <= j < i :: f(j).None?
    ensures FirstPresent(f, lo, hi) == f(i)
    decreases i - lo
  {
    if lo < i {
      assert f(lo).None?;
      FirstPresentIsLeftmost(f, lo + 1, hi, i);
    }
  }

  /** The capture at every position, none past the end. */
  function CaptureAt(s: string): nat -> Option<string> {
    (i: nat) => if i <= |s| then WeatherCaptureAt(s, i) else None
  }

  /** `message.match(...)`: the capture at the leftmost position where the weather pattern matches. */
  function WeatherCapture(s: string): (r: Option<string>)
    ensures r.Some? ==> |r.value| >= 1 && forall k | 0 <= k < |r.value| :: IsCityChar(r.value[k])
    ensures r.None? ==> forall i | 0 <= i <= |s| :: CaptureAt(s)(i).None?
    ensures r.Some? ==> exists i | 0 <= i <= |s| ::
      CaptureAt(s)(i) == r && forall j | 0 <= j < i :: CaptureAt(s)(j).None?
  {
    FirstPresent(CaptureAt(s), 0, |s|)
  }

  /** `match` reports the leftmost position where the pattern matches: the capture made there. */
  lemma WeatherCaptureIsLeftmost(s: string, i: nat)
    requires i <= |s| && WeatherCaptureAt(s, i).Some?
    requires forall j | 0 <= j < i :: WeatherCaptureAt(s, j).None?
    ensures WeatherCapture(s) == WeatherCaptureAt(s, i)
  {
    FirstPresentIsLeftmost(CaptureAt(s), 0, |s|, i);
  }

  /** The trimmed capture, when it is not blank: the city handed to the weather plugin. */
  function City(message: string): (r: Option<string>)
    ensures r.Some? ==> |r.value| > 0 && forall k | 0 <= k < |r.value| :: IsCityChar(r.value[k])
    ensures r.Some? ==> WeatherCapture(message).Some? && r.value == Trim(WeatherCapture(message).value)
    ensures r.None? <==> WeatherCapture(message).None? || AllSpace(WeatherCapture(message).value)
  {
    var capture := WeatherCapture(message);
    if capture.Some? && |Trim(capture.value)| > 0 then
      TrimKeepsCityChars(capture.value);
      Some(Trim(capture.value))
    else None
  }

  lemma TrimKeepsCityChars(c: string)
    requires forall k | 0 <= k < |c| :: IsCityChar(c[k])
    ensures forall k | 0 <= k < |Trim(c)| :: IsCityChar(Trim(c)[k])
  {
    var t := Trim(c);
    assert forall k | 0 <= k < |t| :: t[k] == c[SpaceEnd(c, 0) + k];
  }

  predicate NoLineBreak(s: string, lo: int, hi: int)
    requires 0 <= lo <= hi <= |s|
  {
    forall k | lo <= k < hi :: !IsLineTerminator(s[k])
  }

  /** `(.+)` can start at `t`: `.` matches anything but a line terminator. */
  predicate AnyAt(s: string, t: int) {
    0 <= t < |s| && !IsLineTerminator(s[t])
  }

  /** `calculate\s+(.+)` matches at `i`: the `\s+` may stop anywhere in its run before `.+` starts. */
  predicate CalculateAt(s: string, i: nat) {
    && WordAt(s, i, "calculate")
    && exists t | i + 9 < t <= SpaceEnd(s, i + 9) :: AnyAt(s, t)
  }

  /** `(\s*)[+\-*\/]\s*(.+)` can continue at `a`: white space, an operator at `o`, white space, then a character at `e`. */
  predicate OperatorTail(s: string, a: int) {
    exists o, e | 0 <= a <= o < e <= |s| ::
      && AllSpace(s[a..o]) && IsOperator(s[o]) && AllSpace(s[o + 1..e]) && AnyAt(s, e)
  }

  /** `what\s+is\s+(.+)\s*[+\-*\/]\s*(.+)` matches at `i`. */
  predicate WhatIsAt(s: string, i: nat)
    requires i <= |s|
  {
    match MatchWords(s, i, MathPlugin.WhatIs)
    case None => false
    case Some(q) =>
      var p := SpaceStart(s, i, q);
      exists t, a | p < t <= q && t < a <= |s| :: NoLineBreak(s, t, a) && OperatorTail(s, a)
  }

  /** Whether any of the three arithmetic patterns matches somewhere in the message. */
  predicate LooksLikeMath(s: string) {
    || DigitOpDigit(s)
    || (exists i | 0 <= i <= |s| :: CalculateAt(s, i))
    || (exists i | 0 <= i <= |s| :: WhatIsAt(s, i))
  }

  /** "calculate 2 + 2" matches both the digit-operator-digit pattern and the `calculate` pattern. */
  lemma CalculateTwoPlusTwo()
    ensures DigitOpDigitAt("calculate 2 + 2", 10)
    ensures CalculateAt("calculate 2 + 2", 0)
    ensures LooksLikeMath("calculate 2 + 2")
  {
    var s := "calculate 2 + 2";
    assert SpaceEnd(s, 11) == 12 && SpaceEnd(s, 13) == 14;
    assert s[..9] == "calculate";
    WordWrittenAt(s, 0, "calculate");
    assert SpaceEnd(s, 9) == 10 && AnyAt(s, 10);
  }

  /** A message without the letter `w` never reaches the weather plugin. */
  lemma NoWeatherWithoutW(s: string)
    requires forall k | 0 <= k < |s| :: LowerChar(s[k]) != 'w'
    ensures City(s).None?
  {
    assert WeatherIn[0] == "weather";
    forall i | 0 <= i <= |s|
      ensures CaptureAt(s)(i).None?
    {
      NotWordAt(s, i, "weather", 0);
    }
  }

  /** So "calculate 2 + 2" goes to the math plugin, whole. */
  lemma CalculateTwoPlusTwoIsMath(lookup: string -> (string, bool), eval: string -> Option<string>)
    ensures DetectAndExecute("calculate 2 + 2", lookup, eval) == Some(MathPlugin.Execute("calculate 2 + 2", eval))
  {
    var s := "calculate 2 + 2";
    assert forall k | 0 <= k < |s| :: LowerChar(s[k]) != 'w';
    NoWeatherWithoutW(s);
    CalculateTwoPlusTwo();
  }

  /** `WeatherPlugin.execute` as far as the dispatcher sees it: a weather result echoing the city. */
  function RunWeather(city: string, lookup: string -> (string, bool)): (r: PluginResult)
    ensures r.kind == Weather && r.input == city
  {
    var (output, ok) := lookup(city);
    PluginResult(Weather, city, output, ok)
  }

  /** `detectAndExecute`. */
  function DetectAndExecute(message: string, lookup: string -> (string, bool), eval: string -> Option<string>): (r: Option<PluginResult>)
    ensures City(message).Some? ==> r == Some(RunWeather(City(message).value, lookup))
    ensures City(message).None? && LooksLikeMath(message) ==> r == Some(MathPlugin.Execute(message, eval))
    ensures r.None? <==> City(message).None? && !LooksLikeMath(message)
    ensures r.Some? ==> (r.value.kind == Weather <==> City(message).Some?)
  {
    match City(message)
    case Some(city) => Some(RunWeather(city, lookup))
    case None =>
      // The three arithmetic patterns are tried in turn, and each leads to the same call.
      if LooksLikeMath(message) then Some(MathPlugin.Execute(message, eval))
      else None
  }

  /** `weather`, white space up to `mid`, `in`, white space up to `j`: the phrase matches from `i` to `j`. */
  lemma PhraseMatches(s: string, i: nat, mid: nat, j: nat)
    requires WordAt(s, i, "weather") && i + 7 < |s| && IsSpace(s[i + 7]) && SpaceEnd(s, i + 7) == mid
    requires WordAt(s, mid, "in") && mid + 2 < |s| && IsSpace(s[mid + 2]) && SpaceEnd(s, mid + 2) == j
    ensures MatchWords(s, i, WeatherIn) == Some(j)
  {
    assert WeatherIn[0] == "weather" && WeatherIn[1..] == ["in"];
    MatchWordsStep(s, i, WeatherIn);
    assert ["in"][1..] == [];
    MatchWordsStep(s, mid, ["in"]);
  }

  lemma ParisWords(s: string)
    requires s == "weather in Paris plus 2"
    ensures WordAt(s, 0, "weather") && WordAt(s, 8, "in")
  {
    assert s[0..7] == "weather" && s[8..10] == "in";
    WordWrittenAt(s, 0, "weather");
    WordWrittenAt(s, 8, "in");
  }

  lemma ParisSpaces(s: string)
    requires s == "weather in Paris plus 2"
    ensures IsSpace(s[7]) && SpaceEnd(s, 7) == 8 && IsSpace(s[10]) && SpaceEnd(s, 10) == 11
  {
  }

  lemma ParisMatch()
    ensures MatchWords("weather in Paris plus 2", 0, WeatherIn) == Some(11)
  {
    var s := "weather in Paris plus 2";
    ParisWords(s);
    ParisSpaces(s);
    PhraseMatches(s, 0, 8, 11);
  }

  lemma ParisCityEnd(s: string)
    requires s == "weather in Paris plus 2"
    ensures CityEnd(s, 11) == 22 && s[11..22] == "Paris plus "
  {
    assert !IsCityChar(s[22]);
    assert forall k | 11 <= k < 22 :: IsCityChar(s[k]);
  }

  lemma ParisCapture()
    ensures WeatherCapture("weather in Paris plus 2") == Some("Paris plus ")
  {
    var s := "weather in Paris plus 2";
    ParisMatch();
    ParisCityEnd(s);
  }

  lemma ParisTrim()
    ensures Trim("Paris plus ") == "Paris plus"
  {
    var c := "Paris plus ";
    assert SpaceEnd(c, 0) == 0;
    assert SpaceStart(c, 0, 11) == 10;
  }

  /** The greedy letter-and-space capture runs on past the city: "weather in Paris plus 2" asks for "Paris plus". */
  lemma ParisPlus(lookup: string -> (string, bool), eval: string -> Option<string>)
    ensures City("weather in Paris plus 2") == Some("Paris plus")
    ensures DetectAndExecute("weather in Paris plus 2", lookup, eval) == Some(RunWeather("Paris plus", lookup))
  {
    ParisCapture();
    ParisTrim();
  }
}
