/**
 * `MathPlugin`: phrase stripping, extraction of the arithmetic part, the
 * sanitiser and its guard, and the wrapping of the outcome into a
 * `PluginResult`. The evaluation itself (`Function(...)`) is the parameter
 * `eval`, which yields the printed value or `None` when it throws.
 */
module MathPlugin {
  import opened Types
  import opened Text
  import opened Wrappers
  import opened Patterns

  const Calculate: seq<string> := ["calculate"]
  const WhatIs: seq<string> := ["what", "is"]
  const Solve: seq<string> := ["solve"]

  const NoExpression: string := "No valid mathematical expression found"
  const EvaluationError: string := "Error evaluating mathematical expression"

  /** The class `[\d\.\+\-\*\/\(\)\s]`. */
  predicate IsMathChar(c: char) {
    IsDigit(c) || c == '.' || IsOperator(c) || c == '(' || c == ')' || IsSpace(c)
  }

  /** The first position at or after `i` holding a character of the class, or `|s|`. */
  function FirstMathChar(s: string, i: nat): (k: nat)
    requires i <= |s|
    ensures i <= k <= |s|
    ensures forall j | i <= j < k :: !IsMathChar(s[j])
    ensures k < |s| ==> IsMathChar(s[k])
    decreases |s| - i
  {
    if i == |s| || IsMathChar(s[i]) then i else FirstMathChar(s, i + 1)
  }

  /** The end of the maximal run of class characters starting at `i`. */
  function MathRunEnd(s: string, i: nat): (k: nat)
    requires i <= |s|
    ensures i <= k <= |s|
    ensures forall j | i <= j < k :: IsMathChar(s[j])
    ensures k == |s| || !IsMathChar(s[k])
    decreases |s| - i
  {
    if i < |s| && IsMathChar(s[i]) then MathRunEnd(s, i + 1) else i
  }

  /** `s[k..e]` is the leftmost run of class characters in `s`, and it cannot be extended. */
  predicate IsLeftmostMathRun(s: string, k: int, e: int) {
    && 0 <= k < e <= |s|
    && (forall j | 0 <= j < k :: !IsMathChar(s[j]))
    && (forall j | k <= j < e :: IsMathChar(s[j]))
    && (e == |s| || !IsMathChar(s[e]))
  }

  /** A leftmost maximal run starts where `FirstMathChar` stops and ends where `MathRunEnd` stops. */
  lemma LeftmostMathRunFound(s: string, k: int, e: int)
    requires IsLeftmostMathRun(s, k, e)
    ensures k == FirstMathChar(s, 0) && e == MathRunEnd(s, k)
  {
    var k', e' := FirstMathChar(s, 0), MathRunEnd(s, k);
    assert IsMathChar(s[k]);
    assert k' == |s| || IsMathChar(s[k']);
    assert e' == |s| || !IsMathChar(s[e']);
    assert e == |s| || !IsMathChar(s[e]);
  }

  /** So there is at most one leftmost maximal run. */
  lemma LeftmostMathRunIsUnique(s: string)
    ensures forall k, e | IsLeftmostMathRun(s, k, e) :: k == FirstMathChar(s, 0) && e == MathRunEnd(s, k)
  {
    forall k, e | IsLeftmostMathRun(s, k, e)
      ensures k == FirstMathChar(s, 0) && e == MathRunEnd(s, k)
    {
      LeftmostMathRunFound(s, k, e);
    }
  }

  /** `cleaned.match(mathPattern)`, trimmed: the leftmost maximal run of class characters. */
  function MatchMath(cleaned: string): (r: Option<string>)
    ensures r.None? <==> forall j | 0 <= j < |cleaned| :: !IsMathChar(cleaned[j])
    ensures r.Some? ==> IsLeftmostMathRun(cleaned, FirstMathChar(cleaned, 0), MathRunEnd(cleaned, FirstMathChar(cleaned, 0)))
    ensures forall k, e | IsLeftmostMathRun(cleaned, k, e) :: r == Some(Trim(cleaned[k..e]))
    ensures r.Some? ==> var k := FirstMathChar(cleaned, 0);
      (r.value == "" <==> AllSpace(cleaned[k..MathRunEnd(cleaned, k)]))
  {
    LeftmostMathRunIsUnique(cleaned);
    var k := FirstMathChar(cleaned, 0);
    if k == |cleaned| then None else Some(Trim(cleaned[k..MathRunEnd(cleaned, k)]))
  }

  /** `extractMathExpression`: strip the first `calculate`, `what is` and `solve` phrases, trim, take the run. */
  function ExtractMathExpression(text: string): Option<string> {
    MatchMath(Trim(RemoveFirst(RemoveFirst(RemoveFirst(text, Calculate), WhatIs), Solve)))
  }

  /** `expression.replace(/[^0-9\+\-\*\/\.\(\)\s]/g, '')`. */
  function Sanitize(e: string): (r: string)
    ensures forall k | 0 <= k < |r| :: IsMathChar(r[k])
    ensures |r| <= |e|
    ensures (forall k | 0 <= k < |e| :: IsMathChar(e[k])) ==> r == e
    ensures (forall k | 0 <= k < |e| :: !IsMathChar(e[k])) ==> r == ""
  {
    if |e| == 0 then ""
    else (if IsMathChar(e[0]) then [e[0]] else "") + Sanitize(e[1..])
  }

  /** `/^[\d\.\+\-\*\/\(\)\s]+$/.test(sanitized)`. */
  predicate PassesGuard(e: string) {
    |e| > 0 && forall k | 0 <= k < |e| :: IsMathChar(e[k])
  }

  /** `evaluateExpression`: sanitise, check, evaluate; `None` stands for the thrown error. */
  function EvaluateExpression(e: string, eval: string -> Option<string>): Option<string> {
    var sanitized := Sanitize(e);
    if PassesGuard(sanitized) then eval(sanitized) else None
  }

  /** `execute`: every outcome is a math result echoing the argument; no error escapes. */
  function Execute(expression: string, eval: string -> Option<string>): (r: PluginResult)
    ensures r.kind == Math && r.input == expression
    ensures r.success <==>
      && ExtractMathExpression(expression).Some?
      && ExtractMathExpression(expression).value != ""
      && EvaluateExpression(ExtractMathExpression(expression).value, eval).Some?
    ensures r.success ==>
      r.output == ExtractMathExpression(expression).value + " = " +
                  EvaluateExpression(ExtractMathExpression(expression).value, eval).value
    ensures (ExtractMathExpression(expression).None? || ExtractMathExpression(expression).value == "") ==>
      !r.success && r.output == NoExpression
    ensures (&& ExtractMathExpression(expression).Some? && ExtractMathExpression(expression).value != ""
             && EvaluateExpression(ExtractMathExpression(expression).value, eval).None?) ==>
      !r.success && r.output == EvaluationError
  {
    match ExtractMathExpression(expression)
    case None => PluginResult(Math, expression, NoExpression, false)
    case Some(e) =>
      if e == "" then PluginResult(Math, expression, NoExpression, false)
      else
        match EvaluateExpression(e, eval)
        case None => PluginResult(Math, expression, EvaluationError, false)
        case Some(v) =>
          PluginResult(Math, expression, e + " = " + v, true)
  }

  /** The sanitiser is a filter: it works on each part of a text separately, keeping the characters in order. */
  lemma {:induction false} SanitizeAppend(a: string, b: string)
    ensures Sanitize(a + b) == Sanitize(a) + Sanitize(b)
  {
    if |a| == 0 {
      assert a + b == b;
    } else {
      assert (a + b)[0] == a[0] && (a + b)[1..] == a[1..] + b;
      SanitizeAppend(a[1..], b);
    }
  }

  /** Sanitising twice is sanitising once. */
  lemma SanitizeIsIdempotent(e: string)
    ensures Sanitize(Sanitize(e)) == Sanitize(e)
  {
  }

  lemma MatchMathInClass(cleaned: string)
    requires MatchMath(cleaned).Some?
    ensures forall j | 0 <= j < |MatchMath(cleaned).value| :: IsMathChar(MatchMath(cleaned).value[j])
  {
    var k := FirstMathChar(cleaned, 0);
    var run := cleaned[k..MathRunEnd(cleaned, k)];
    var t := Trim(run);
    var a := SpaceEnd(run, 0);
    forall j | 0 <= j < |t|
      ensures IsMathChar(t[j])
    {
      assert t[j] == run[a + j];
    }
  }

  /** The extracted expression only holds class characters. */
  lemma ExtractedIsInClass(text: string)
    requires ExtractMathExpression(text).Some?
    ensures forall k | 0 <= k < |ExtractMathExpression(text).value| :: IsMathChar(ExtractMathExpression(text).value[k])
  {
    MatchMathInClass(Trim(RemoveFirst(RemoveFirst(RemoveFirst(text, Calculate), WhatIs), Solve)));
  }

  /** On an extracted non-empty expression the sanitiser changes nothing and the guard passes. */
  lemma SanitizerIsIdentityOnExtracted(text: string)
    requires ExtractMathExpression(text).Some? && ExtractMathExpression(text).value != ""
    ensures Sanitize(ExtractMathExpression(text).value) == ExtractMathExpression(text).value
    ensures PassesGuard(Sanitize(ExtractMathExpression(text).value))
  {
    ExtractedIsInClass(text);
  }

  /** When the text opens with `calculate` and one white-space character, removing the phrase drops those ten characters. */
  lemma StripOpeningCalculate(text: string)
    requires WordAt(text, 0, "calculate") && 10 < |text| && IsSpace(text[9]) && !IsSpace(text[10])
    ensures RemoveFirst(text, Calculate) == text[10..]
  {
    assert SpaceEnd(text, 9) == 10;
    MatchWordsStep(text, 0, Calculate);
    assert Calculate[1..] == [];
    assert FindWords(text, Calculate, 0) == Some((0, 10));
    assert text[..0] + text[10..] == text[10..];
  }

  lemma CalculateOpens(text: string)
    requires text == "calculate the sum 2+2"
    ensures WordAt(text, 0, "calculate") && IsSpace(text[9]) && !IsSpace(text[10])
    ensures text[10..] == "the sum 2+2"
  {
    assert text[0..9] == "calculate";
    WordWrittenAt(text, 0, "calculate");
  }

  lemma StripCalculate()
    ensures RemoveFirst("calculate the sum 2+2", Calculate) == "the sum 2+2"
  {
    CalculateOpens("calculate the sum 2+2");
    StripOpeningCalculate("calculate the sum 2+2");
  }

  lemma LeftmostRunIsASpace()
    ensures MatchMath("the sum 2+2") == Some("")
  {
    var s := "the sum 2+2";
    assert !IsMathChar(s[0]) && !IsMathChar(s[1]) && !IsMathChar(s[2]) && IsMathChar(s[3]);
    assert FirstMathChar(s, 0) == 3;
    assert !IsMathChar(s[4]);
    assert MathRunEnd(s, 3) == 4;
    assert s[3..4] == " ";
  }

  /** When only the first phrase occurs and the rest is already trimmed, extraction looks at what is left. */
  lemma ExtractAfterOneStrip(text: string, rest: string)
    requires RemoveFirst(text, Calculate) == rest
    requires RemoveFirst(rest, WhatIs) == rest && RemoveFirst(rest, Solve) == rest
    requires Trim(rest) == rest
    ensures ExtractMathExpression(text) == MatchMath(rest)
  {
  }

  /** What is left after `calculate ` has no other phrase, no outer white space, and a lone space as its first run. */
  lemma TheSumIsUntouched(rest: string)
    requires rest == "the sum 2+2"
    ensures RemoveFirst(rest, WhatIs) == rest && RemoveFirst(rest, Solve) == rest
    ensures Trim(rest) == rest
    ensures MatchMath(rest) == Some("")
  {
    NoWhatIs(rest);
    NoSolve(rest);
    assert !IsSpace(rest[0]) && !IsSpace(rest[|rest| - 1]);
    TrimOfTrimmed(rest);
    LeftmostRunIsASpace();
  }

  lemma ExtractFromCalculateTheSum()
    ensures ExtractMathExpression("calculate the sum 2+2") == Some("")
  {
    StripCalculate();
    TheSumIsUntouched("the sum 2+2");
    ExtractAfterOneStrip("calculate the sum 2+2", "the sum 2+2");
  }

  /** A lone space between words is the leftmost run, so later digits are never reached. */
  lemma CalculateTheSumFails(eval: string -> Option<string>)
    ensures ExtractMathExpression("calculate the sum 2+2") == Some("")
    ensures Execute("calculate the sum 2+2", eval) ==
      PluginResult(Math, "calculate the sum 2+2", NoExpression, false)
  {
    ExtractFromCalculateTheSum();
  }

  lemma NoWhatIs(s: string)
    requires s == "the sum 2+2"
    ensures RemoveFirst(s, WhatIs) == s
  {
    assert forall k | 0 <= k < |s| :: LowerChar(s[k]) != 'w';
    AbsentInitial(s, WhatIs);
  }

  lemma NoSolve(s: string)
    requires s == "the sum 2+2"
    ensures RemoveFirst(s, Solve) == s
  {
    assert forall k | 0 <= k < |s| - 1 :: LowerChar(s[k]) == 's' ==> LowerChar(s[k + 1]) != 'o';
    AbsentOpening(s, Solve);
  }
}
