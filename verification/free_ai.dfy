/**
 * `FreeAIService.generateResponse`: canned replies chosen by the first of a
 * fixed list of keyword rules that matches the lower-cased prompt. The
 * current date and time, rendered by `toLocaleString`, is the parameter
 * `clockText`.
 */
module FreeAI {
  import opened Text
  import opened Patterns

  /** The rules, in the order they are tried, and the default. */
  datatype Intent =
    | WeatherHint | MathHint | Greeting | HelpHint | Thanks | Goodbye | Wellbeing | Identity | Clock
    | Default

  const WeatherReply: string :=
    "I can help you with weather information! Try asking 'weather in [city name]' to get current conditions for any city."

  const MathReply: string :=
    "I can help with calculations! Try asking 'calculate 25 + 17' or any math expression and I'll solve it for you."

  const GreetingReply: string :=
    "Hello! I'm your AI assistant. I can help you with:\n• Weather information (try 'weather in London')\n" +
    "• Mathematical calculations (try 'calculate 15 * 8')\n• General questions and conversations\n\n" +
    "What would you like to know?"

  const HelpReply: string :=
    "I can assist you with:\n\n\U{1F324}\U{FE0F} **Weather**: Ask 'weather in [city]' for current conditions\n" +
    "\U{1F9EE} **Math**: Ask 'calculate [expression]' for mathematical operations\n" +
    "\U{1F4AC} **Chat**: Ask me general questions and I'll do my best to help\n\nTry asking me something!"

  const ThanksReply: string :=
    "You're welcome! I'm here to help with weather, calculations, or any questions you might have. Feel free to ask me anything else!"

  const GoodbyeReply: string :=
    "Goodbye! It was nice helping you today. Come back anytime if you need weather information, calculations, or just want to chat!"

  const WellbeingReply: string :=
    "I'm doing great, thank you for asking! I'm here and ready to help you with weather information, calculations, " +
    "or answer any questions you might have. How can I assist you today?"

  const IdentityReply: string :=
    "I'm your AI assistant! I'm designed to help you with various tasks including:\n• Getting weather information for any city\n" +
    "• Solving mathematical calculations\n• Answering questions and having conversations\n\n" +
    "I'm running on a free, efficient system that doesn't require expensive API calls. How can I help you today?"

  function ClockReply(clockText: string): string {
    "Current date and time: " + clockText +
    "\n\nIs there anything else I can help you with? I can provide weather information or help with calculations!"
  }

  const DefaultOpening: string := "I understand you're asking about: "

  const DefaultClosing: string :=
    "\n\nWhile I'm running in free mode, I can still help you with:\n• Weather information - try \"weather in [city]\"\n" +
    "• Mathematical calculations - try \"calculate [expression]\"\n• General questions and conversations\n\n" +
    "For more advanced AI capabilities, you could set up OpenAI billing, but I'm here to help with the basics! What would you like to know?"

  /** The prompt, quoted. */
  function Quoted(prompt: string): string {
    "\"" + prompt + "\""
  }

  function DefaultReply(prompt: string): string {
    DefaultOpening + Quoted(prompt) + DefaultClosing
  }

  /** The tests of the rules on the lower-cased prompt. Only the arithmetic shape looks at the prompt as typed. */
  predicate AsksWeather(lower: string) { Contains(lower, "weather") }
  predicate AsksMath(lower: string, prompt: string) { Contains(lower, "calculate") || DigitOpDigit(prompt) }
  predicate Greets(lower: string) { Contains(lower, "hello") || Contains(lower, "hi") || Contains(lower, "hey") }
  predicate AsksHelp(lower: string) { Contains(lower, "help") || Contains(lower, "what can you do") }
  predicate GivesThanks(lower: string) { Contains(lower, "thank") || Contains(lower, "thanks") }
  predicate SaysGoodbye(lower: string) { Contains(lower, "bye") || Contains(lower, "goodbye") || Contains(lower, "see you") }
  predicate AsksWellbeing(lower: string) { Contains(lower, "how are you") || Contains(lower, "how do you feel") }
  predicate AsksIdentity(lower: string) { Contains(lower, "what are you") || Contains(lower, "who are you") }
  predicate AsksClock(lower: string) { Contains(lower, "time") || Contains(lower, "date") || Contains(lower, "today") }

  /** When rule `i` fires for `prompt`. */
  predicate Fires(i: Intent, prompt: string) {
    var lower := Lower(prompt);
    match i
    case WeatherHint => AsksWeather(lower)
    case MathHint => AsksMath(lower, prompt)
    case Greeting => Greets(lower)
    case HelpHint => AsksHelp(lower)
    case Thanks => GivesThanks(lower)
    case Goodbye => SaysGoodbye(lower)
    case Wellbeing => AsksWellbeing(lower)
    case Identity => AsksIdentity(lower)
    case Clock => AsksClock(lower)
    case Default => true
  }

  /** The order in which the rules are tried. */
  const RuleOrder: seq<Intent> :=
    [WeatherHint, MathHint, Greeting, HelpHint, Thanks, Goodbye, Wellbeing, Identity, Clock, Default]

  /** The first rule at or after position `from` of the order that fires. */
  function FirstFiring(prompt: string, from: nat): (i: Intent)
    requires from < |RuleOrder|
    ensures Fires(i, prompt)
    ensures exists k | from <= k < |RuleOrder| ::
      RuleOrder[k] == i && forall j | from <= j < k :: !Fires(RuleOrder[j], prompt)
    decreases |RuleOrder| - from
  {
    if Fires(RuleOrder[from], prompt) || from == |RuleOrder| - 1 then RuleOrder[from]
    else FirstFiring(prompt, from + 1)
  }

  /** The rule that answers `prompt`: the first in the order that fires. */
  function Classify(prompt: string): Intent {
    FirstFiring(prompt, 0)
  }

  function Reply(i: Intent, prompt: string, clockText: string): string {
    match i
    case WeatherHint => WeatherReply
    case MathHint => MathReply
    case Greeting => GreetingReply
    case HelpHint => HelpReply
    case Thanks => ThanksReply
    case Goodbye => GoodbyeReply
    case Wellbeing => WellbeingReply
    case Identity => IdentityReply
    case Clock => ClockReply(clockText)
    case Default => DefaultReply(prompt)
  }

  /**
   * The chain of tests of `generateResponse`, in the order written, on the
   * lower-cased prompt: the first test that succeeds picks its rule, and the
   * answer is that rule's `reply`.
   */
  function Chain(prompt: string, reply: Intent -> string): string {
    var lower := Lower(prompt);
    if AsksWeather(lower) then reply(WeatherHint)
    else if AsksMath(lower, prompt) then reply(MathHint)
    else if Greets(lower) then reply(Greeting)
    else if AsksHelp(lower) then reply(HelpHint)
    else if GivesThanks(lower) then reply(Thanks)
    else if SaysGoodbye(lower) then reply(Goodbye)
    else if AsksWellbeing(lower) then reply(Wellbeing)
    else if AsksIdentity(lower) then reply(Identity)
    else if AsksClock(lower) then reply(Clock)
    else reply(Default)
  }

  /** `generateResponse`: the chain of tests, each answering with its canned reply. */
  function GenerateResponse(prompt: string, clockText: string): string {
    Chain(prompt, i => Reply(i, prompt, clockText))
  }

  lemma FirstFiringStep(prompt: string, from: nat)
    requires from < |RuleOrder| - 1
    ensures FirstFiring(prompt, from) ==
      if Fires(RuleOrder[from], prompt) then RuleOrder[from] else FirstFiring(prompt, from + 1)
  {
  }

  /** Past `j` rules that do not fire, the classification is decided by the rest of the order. */
  lemma {:induction false} SkipSilentRules(prompt: string, j: nat)
    requires j < |RuleOrder|
    requires forall i | 0 <= i < j :: !Fires(RuleOrder[i], prompt)
    ensures Classify(prompt) == FirstFiring(prompt, j)
  {
    if j > 0 {
      SkipSilentRules(prompt, j - 1);
      FirstFiringStep(prompt, j - 1);
    }
  }

  /** Rule `j` answers once the rules before it are silent and it fires. */
  lemma Answers(prompt: string, j: nat)
    requires j < |RuleOrder|
    requires forall i | 0 <= i < j :: !Fires(RuleOrder[i], prompt)
    requires Fires(RuleOrder[j], prompt)
    ensures Classify(prompt) == RuleOrder[j]
  {
    SkipSilentRules(prompt, j);
  }

  /** The first firing rule, spelled out as a chain of tests in the order of the rules. */
  lemma ClassifyChain(prompt: string)
    ensures var lower := Lower(prompt);
      Classify(prompt) ==
        if AsksWeather(lower) then WeatherHint
        else if AsksMath(lower, prompt) then MathHint
        else if Greets(lower) then Greeting
        else if AsksHelp(lower) then HelpHint
        else if GivesThanks(lower) then Thanks
        else if SaysGoodbye(lower) then Goodbye
        else if AsksWellbeing(lower) then Wellbeing
        else if AsksIdentity(lower) then Identity
        else if AsksClock(lower) then Clock
        else Default
  {
    FirstFiringStep(prompt, 0);
    FirstFiringStep(prompt, 1);
    FirstFiringStep(prompt, 2);
    FirstFiringStep(prompt, 3);
    FirstFiringStep(prompt, 4);
    FirstFiringStep(prompt, 5);
    FirstFiringStep(prompt, 6);
    FirstFiringStep(prompt, 7);
    FirstFiringStep(prompt, 8);
    assert FirstFiring(prompt, 9) == Default;
  }

  /** The chain answers with the reply of the first rule, in the order, that fires. */
  lemma ChainIsFirstMatch(prompt: string, reply: Intent -> string)
    ensures Chain(prompt, reply) == reply(Classify(prompt))
  {
    ClassifyChain(prompt);
  }

  /** `generateResponse` answers with the reply of the first rule that fires. */
  lemma GenerateResponseIsFirstMatch(prompt: string, clockText: string)
    ensures GenerateResponse(prompt, clockText) == Reply(Classify(prompt), prompt, clockText)
  {
    ChainIsFirstMatch(prompt, i => Reply(i, prompt, clockText));
  }

  /** The position of each rule in the order. */
  function Rank(i: Intent): (k: nat)
    ensures k < |RuleOrder| && RuleOrder[k] == i
  {
    match i
    case WeatherHint => 0
    case MathHint => 1
    case Greeting => 2
    case HelpHint => 3
    case Thanks => 4
    case Goodbye => 5
    case Wellbeing => 6
    case Identity => 7
    case Clock => 8
    case Default => 9
  }

  /** No rule appears twice in the order. */
  lemma RankOfOrder(k: nat)
    requires k < |RuleOrder|
    ensures Rank(RuleOrder[k]) == k
  {
  }

  /** A rule answers exactly when it fires and no earlier rule does. */
  lemma ClassifyIsFirstFiring(prompt: string, k: nat)
    requires k < |RuleOrder|
    ensures Classify(prompt) == RuleOrder[k] <==>
      Fires(RuleOrder[k], prompt) && forall j | 0 <= j < k :: !Fires(RuleOrder[j], prompt)
  {
    var i := Classify(prompt);
    var m :| 0 <= m < |RuleOrder| && RuleOrder[m] == i && forall j | 0 <= j < m :: !Fires(RuleOrder[j], prompt);
    RankOfOrder(m);
    RankOfOrder(k);
    if Fires(RuleOrder[k], prompt) && forall j | 0 <= j < k :: !Fires(RuleOrder[j], prompt) {
      assert Fires(RuleOrder[m], prompt);
      assert !(m < k) && !(k < m);
    }
  }

  /** Any mention of weather wins, whatever else the prompt says. */
  lemma WeatherComesFirst(prompt: string, clockText: string)
    requires Contains(Lower(prompt), "weather")
    ensures Classify(prompt) == WeatherHint
    ensures GenerateResponse(prompt, clockText) == WeatherReply
  {
    Answers(prompt, 0);
  }

  /** Without "weather", "calculate" or an arithmetic shape gets the calculation hint. */
  lemma MathComesSecond(prompt: string, clockText: string)
    requires !Contains(Lower(prompt), "weather")
    requires Contains(Lower(prompt), "calculate") || DigitOpDigit(prompt)
    ensures Classify(prompt) == MathHint
    ensures GenerateResponse(prompt, clockText) == MathReply
  {
    Answers(prompt, 1);
  }

  lemma NotContained(s: string, sub: string)
    requires |s| < |sub|
    ensures !Contains(s, sub)
  {
  }

  lemma ContainedAt(s: string, sub: string, k: nat)
    requires k + |sub| <= |s| && s[k..k + |sub|] == sub
    ensures Contains(s, sub)
  {
    assert OccursAt(s, sub, k);
  }

  lemma NoDigits(s: string)
    requires forall k | 0 <= k < |s| :: !IsDigit(s[k])
    ensures !DigitOpDigit(s)
  {
  }

  /** "hello" is a greeting. */
  lemma HelloGreets(clockText: string)
    ensures GenerateResponse("hello", clockText) == GreetingReply
  {
    var lower := Lower("hello");
    assert lower == "hello";
    NotContained(lower, "weather");
    NotContained(lower, "calculate");
    NoDigits("hello");
    ContainedAt(lower, "hello", 0);
  }

  /** "this" is a greeting too: the rule looks for the substring "hi". */
  lemma ThisGreets(clockText: string)
    ensures GenerateResponse("this", clockText) == GreetingReply
  {
    var lower := Lower("this");
    assert lower == "this";
    NotContained(lower, "weather");
    NotContained(lower, "calculate");
    NoDigits("this");
    ContainedAt(lower, "hi", 1);
  }

  /** The default reply quotes the prompt verbatim. */
  lemma DefaultQuotesPrompt(prompt: string)
    ensures Contains(DefaultReply(prompt), Quoted(prompt))
  {
    var r := DefaultReply(prompt);
    var q := Quoted(prompt);
    assert r[|DefaultOpening|..|DefaultOpening| + |q|] == q;
    ContainedAt(r, q, |DefaultOpening|);
  }

  /** When no rule fires, the default reply answers. */
  lemma DefaultWhenNothingFires(prompt: string, clockText: string)
    requires forall j | 0 <= j < |RuleOrder| - 1 :: !Fires(RuleOrder[j], prompt)
    ensures GenerateResponse(prompt, clockText) == DefaultReply(prompt)
  {
    GenerateResponseIsFirstMatch(prompt, clockText);
    ClassifyIsFirstFiring(prompt, |RuleOrder| - 1);
  }
}
