/**
 * `PromptBuilder.buildPrompt`: a fixed header, then the optional history,
 * knowledge and tool sections, then the user's message. The controller
 * constructs a builder but never calls it; the model states what the
 * assembled text would be.
 */
module Prompt {
  import opened Types
  import opened Text
  import opened Wrappers

  datatype PromptContext = PromptContext(
    recentMessages: seq<Message>,
    ragChunks: seq<RAGChunk>,
    pluginResult: Option<PluginResult>,
    userMessage: string)

  const Header: string :=
    "You are an intelligent AI assistant with access to relevant knowledge and tools.\n\n" +
    "SYSTEM INSTRUCTIONS:\n" +
    "- Provide helpful, accurate, and contextual responses\n" +
    "- Use the provided context and plugin results to enhance your answers\n" +
    "- Be concise but comprehensive\n" +
    "- If plugin results are available, incorporate them naturally into your response\n\n"

  const HistoryTitle: string := "RECENT CONVERSATION:\n"
  const KnowledgeTitle: string := "RELEVANT KNOWLEDGE:\n"
  const ToolTitle: string := "TOOL RESULT:\n"
  const UserTitle: string := "USER MESSAGE: "
  const Closing: string := "\n\nASSISTANT:"

  /** `msg.role.toUpperCase()`. */
  function RoleName(role: Role): string {
    match role
    case User => "USER"
    case Assistant => "ASSISTANT"
    case System => "SYSTEM"
  }

  /** `pluginResult.type`. */
  function KindName(kind: PluginKind): string {
    match kind
    case Weather => "weather"
    case Math => "math"
  }

  function HistoryLine(m: Message): string {
    RoleName(m.role) + ": " + m.content + "\n"
  }

  /** One line per message, in the order given. */
  function HistoryLines(ms: seq<Message>): string {
    if |ms| == 0 then "" else HistoryLines(ms[..|ms| - 1]) + HistoryLine(ms[|ms| - 1])
  }

  function HistorySection(ms: seq<Message>): string {
    if |ms| == 0 then "" else HistoryTitle + HistoryLines(ms) + "\n"
  }

  /** Entry `n` (counting from 1) of the knowledge section. */
  function KnowledgeEntry(n: nat, c: RAGChunk): string {
    "[" + NatToString(n) + "] From " + c.filename + ":\n" + c.content + "\n\n"
  }

  /** The entries numbered 1 to `|cs|`. */
  function KnowledgeEntries(cs: seq<RAGChunk>): string {
    if |cs| == 0 then "" else KnowledgeEntries(cs[..|cs| - 1]) + KnowledgeEntry(|cs|, cs[|cs| - 1])
  }

  function KnowledgeSection(cs: seq<RAGChunk>): string {
    if |cs| == 0 then "" else KnowledgeTitle + KnowledgeEntries(cs)
  }

  /** Only a successful plugin result is reported. */
  function ToolSection(p: Option<PluginResult>): string {
    if p.Some? && p.value.success then
      ToolTitle + "Used " + KindName(p.value.kind) + " tool for \"" + p.value.input + "\"\n" +
      "Result: " + p.value.output + "\n\n"
    else ""
  }

  function UserSection(m: string): string {
    UserTitle + m + Closing
  }

  /** Everything after the header: the optional sections, then the user's message. */
  function Body(ctx: PromptContext): string {
    HistorySection(ctx.recentMessages) + KnowledgeSection(ctx.ragChunks) +
    ToolSection(ctx.pluginResult) + UserSection(ctx.userMessage)
  }

  /** The prompt as the concatenation of its sections, in their fixed order. */
  function Assemble(ctx: PromptContext): string {
    Header + Body(ctx)
  }

  /** The history block of `buildPrompt`: the title, then one line per message, then a blank line. */
  method AppendHistory(start: string, ms: seq<Message>) returns (prompt: string)
    ensures prompt == start + HistorySection(ms)
  {
    prompt := start;
    if |ms| > 0 {
      prompt := prompt + HistoryTitle;
      for i := 0 to |ms|
        invariant prompt == start + HistoryTitle + HistoryLines(ms[..i])
      {
        assert ms[..i + 1][..i] == ms[..i];
        Reassociate(start + HistoryTitle, HistoryLines(ms[..i]), HistoryLine(ms[i]));
        prompt := prompt + HistoryLine(ms[i]);
      }
      assert ms[..|ms|] == ms;
      prompt := prompt + "\n";
      Reassociate(start, HistoryTitle, HistoryLines(ms));
      Reassociate(start, HistoryTitle + HistoryLines(ms), "\n");
    }
  }

  /** The knowledge block of `buildPrompt`: the title, then the numbered entries. */
  method AppendKnowledge(start: string, cs: seq<RAGChunk>) returns (prompt: string)
    ensures prompt == start + KnowledgeSection(cs)
  {
    prompt := start;
    if |cs| > 0 {
      prompt := prompt + KnowledgeTitle;
      for i := 0 to |cs|
        invariant prompt == start + KnowledgeTitle + KnowledgeEntries(cs[..i])
      {
        assert cs[..i + 1][..i] == cs[..i];
        Reassociate(start + KnowledgeTitle, KnowledgeEntries(cs[..i]), KnowledgeEntry(i + 1, cs[i]));
        prompt := prompt + KnowledgeEntry(i + 1, cs[i]);
      }
      assert cs[..|cs|] == cs;
      Reassociate(start, KnowledgeTitle, KnowledgeEntries(cs));
    }
  }

  /** `buildPrompt` as written: appending to the prompt section by section and item by item. */
  method BuildPrompt(ctx: PromptContext) returns (prompt: string)
    ensures prompt == Assemble(ctx)
    ensures Header <= prompt
    ensures |prompt| >= |UserSection(ctx.userMessage)| &&
      prompt[|prompt| - |UserSection(ctx.userMessage)|..] == UserSection(ctx.userMessage)
  {
    prompt := AppendHistory(Header, ctx.recentMessages);
    prompt := AppendKnowledge(prompt, ctx.ragChunks);
    var p := ctx.pluginResult;
    if p.Some? && p.value.success {
      prompt := prompt + ToolSection(p);
    } else {
      assert ToolSection(p) == "";
      assert prompt + ToolSection(p) == prompt;
    }
    prompt := prompt + UserSection(ctx.userMessage);
    AppendedInOrder(ctx);
    PromptEnds(ctx);
  }


  /**
   * Regrouping three abstract strings. Stated as a lemma so that the solver
   * meets the pieces as opaque values: written inline next to the section
   * definitions, the same step costs the loop proofs several times as much.
   */
  lemma Reassociate(a: string, b: string, c: string)
    ensures a + (b + c) == a + b + c
  {
  }

  /** Appending the sections to the header one after another yields the assembled prompt. */
  lemma AppendedInOrder(ctx: PromptContext)
    ensures Header + HistorySection(ctx.recentMessages) + KnowledgeSection(ctx.ragChunks) +
      ToolSection(ctx.pluginResult) + UserSection(ctx.userMessage) == Assemble(ctx)
  {
    Regroup(Header, HistorySection(ctx.recentMessages), KnowledgeSection(ctx.ragChunks),
      ToolSection(ctx.pluginResult), UserSection(ctx.userMessage));
  }

  /** Appending parts one by one is appending the body they make up. */
  lemma Regroup(a: string, h: string, k: string, t: string, u: string)
    ensures a + h + k + t + u == a + (h + k + t + u)
  {
    assert a + (h + k) == a + h + k;
    assert a + (h + k + t) == a + h + k + t;
    assert a + (h + k + t + u) == a + h + k + t + u;
  }

  lemma DropFront(a: string, b: string)
    ensures (a + b)[|a|..] == b
  {
  }

  lemma PrefixExtends(x: string, a: string, b: string)
    requires x <= a
    ensures x <= a + b
  {
    assert (a + b)[..|x|] == a[..|x|];
  }

  /** The last part of a concatenation ends it. */
  lemma EndsWithLast(a: string, u: string)
    ensures |a + u| >= |u| && (a + u)[|a + u| - |u|..] == u
  {
    DropFront(a, u);
  }

  /** The header opens the prompt and the user's message, followed by the assistant cue, closes it. */
  lemma PromptEnds(ctx: PromptContext)
    ensures Header <= Assemble(ctx)
    ensures var u := UserSection(ctx.userMessage); var p := Assemble(ctx);
      |p| >= |u| && p[|p| - |u|..] == u
  {
    var front := HistorySection(ctx.recentMessages) + KnowledgeSection(ctx.ragChunks) + ToolSection(ctx.pluginResult);
    var u := UserSection(ctx.userMessage);
    PrefixExtends(Header, Header, Body(ctx));
    Reassociate(Header, front, u);
    EndsWithLast(Header + front, u);
  }

  /** Where each section starts within the body. */
  function KnowledgeStart(ctx: PromptContext): nat {
    |HistorySection(ctx.recentMessages)|
  }

  function ToolStart(ctx: PromptContext): nat {
    KnowledgeStart(ctx) + |KnowledgeSection(ctx.ragChunks)|
  }

  function UserStart(ctx: PromptContext): nat {
    ToolStart(ctx) + |ToolSection(ctx.pluginResult)|
  }

  /** Two titles that differ at position `j` cannot both begin the same text. */
  lemma Exclusive(x: string, y: string, s: string, j: nat)
    requires y <= s && j < |x| && j < |y| && x[j] != y[j]
    ensures !(x <= s)
  {
    assert s[j] == y[j];
  }

  /** The suffixes of a four-part concatenation. */
  lemma Suffixes(h: string, k: string, t: string, u: string)
    ensures var p := h + k + t + u;
      && |h| + |k| + |t| <= |p|
      && p == h + (k + (t + u))
      && p[|h|..] == k + (t + u)
      && p[|h| + |k|..] == t + u
      && p[|h| + |k| + |t|..] == u
  {
    assert h + k + (t + u) == h + k + t + u;
    assert h + (k + t + u) == h + k + t + u;
    var p := h + k + t + u;
    assert p == h + (k + (t + u));
    DropFront(h, k + (t + u));
    assert p[|h| + |k|..] == (k + (t + u))[|k|..];
    DropFront(k, t + u);
    assert p[|h| + |k| + |t|..] == (t + u)[|t|..];
    DropFront(t, u);
  }

  /** The body, grouped from the right: the history, then everything after it. */
  lemma BodyFromHistory(ctx: PromptContext)
    ensures Body(ctx) == HistorySection(ctx.recentMessages) +
      (KnowledgeSection(ctx.ragChunks) + (ToolSection(ctx.pluginResult) + UserSection(ctx.userMessage)))
  {
    Suffixes(HistorySection(ctx.recentMessages), KnowledgeSection(ctx.ragChunks),
      ToolSection(ctx.pluginResult), UserSection(ctx.userMessage));
  }

  /** The body from the knowledge section's start on. */
  lemma TailFromKnowledge(ctx: PromptContext)
    ensures var b := Body(ctx);
      KnowledgeStart(ctx) <= |b| &&
      b[KnowledgeStart(ctx)..] == KnowledgeSection(ctx.ragChunks) + (ToolSection(ctx.pluginResult) + UserSection(ctx.userMessage))
  {
    Suffixes(HistorySection(ctx.recentMessages), KnowledgeSection(ctx.ragChunks),
      ToolSection(ctx.pluginResult), UserSection(ctx.userMessage));
  }

  /** The body from the tool section's start on. */
  lemma TailFromTool(ctx: PromptContext)
    ensures var b := Body(ctx);
      ToolStart(ctx) <= |b| && b[ToolStart(ctx)..] == ToolSection(ctx.pluginResult) + UserSection(ctx.userMessage)
  {
    Suffixes(HistorySection(ctx.recentMessages), KnowledgeSection(ctx.ragChunks),
      ToolSection(ctx.pluginResult), UserSection(ctx.userMessage));
  }

  /** The body from the user section's start on. */
  lemma TailFromUser(ctx: PromptContext)
    ensures var b := Body(ctx);
      UserStart(ctx) <= |b| && b[UserStart(ctx)..] == UserSection(ctx.userMessage)
  {
    Suffixes(HistorySection(ctx.recentMessages), KnowledgeSection(ctx.ragChunks),
      ToolSection(ctx.pluginResult), UserSection(ctx.userMessage));
  }

  /** The title that opens the text after the history section. */
  function KnowledgeLead(ctx: PromptContext): string {
    if |ctx.ragChunks| > 0 then KnowledgeTitle else ToolLead(ctx)
  }

  /** The title that opens the text after the knowledge section. */
  function ToolLead(ctx: PromptContext): string {
    if ctx.pluginResult.Some? && ctx.pluginResult.value.success then ToolTitle else UserTitle
  }

  lemma ToolLeadBegins(ctx: PromptContext)
    ensures ToolLead(ctx) <= ToolSection(ctx.pluginResult) + UserSection(ctx.userMessage)
  {
    var t := ToolSection(ctx.pluginResult);
    var u := UserSection(ctx.userMessage);
    if t == "" {
      assert t + u == u;
      PrefixExtends(UserTitle, UserTitle, ctx.userMessage);
      PrefixExtends(UserTitle, UserTitle + ctx.userMessage, Closing);
    } else {
      var p := ctx.pluginResult.value;
      assert t == ToolTitle + "Used " + KindName(p.kind) + " tool for \"" + p.input + "\"\n" + "Result: " + p.output + "\n\n";
      assert t[..|ToolTitle|] == ToolTitle;
      PrefixExtends(ToolTitle, t, u);
    }
  }

  lemma KnowledgeLeadBegins(ctx: PromptContext)
    ensures KnowledgeLead(ctx) <= KnowledgeSection(ctx.ragChunks) + (ToolSection(ctx.pluginResult) + UserSection(ctx.userMessage))
  {
    var k := KnowledgeSection(ctx.ragChunks);
    var rest := ToolSection(ctx.pluginResult) + UserSection(ctx.userMessage);
    if |ctx.ragChunks| == 0 {
      assert k + rest == rest;
      ToolLeadBegins(ctx);
    } else {
      PrefixExtends(KnowledgeTitle, KnowledgeTitle, KnowledgeEntries(ctx.ragChunks));
      PrefixExtends(KnowledgeTitle, k, rest);
    }
  }

  /** With recent messages, the body opens with the history title. */
  lemma HistoryPresent(ctx: PromptContext)
    requires |ctx.recentMessages| > 0
    ensures HistoryTitle <= Body(ctx)
  {
    BodyFromHistory(ctx);
    var ms := ctx.recentMessages;
    var rest := KnowledgeSection(ctx.ragChunks) + (ToolSection(ctx.pluginResult) + UserSection(ctx.userMessage));
    PrefixExtends(HistoryTitle, HistoryTitle, HistoryLines(ms));
    PrefixExtends(HistoryTitle, HistoryTitle + HistoryLines(ms), "\n");
    PrefixExtends(HistoryTitle, HistorySection(ms), rest);
  }

  /** Whatever follows an empty history differs from the history title. */
  lemma KnowledgeLeadDiffers(ctx: PromptContext) returns (j: nat)
    ensures j < |HistoryTitle| && j < |KnowledgeLead(ctx)| && HistoryTitle[j] != KnowledgeLead(ctx)[j]
  {
    j := if |ctx.ragChunks| > 0 then 2 else 0;
  }

  /** Without recent messages, the body does not open with the history title. */
  lemma HistoryAbsent(ctx: PromptContext)
    requires |ctx.recentMessages| == 0
    ensures !(HistoryTitle <= Body(ctx))
  {
    BodyFromHistory(ctx);
    var rest := KnowledgeSection(ctx.ragChunks) + (ToolSection(ctx.pluginResult) + UserSection(ctx.userMessage));
    assert HistorySection(ctx.recentMessages) + rest == rest;
    KnowledgeLeadBegins(ctx);
    var j := KnowledgeLeadDiffers(ctx);
    Exclusive(HistoryTitle, KnowledgeLead(ctx), rest, j);
  }

  /** Right after the header the text begins with the history title exactly when there are recent messages. */
  lemma HistorySectionIff(ctx: PromptContext)
    ensures Assemble(ctx)[|Header|..] == Body(ctx)
    ensures HistoryTitle <= Body(ctx) <==> |ctx.recentMessages| > 0
  {
    DropFront(Header, Body(ctx));
    if |ctx.recentMessages| > 0 {
      HistoryPresent(ctx);
    } else {
      HistoryAbsent(ctx);
    }
  }

  /** After the history, the text begins with the knowledge title exactly when chunks were retrieved. */
  lemma KnowledgeSectionIff(ctx: PromptContext)
    ensures var b := Body(ctx);
      KnowledgeStart(ctx) <= |b| && (KnowledgeTitle <= b[KnowledgeStart(ctx)..] <==> |ctx.ragChunks| > 0)
  {
    TailFromKnowledge(ctx);
    KnowledgeLeadBegins(ctx);
    if |ctx.ragChunks| == 0 {
      Exclusive(KnowledgeTitle, KnowledgeLead(ctx), KnowledgeSection(ctx.ragChunks) + (ToolSection(ctx.pluginResult) + UserSection(ctx.userMessage)), 0);
    }
  }

  /** After the knowledge, the text begins with the tool title exactly when a plugin succeeded. */
  lemma ToolSectionIff(ctx: PromptContext)
    ensures var b := Body(ctx);
      ToolStart(ctx) <= |b| &&
      (ToolTitle <= b[ToolStart(ctx)..] <==> ctx.pluginResult.Some? && ctx.pluginResult.value.success)
  {
    TailFromTool(ctx);
    ToolLeadBegins(ctx);
    if !(ctx.pluginResult.Some? && ctx.pluginResult.value.success) {
      Exclusive(ToolTitle, UserTitle, ToolSection(ctx.pluginResult) + UserSection(ctx.userMessage), 0);
    }
  }

  /** The user's message comes last, after every optional section. */
  lemma UserSectionLast(ctx: PromptContext)
    ensures var b := Body(ctx);
      UserStart(ctx) <= |b| && b[UserStart(ctx)..] == UserTitle + ctx.userMessage + Closing
  {
    TailFromUser(ctx);
  }

  /** `piece` occurs in `whole` at position `off`. */
  predicate PieceAt(whole: string, off: nat, piece: string) {
    off + |piece| <= |whole| && whole[off..off + |piece|] == piece
  }

  /** A piece found in the front part of a text is found at the same place in the whole. */
  lemma PieceInFront(whole: string, front: string, back: string, off: nat, piece: string)
    requires whole == front + back
    requires PieceAt(front, off, piece)
    ensures PieceAt(whole, off, piece)
  {
    assert whole[off..off + |piece|] == front[off..off + |piece|];
  }

  /** The back part of a text is found right after the front part. */
  lemma PieceAtBack(whole: string, front: string, back: string)
    requires whole == front + back
    ensures PieceAt(whole, |front|, back)
  {
  }

  lemma HistoryLinesStep(ms: seq<Message>, n: nat)
    requires 0 < n <= |ms|
    ensures HistoryLines(ms[..n]) == HistoryLines(ms[..n - 1]) + HistoryLine(ms[n - 1])
  {
    assert ms[..n][..n - 1] == ms[..n - 1];
  }

  lemma KnowledgeEntriesStep(cs: seq<RAGChunk>, n: nat)
    requires 0 < n <= |cs|
    ensures KnowledgeEntries(cs[..n]) == KnowledgeEntries(cs[..n - 1]) + KnowledgeEntry(n, cs[n - 1])
  {
    assert cs[..n][..n - 1] == cs[..n - 1];
  }

  /** Within the lines of the first `n` messages, message `i` follows the lines of the messages before it. */
  predicate LineInPrefix(ms: seq<Message>, n: nat, i: nat)
    requires i < n <= |ms|
  {
    PieceAt(HistoryLines(ms[..n]), |HistoryLines(ms[..i])|, HistoryLine(ms[i]))
  }

  lemma LastLineInPrefix(ms: seq<Message>, n: nat)
    requires 0 < n <= |ms|
    ensures LineInPrefix(ms, n, n - 1)
  {
    HistoryLinesStep(ms, n);
    PieceAtBack(HistoryLines(ms[..n]), HistoryLines(ms[..n - 1]), HistoryLine(ms[n - 1]));
  }

  lemma EarlierLineInPrefix(ms: seq<Message>, n: nat, i: nat)
    requires i < n - 1 && n <= |ms|
    requires LineInPrefix(ms, n - 1, i)
    ensures LineInPrefix(ms, n, i)
  {
    HistoryLinesStep(ms, n);
    PieceInFront(HistoryLines(ms[..n]), HistoryLines(ms[..n - 1]), HistoryLine(ms[n - 1]),
      |HistoryLines(ms[..i])|, HistoryLine(ms[i]));
  }

  lemma {:induction false} HistoryLineInPrefix(ms: seq<Message>, n: nat, i: nat)
    requires i < n <= |ms|
    ensures LineInPrefix(ms, n, i)
    decreases n
  {
    if i == n - 1 {
      LastLineInPrefix(ms, n);
    } else {
      HistoryLineInPrefix(ms, n - 1, i);
      EarlierLineInPrefix(ms, n, i);
    }
  }

  /** Message `i` is rendered as `ROLE: content` after the lines of all earlier messages. */
  lemma HistoryLineAt(ms: seq<Message>, i: nat)
    requires i < |ms|
    ensures var off := |HistoryLines(ms[..i])|;
      var line := HistoryLine(ms[i]);
      off + |line| <= |HistoryLines(ms)| && HistoryLines(ms)[off..off + |line|] == line
  {
    HistoryLineInPrefix(ms, |ms|, i);
    assert ms[..|ms|] == ms;
  }

  /** Within the entries of the first `n` chunks, entry `i` follows the entries of the chunks before it. */
  predicate EntryInPrefix(cs: seq<RAGChunk>, n: nat, i: nat)
    requires i < n <= |cs|
  {
    PieceAt(KnowledgeEntries(cs[..n]), |KnowledgeEntries(cs[..i])|, KnowledgeEntry(i + 1, cs[i]))
  }

  lemma LastEntryInPrefix(cs: seq<RAGChunk>, n: nat)
    requires 0 < n <= |cs|
    ensures EntryInPrefix(cs, n, n - 1)
  {
    KnowledgeEntriesStep(cs, n);
    PieceAtBack(KnowledgeEntries(cs[..n]), KnowledgeEntries(cs[..n - 1]), KnowledgeEntry(n, cs[n - 1]));
  }

  lemma EarlierEntryInPrefix(cs: seq<RAGChunk>, n: nat, i: nat)
    requires i < n - 1 && n <= |cs|
    requires EntryInPrefix(cs, n - 1, i)
    ensures EntryInPrefix(cs, n, i)
  {
    KnowledgeEntriesStep(cs, n);
    PieceInFront(KnowledgeEntries(cs[..n]), KnowledgeEntries(cs[..n - 1]), KnowledgeEntry(n, cs[n - 1]),
      |KnowledgeEntries(cs[..i])|, KnowledgeEntry(i + 1, cs[i]));
  }

  lemma {:induction false} KnowledgeEntryInPrefix(cs: seq<RAGChunk>, n: nat, i: nat)
    requires i < n <= |cs|
    ensures EntryInPrefix(cs, n, i)
    decreases n
  {
    if i == n - 1 {
      LastEntryInPrefix(cs, n);
    } else {
      KnowledgeEntryInPrefix(cs, n - 1, i);
      EarlierEntryInPrefix(cs, n, i);
    }
  }

  /** Knowledge entry `i` (0-based) carries the number `i + 1`, after the entries of all earlier chunks. */
  lemma KnowledgeEntryAt(cs: seq<RAGChunk>, i: nat)
    requires i < |cs|
    ensures var off := |KnowledgeEntries(cs[..i])|;
      var entry := KnowledgeEntry(i + 1, cs[i]);
      off + |entry| <= |KnowledgeEntries(cs)| && KnowledgeEntries(cs)[off..off + |entry|] == entry
  {
    KnowledgeEntryInPrefix(cs, |cs|, i);
    assert cs[..|cs|] == cs;
  }

  /** With no history, no knowledge and no successful tool result, the prompt is the header and the user section. */
  lemma BarePrompt(m: string, p: Option<PluginResult>)
    requires p.None? || !p.value.success
    ensures Assemble(PromptContext([], [], p, m)) == Header + UserTitle + m + Closing
  {
  }
}
