/**
 * The `/message` handler: validate the body, record the user's message,
 * read the recent history, retrieve knowledge, try the plugins, answer with
 * the plugin's output or the canned generator, and record the answer.
 * The handler's module-level singletons are the state; everything it reaches
 * outside the process is a collaborator. Every `new Date()` of one request
 * reads the same instant `now`.
 */
module Controller {
  import opened Types
  import opened Wrappers
  import Memory
  import Rag
  import Plugins
  import FreeAI

  /** The memory manager's sessions and the retrieval service's fields. */
  datatype ServerState = ServerState(store: Memory.Store, rag: Rag.RagState)

  /** What the handler depends on beyond its state: the documents, the square root, the weather lookup, the evaluator, the clock text. */
  datatype Collaborators = Collaborators(
    corpus: Rag.Corpus,
    sqrt: real -> real,
    lookup: string -> (string, bool),
    eval: string -> Option<string>,
    clockText: string)

  datatype Outcome = BadRequest(error: string) | Ok(response: AgentResponse)

  const MissingFields: string := "Message and session_id are required"

  /** How many recent messages the handler reads, and how many chunks it retrieves. */
  const RecentCount: int := 2
  const TopK: int := 3

  /** `!message || !session_id`: absent or empty. */
  predicate IsValid(req: AgentRequest) {
    req.message.Some? && req.message.value != "" && req.sessionId.Some? && req.sessionId.value != ""
  }

  /** The answer text: a successful plugin's output, otherwise the canned generator's reply. */
  function ReplyText(message: string, env: Collaborators): string {
    var plugin := Plugins.DetectAndExecute(message, env.lookup, env.eval);
    if plugin.Some? && plugin.value.success then plugin.value.output
    else FreeAI.GenerateResponse(message, env.clockText)
  }

  /** The two appends of a handled request: the user's message, then the reply. */
  function RecordExchange(store: Memory.Store, id: string, message: string, reply: string, now: int): Memory.Store {
    var afterUser := Memory.AddMessage(store, id, Message(User, message, now), now);
    Memory.AddMessage(afterUser, id, Message(Assistant, reply, now), now)
  }

  /** Recording an exchange files it under its session and leaves every other session as it was. */
  lemma RecordExchangeTouchesOneSession(store: Memory.Store, id: string, message: string, reply: string, now: int)
    ensures var after := RecordExchange(store, id, message, reply, now);
      && after.Keys == store.Keys + {id}
      && (forall other | other in store && other != id :: after[other] == store[other])
  {
  }

  lemma LastTwoSurviveCap(h: seq<Message>, n: nat)
    requires n >= 2 && |h| >= 2
    ensures |Memory.LastN(h, n)| >= 2
    ensures Memory.LastN(h, n)[|Memory.LastN(h, n)| - 2..] == h[|h| - 2..]
  {
  }

  /** Recording an exchange is appending the pair of messages in order. */
  lemma RecordExchangeIsAddAll(store: Memory.Store, id: string, message: string, reply: string, now: int)
    ensures RecordExchange(store, id, message, reply, now)
         == Memory.AddAll(store, id, [Message(User, message, now), Message(Assistant, reply, now)], now)
  {
    var user := Message(User, message, now);
    var assistant := Message(Assistant, reply, now);
    var s1 := Memory.AddMessage(store, id, user, now);
    var s2 := Memory.AddMessage(s1, id, assistant, now);
    assert [user, assistant][1..] == [assistant];
    assert [assistant][1..] == [];
    assert Memory.AddAll(s2, id, [], now) == s2;
    assert Memory.AddAll(s1, id, [assistant], now) == s2;
  }

  /** Recording an exchange appends the user's message and then the reply, under the 50-message cap. */
  lemma RecordExchangeAppendsTwo(store: Memory.Store, id: string, message: string, reply: string, now: int)
    requires |Memory.History(store, id)| <= Memory.MaxMessages
    ensures var after := RecordExchange(store, id, message, reply, now);
      var pair := [Message(User, message, now), Message(Assistant, reply, now)];
      && Memory.History(after, id) == Memory.LastN(Memory.History(store, id) + pair, Memory.MaxMessages)
      && |Memory.History(after, id)| >= 2
      && Memory.History(after, id)[|Memory.History(after, id)| - 2..] == pair
  {
    var pair := [Message(User, message, now), Message(Assistant, reply, now)];
    RecordExchangeIsAddAll(store, id, message, reply, now);
    Memory.AddAllKeepsLastFifty(store, id, pair, now);
    var h := Memory.History(store, id) + pair;
    LastTwoSurviveCap(h, Memory.MaxMessages);
    assert h[|h| - 2..] == pair;
  }

  /**
   * What a valid request does to the state: the user's message is appended,
   * the recent window is read (and not used further), the retrieval service
   * is initialised and queried, and the reply is appended.
   */
  function Commit(st: ServerState, id: string, message: string, reply: string, env: Collaborators, now: int): (r: ServerState)
    ensures r.store == RecordExchange(st.store, id, message, reply, now)
    ensures r.rag == Rag.Initialize(st.rag, env.corpus, env.sqrt)
  {
    var afterUser := Memory.AddMessage(st.store, id, Message(User, message, now), now);
    var recentMessages := Memory.GetRecentMessages(afterUser, id, RecentCount);
    var (rag, ragChunks) := Rag.Retrieve(st.rag, env.corpus, env.sqrt, message, TopK);
    ServerState(Memory.AddMessage(afterUser, id, Message(Assistant, reply, now), now), rag)
  }

  /** The handler body, as one transition of the server state. */
  function HandleMessage(st: ServerState, req: AgentRequest, env: Collaborators, now: int): (r: (ServerState, Outcome))
    ensures !IsValid(req) ==> r == (st, BadRequest(MissingFields))
    ensures IsValid(req) ==> r.1.Ok? && r.1.response.sessionId == req.sessionId.value && r.1.response.timestamp == now
    ensures IsValid(req) ==> r.0.rag == Rag.Initialize(st.rag, env.corpus, env.sqrt)
    ensures IsValid(req) ==>
      r.0.store == RecordExchange(st.store, req.sessionId.value, req.message.value, r.1.response.response, now)
  {
    if !IsValid(req) then (st, BadRequest(MissingFields))
    else
      var message, id := req.message.value, req.sessionId.value;
      var reply := ReplyText(message, env);
      (Commit(st, id, message, reply, env, now), Ok(AgentResponse(reply, id, now)))
  }

  /** Recording an exchange keeps the store well formed. */
  lemma RecordExchangeKeepsValid(store: Memory.Store, id: string, message: string, reply: string, now: int)
    requires Memory.Valid(store)
    ensures Memory.Valid(RecordExchange(store, id, message, reply, now))
  {
  }

  /** Handling any request, valid or not, keeps the store well formed. */
  lemma HandleMessageKeepsValid(st: ServerState, req: AgentRequest, env: Collaborators, now: int)
    requires Memory.Valid(st.store)
    ensures Memory.Valid(HandleMessage(st, req, env, now).0.store)
  {
    if IsValid(req) {
      var r := HandleMessage(st, req, env, now);
      RecordExchangeKeepsValid(st.store, req.sessionId.value, req.message.value, r.1.response.response, now);
    }
  }

  /** The reply is the plugin's output when a plugin succeeded, and the canned reply to the message otherwise. */
  lemma ReplySelection(st: ServerState, req: AgentRequest, env: Collaborators, now: int)
    requires IsValid(req)
    ensures var plugin := Plugins.DetectAndExecute(req.message.value, env.lookup, env.eval);
      var reply := HandleMessage(st, req, env, now).1.response.response;
      && (plugin.Some? && plugin.value.success ==> reply == plugin.value.output)
      && (plugin.None? || !plugin.value.success ==> reply == FreeAI.GenerateResponse(req.message.value, env.clockText))
  {
  }

  /** The reply and the response do not depend on the stored history or the retrieval state. */
  lemma ReplyIgnoresState(st1: ServerState, st2: ServerState, req: AgentRequest, env: Collaborators, now: int)
    ensures HandleMessage(st1, req, env, now).1 == HandleMessage(st2, req, env, now).1
  {
  }
}
