/**
 * The session store of `MemoryManager`: a map from session id to session,
 * with a FIFO cap on each session's history and time-based eviction.
 * Clock readings (`new Date()`, `Date.now()`) are the parameter `now`.
 */
module Memory {
  import opened Types
  import opened Wrappers
  import Js

  /** Messages kept per session. */
  const MaxMessages: nat := 50

  /** How long an idle session survives `cleanupOldSessions`: 24 hours, in milliseconds. */
  const RetentionMs: int := 24 * 60 * 60 * 1000

  type Store = map<string, Session>

  /** Every stored session is filed under its own id and holds between 1 and 50 messages. */
  predicate Valid(store: Store) {
    forall id | id in store :: store[id].id == id && 1 <= |store[id].messages| <= MaxMessages
  }

  /** The messages stored for `id`, empty when there is no such session. */
  function History(store: Store, id: string): seq<Message> {
    if id in store then store[id].messages else []
  }

  /** The last `n` elements of `s`, or all of `s` when it is shorter. */
  function LastN<T>(s: seq<T>, n: nat): seq<T> {
    if |s| <= n then s else s[|s| - n..]
  }

  /** `addMessage`: create the session if absent, append, stamp the activity time, keep the last 50. */
  function AddMessage(store: Store, sessionId: string, message: Message, now: int): (r: Store)
    ensures r.Keys == store.Keys + {sessionId}
    ensures forall id | id in store && id != sessionId :: r[id] == store[id]
    ensures sessionId !in store ==> r[sessionId] == Session(sessionId, [message], now, now)
    ensures sessionId in store ==>
      && r[sessionId].id == store[sessionId].id
      && r[sessionId].createdAt == store[sessionId].createdAt
    ensures r[sessionId].lastActivity == now
    ensures var before := History(store, sessionId);
      var after := r[sessionId].messages;
      && |after| >= 1 && after[|after| - 1] == message
      && (|before| < MaxMessages ==> after == before + [message])
      && (|before| == MaxMessages ==> after == before[1..] + [message])
    ensures Valid(store) ==> Valid(r)
  {
    var session :=
      if sessionId in store then store[sessionId]
      else Session(sessionId, [], now, now);
    var appended := session.messages + [message];
    var kept := if |appended| > MaxMessages then appended[|appended| - MaxMessages..] else appended;
    store[sessionId := session.(messages := kept, lastActivity := now)]
  }

  /** `getRecentMessages`: `messages.slice(-count)`, or `[]` for an unknown session. */
  function GetRecentMessages(store: Store, sessionId: string, count: int): (r: seq<Message>)
    ensures sessionId !in store ==> r == []
    ensures var h := History(store, sessionId);
      && |r| <= |h| && r == h[|h| - |r|..]
      && (count >= 1 ==> |r| == if count < |h| then count else |h|)
      && (count == 0 ==> r == h)
      && (count < 0 ==> |r| == if |h| + count < 0 then 0 else |h| + count)
  {
    if sessionId !in store then [] else Js.SliceFrom(store[sessionId].messages, -count)
  }

  /** `getSession`. */
  function GetSession(store: Store, sessionId: string): (r: Option<Session>)
    ensures r.Some? <==> sessionId in store
    ensures r.Some? ==> r.value == store[sessionId]
  {
    if sessionId in store then Some(store[sessionId]) else None
  }

  /** `clearSession`: forget one session and nothing else. */
  function ClearSession(store: Store, sessionId: string): (r: Store)
    ensures r.Keys == store.Keys - {sessionId}
    ensures forall id | id in r :: r[id] == store[id]
    ensures Valid(store) ==> Valid(r)
  {
    store - {sessionId}
  }

  /** After `clearSession(id)`, `getSession(id)` finds nothing. */
  lemma ClearedSessionIsGone(store: Store, sessionId: string)
    ensures GetSession(ClearSession(store, sessionId), sessionId) == None
    ensures GetRecentMessages(ClearSession(store, sessionId), sessionId, 2) == []
  {
  }

  /**
   * `cleanupOldSessions`: walk the sessions and delete every one whose last
   * activity is strictly older than 24 hours before `now`.
   */
  method CleanupOldSessions(store: Store, now: int) returns (r: Store)
    ensures forall id :: id in r <==> id in store && store[id].lastActivity >= now - RetentionMs
    ensures forall id | id in r :: r[id] == store[id]
    ensures Valid(store) ==> Valid(r)
  {
    var cutoff := now - RetentionMs;
    r := store;
    var pending := store.Keys;
    while pending != {}
      invariant pending <= store.Keys && r.Keys <= store.Keys
      invariant forall id | id in r :: r[id] == store[id]
      invariant forall id | id in pending :: id in r
      invariant forall id | id in store && id !in pending :: id in r <==> store[id].lastActivity >= cutoff
      decreases pending
    {
      var id :| id in pending;
      if store[id].lastActivity < cutoff {
        r := r - {id};
      }
      pending := pending - {id};
    }
  }

  /** Appending `messages` to one session, in order, at the same clock reading. */
  function AddAll(store: Store, sessionId: string, messages: seq<Message>, now: int): Store
    decreases |messages|
  {
    if |messages| == 0 then store
    else AddAll(AddMessage(store, sessionId, messages[0], now), sessionId, messages[1..], now)
  }

  lemma AddMessageKeepsLastFifty(store: Store, sessionId: string, message: Message, now: int)
    ensures History(AddMessage(store, sessionId, message, now), sessionId)
         == LastN(History(store, sessionId) + [message], MaxMessages)
  {
  }

  lemma LastNOfLastN<T>(x: seq<T>, y: seq<T>, n: nat)
    ensures LastN(LastN(x, n) + y, n) == LastN(x + y, n)
  {
    if |x| > n {
      var q := x[|x| - n..];
      assert x + y == x[..|x| - n] + (q + y);
      assert (x + y)[|x + y| - |LastN(q + y, n)|..] == (q + y)[|q + y| - |LastN(q + y, n)|..];
    }
  }

  /** Capping after the first append and again after the rest is the same as capping once. */
  lemma LastNAppendStep<T>(h: seq<T>, xs: seq<T>, n: nat)
    requires |xs| > 0
    ensures LastN(LastN(h + [xs[0]], n) + xs[1..], n) == LastN(h + xs, n)
  {
    LastNOfLastN(h + [xs[0]], xs[1..], n);
    assert h + [xs[0]] + xs[1..] == h + xs;
  }

  /** However many messages are appended, a session holds exactly the last 50 of its history followed by them. */
  lemma {:induction false} AddAllKeepsLastFifty(store: Store, sessionId: string, messages: seq<Message>, now: int)
    requires |History(store, sessionId)| <= MaxMessages
    ensures History(AddAll(store, sessionId, messages, now), sessionId)
         == LastN(History(store, sessionId) + messages, MaxMessages)
    decreases |messages|
  {
    if |messages| > 0 {
      var next := AddMessage(store, sessionId, messages[0], now);
      AddMessageKeepsLastFifty(store, sessionId, messages[0], now);
      AddAllKeepsLastFifty(next, sessionId, messages[1..], now);
      LastNAppendStep(History(store, sessionId), messages, MaxMessages);
    }
  }

  /** After 51 appends to a new session, the first message has been dropped and the window of 50 is the rest. */
  lemma FiftyOneAppendsDropTheFirst(store: Store, sessionId: string, messages: seq<Message>, now: int)
    requires sessionId !in store && |messages| == MaxMessages + 1
    ensures var r := AddAll(store, sessionId, messages, now);
      && History(r, sessionId) == messages[1..]
      && GetRecentMessages(r, sessionId, 50) == messages[1..]
      && (messages[0] !in messages[1..] ==> messages[0] !in GetRecentMessages(r, sessionId, 50))
  {
    AddAllKeepsLastFifty(store, sessionId, messages, now);
    var r := AddAll(store, sessionId, messages, now);
    assert sessionId in r by {
      AddAllKeepsLastFifty(store, sessionId, messages, now);
    }
  }

  /** Right after `addMessage`, the recent window ends with the message just added. */
  lemma RecentEndsWithLatest(store: Store, sessionId: string, message: Message, now: int, count: int)
    requires count >= 1
    ensures var w := GetRecentMessages(AddMessage(store, sessionId, message, now), sessionId, count);
      |w| >= 1 && w[|w| - 1] == message
  {
    var after := AddMessage(store, sessionId, message, now);
    var h := History(after, sessionId);
    assert |h| >= 1 && h[|h| - 1] == message;
    var w := GetRecentMessages(after, sessionId, count);
    assert |w| >= 1 && w == h[|h| - |w|..];
    assert w[|w| - 1] == h[|h| - 1];
  }
}
