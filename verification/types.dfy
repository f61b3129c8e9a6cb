/**
 * The records exchanged by the agent back end. Dates are abstract integer
 * timestamps (milliseconds since the epoch); `RAGChunk.score` is a real.
 */
module Types {
  import opened Wrappers

  datatype Role = User | Assistant | System

  /** One turn of a conversation; immutable once created. */
  datatype Message = Message(role: Role, content: string, timestamp: int)

  /** A conversation: its messages in chronological order, oldest first. */
  datatype Session = Session(id: string, messages: seq<Message>, createdAt: int, lastActivity: int)

  /** A paragraph of knowledge, the file it came from, and its similarity to the current query. */
  datatype RAGChunk = RAGChunk(content: string, filename: string, score: real)

  datatype PluginKind = Weather | Math

  /** What a plugin reports: which plugin, the text it was given, its answer or diagnostic. */
  datatype PluginResult = PluginResult(kind: PluginKind, input: string, output: string, success: bool)

  /** The request body; either field may be absent. */
  datatype AgentRequest = AgentRequest(message: Option<string>, sessionId: Option<string>)

  datatype AgentResponse = AgentResponse(response: string, sessionId: string, timestamp: int)
}
