# ai-agent-backend: the `/agent/message` pipeline in Dafny

This project models the request orchestration behind the `/agent/message`
endpoint of the ai-agent-backend service and proves properties of that model.
A request carries a message and a session id. The handler:

1. validates the request;
2. appends the user's message to an in-memory session store, capped at 50 messages per session;
3. reads the last two messages;
4. initialises the retrieval service once and ranks its document chunks against the message;
5. tries the plugins (a weather lookup first, then arithmetic);
6. answers with a successful plugin's output, or else with a canned reply from a keyword-rule generator;
7. appends that answer to the session.

The model is functional. The session store is a `map` from session id to
session. The handler is one transition `HandleMessage` from a `ServerState`
(the store and the retrieval service's fields) to a new state and an outcome.
Everything outside the process is a parameter:

- the Markdown corpus as read from disk (`Rag.Corpus`: files in listing order, or a read error);
- the square root (`sqrt: real -> real`; lemmas that need it assume `Similarity.IsSqrt`);
- the weather web service (`lookup`);
- the `Function(...)` evaluator of the math plugin (`eval`, `None` when it throws);
- the clock (`now`, in milliseconds) and the clock's rendered text (`clockText`).

Modules follow the source files:

- `Types`: the records of `src/types/index.ts`.
- `Memory`: `MemoryManager`.
- `Patterns`: the case-insensitive phrase regexes and the digit-operator-digit shape, as scanners.
- `Plugins`: `PluginDetector`.
- `MathPlugin`: the math plugin.
- `Similarity`: `SimilarityService`.
- `Embedding`: `FreeEmbeddingService`.
- `Rag`: `RAGService`.
- `Prompt`: `PromptBuilder`.
- `FreeAI`: `FreeAIService`.
- `Controller`: the route handler.
- `Text` and `Js`: the JavaScript string and `slice` semantics they rely on.

JavaScript behaviour is written out where it matters:

- `slice` with negative and zero arguments (`slice(-0)` is the whole array).
- `split('\n\n')` and `split(/\s+/)` (`"".split(/\s+/)` is `[""]`).
- `trim` and white space.
- ToInt32 wrap-around of `simpleHash`.
- The stability of `Array.prototype.sort`.
- Greedy `\s+` and the one-character backtrack of the weather capture.
- Case-insensitive matching folds only ASCII letters.

## Model

| member | source | states |
|---|---|---|
| Memory.AddMessage | src/memory/memoryManager.ts:6-26 | an absent id gets a new session holding only the message; an existing session keeps its id and creation time; the message is appended last; under 50 messages the earlier ones are kept as they were, at 50 exactly the oldest is dropped; the activity time is stamped; no other session changes; every session stays filed under its own id with 1 to 50 messages |
| Memory.AddAllKeepsLastFifty | src/memory/memoryManager.ts:19-25 | after any run of appends a session holds exactly the last 50 of its old history followed by the appended messages |
| Memory.FiftyOneAppendsDropTheFirst | src/memory/memoryManager.ts:22-25 | after 51 appends to a new session the first message is gone and both the history and the window of 50 are the other 50 |
| Memory.GetRecentMessages | src/memory/memoryManager.ts:28-33 | `[]` for an unknown session; otherwise a suffix of the history: the last min(count, n) for count >= 1, all n for count 0 (`slice(-0)`), and all but the first -count for negative count |
| Memory.RecentEndsWithLatest | src/memory/memoryManager.ts:6-33 | right after an append, every window of at least one message ends with the appended message |
| Memory.GetSession | src/memory/memoryManager.ts:35-37 | a session is returned exactly when the id is stored, and it is the stored one |
| Memory.ClearSession | src/memory/memoryManager.ts:39-41 | exactly the given id is removed, the other sessions are unchanged, and the store stays well formed |
| Memory.ClearedSessionIsGone | src/memory/memoryManager.ts:35-41 | after clearing an id, looking it up finds nothing and its recent window is empty |
| Memory.CleanupOldSessions | src/memory/memoryManager.ts:44-52 | a session survives exactly when its last activity is at or after 24 hours before now (a session at the cutoff is kept); survivors are unchanged; the store stays well formed |
| Patterns.FindWords | src/plugins/mathPlugin.ts:40-42 | the phrase match found is the leftmost one: it matches there and at no earlier position, and none means no position matches |
| Patterns.RemoveFirstDeletesLeftmost | src/plugins/mathPlugin.ts:39-43 | `replace` with a non-global phrase deletes one stretch, the leftmost match, which starts with the phrase's first word and ends in white space; with no match the text is unchanged |
| Plugins.WeatherCaptureAt | src/plugins/pluginManager.ts:11 | a capture exists only where `weather\s+in\s+` matches, and it is a non-empty run of ASCII letters and white space |
| Plugins.WeatherCaptureAtPhraseEnd | src/plugins/pluginManager.ts:11 | where the phrase matches up to `j`, the capture is the greedy run of letters and white space from `j` when a letter follows; otherwise the engine backtracks and captures the phrase's last white-space character, which exists exactly when the final `\s+` took at least two characters |
| Plugins.FirstPresent | src/plugins/pluginManager.ts:11 | a left-to-right search returns nothing exactly when no position has a value, and otherwise the value of a position before which every position has none |
| Plugins.FirstPresentIsLeftmost | src/plugins/pluginManager.ts:11 | the search returns the value at the leftmost position that has one, whatever follows it |
| Plugins.WeatherCapture | src/plugins/pluginManager.ts:11 | `match` gives no capture exactly when the pattern matches nowhere; otherwise the capture at the leftmost position where it matches, every earlier position having none; the capture is a non-empty run of letters and white space |
| Plugins.WeatherCaptureIsLeftmost | src/plugins/pluginManager.ts:11 | if the pattern matches at `i` and nowhere before, `match` captures what it captures at `i` (so "weather in Paris, weather in Rome" asks for Paris) |
| Plugins.City | src/plugins/pluginManager.ts:11-14 | the city is the trimmed capture and is non-empty; there is none exactly when nothing matched or the capture is all white space |
| Plugins.RunWeather | src/plugins/pluginManager.ts:15 | the weather plugin's result is a weather result echoing the city |
| Plugins.DetectAndExecute | src/plugins/pluginManager.ts:9-34 | a city always goes to the weather plugin first; otherwise any of the three arithmetic patterns sends the whole message to the math plugin; null exactly when neither applies; a result is a weather result exactly when a city was found |
| Plugins.LooksLikeMath | src/plugins/pluginManager.ts:20-31 | one of the three arithmetic patterns matches somewhere in the message (see `CalculateTwoPlusTwo`) |
| Plugins.CalculateTwoPlusTwo | src/plugins/pluginManager.ts:20-24 | "calculate 2 + 2" matches the digit-operator-digit pattern at the first 2 and the `calculate` pattern at the start |
| Plugins.NoWeatherWithoutW | src/plugins/pluginManager.ts:11-17 | a message without the letter w, in either case, never yields a city |
| Plugins.CalculateTwoPlusTwoIsMath | src/plugins/pluginManager.ts:9-31 | "calculate 2 + 2" skips the weather plugin and is handed whole to the math plugin |
| Plugins.ParisPlus | src/plugins/pluginManager.ts:11-15 | "weather in Paris plus 2" asks the weather plugin for "Paris plus", since the greedy capture runs past the city, and the math patterns are not consulted |
| MathPlugin.MatchMath | src/plugins/mathPlugin.ts:46-49 | no match exactly when no character belongs to the class; otherwise the scanners find a leftmost maximal run of class characters, and for every such run the match is that run trimmed (so the run is unique); the match is empty exactly when that run is all white space |
| MathPlugin.ExtractMathExpression | src/plugins/mathPlugin.ts:37-50 | the first `calculate`, `what is` and `solve` phrases are removed in turn, the rest trimmed, and the match taken (see `ExtractedIsInClass`, `CalculateTheSumFails`) |
| MathPlugin.LeftmostMathRunFound | src/plugins/mathPlugin.ts:46-49 | a run of class characters with none before it and none right after it starts and ends where the two scanners stop |
| MathPlugin.LeftmostMathRunIsUnique | src/plugins/mathPlugin.ts:46-49 | there is at most one leftmost maximal run of class characters |
| MathPlugin.ExtractedIsInClass | src/plugins/mathPlugin.ts:37-50 | the extracted expression holds only digits, `.`, operators, parentheses and white space |
| MathPlugin.Sanitize | src/plugins/mathPlugin.ts:54 | the sanitised text holds only class characters and is no longer than the input; a text of class characters is kept whole and a text of other characters is deleted whole |
| MathPlugin.SanitizeAppend | src/plugins/mathPlugin.ts:54 | sanitising distributes over concatenation, so with the single-character cases above the sanitiser is exactly the in-order filter keeping the class characters |
| MathPlugin.SanitizeIsIdempotent | src/plugins/mathPlugin.ts:54 | sanitising twice is sanitising once |
| MathPlugin.SanitizerIsIdentityOnExtracted | src/plugins/mathPlugin.ts:52-58 | on a non-empty extracted expression the sanitiser changes nothing and the guard passes |
| MathPlugin.Execute | src/plugins/mathPlugin.ts:4-35 | every result is a math result echoing the argument; it succeeds exactly when a non-empty expression was extracted and evaluated, with output `expr = value`; an empty or missing expression gives "No valid mathematical expression found" and a throwing evaluation gives "Error evaluating mathematical expression", never an escaping error |
| MathPlugin.CalculateTheSumFails | src/plugins/mathPlugin.ts:37-50 | in "calculate the sum 2+2" the leftmost class run is the lone space after "the", so the expression is empty and the plugin fails with "No valid mathematical expression found" although digits follow |
| Similarity.Cosine | src/rag/similarity-service.ts:2-25 | vectors of different lengths, empty vectors, and a zero norm all score 0 |
| Similarity.CosineSimilarity | src/rag/similarity-service.ts:2-25 | the accumulating loop computes the score of the formula |
| Similarity.CosineSymmetric | src/rag/similarity-service.ts:2-25 | the score does not depend on the order of the two vectors |
| Similarity.DotSelf | src/rag/similarity-service.ts:11-16 | a sum of squares is non-negative and is zero exactly for the all-zero vector |
| Similarity.ZeroVectorScoresZero | src/rag/similarity-service.ts:20-22 | a vector scored against an all-zero vector of any length gets 0 |
| Similarity.SelfSimilarityIsOne | src/rag/similarity-service.ts:11-24 | over exact reals a non-zero vector scores exactly 1 against itself |
| Similarity.CauchySchwarz | src/rag/similarity-service.ts:11-24 | the squared dot product is at most the product of the squared norms |
| Similarity.CosineBounded | src/rag/similarity-service.ts:24 | over exact reals every score lies in [-1, 1] |
| Embedding.ToInt32 | src/utils/free-embedding-service.ts:31-32 | the result is a signed 32-bit integer congruent to the input modulo 2^32 |
| Embedding.HashStepIsPolynomial | src/utils/free-embedding-service.ts:31-32 | on a 32-bit hash, `((hash << 5) - hash) + char` followed by `hash & hash` is ToInt32(31 * hash + char) |
| Embedding.HashIsPolynomial | src/utils/free-embedding-service.ts:27-35 | the hash of a string is the polynomial hash with base 31 reduced once to signed 32 bits, so intermediate wrap-around changes nothing |
| Embedding.SimpleHash | src/utils/free-embedding-service.ts:27-35 | the character loop, wrapping after every step, returns the reduced polynomial hash (0 for the empty string) |
| Embedding.Bucket | src/utils/free-embedding-service.ts:12 | every bucket index lies in [0, 1536) |
| Embedding.BucketOfMinInt32 | src/utils/free-embedding-service.ts:12 | the hash -2^31, whose absolute value leaves the 32-bit range, lands in bucket 512 |
| Text.SplitSpacesCutsAtRuns | src/utils/free-embedding-service.ts:7 | `split(/\s+/)` cuts the text into pieces without white space separated by non-empty white-space runs, only the first and last piece possibly empty |
| Text.SplitSpacesIsTheCut | src/utils/free-embedding-service.ts:7 | every such cut of a text is the one `split(/\s+/)` makes, so the runs between the pieces are the maximal white-space runs and the cut is unique |
| Embedding.Tokenize | src/utils/free-embedding-service.ts:7 | the token list is never empty, and it is a cut of the lower-cased text at its maximal white-space runs |
| Embedding.TokensAreTheCut | src/utils/free-embedding-service.ts:7 | any cut of the lower-cased text at maximal white-space runs is the token list, which fixes how many tokens are counted |
| Embedding.CountsAreOccurrences | src/utils/free-embedding-service.ts:9-14 | each bucket counts exactly the tokens whose hash lands in it |
| Embedding.CountsSumToTokens | src/utils/free-embedding-service.ts:9-14 | for every token list the 1536 bucket counts add up to the number of tokens |
| Embedding.BucketCounts | src/utils/free-embedding-service.ts:9-14 | the counting loop yields 1536 counts that add up to the number of tokens, empty tokens included |
| Embedding.EmptyTextCountsOnce | src/utils/free-embedding-service.ts:7-13 | the empty text yields one empty token, counted once in bucket 0 and nowhere else |
| Embedding.Embed | src/utils/free-embedding-service.ts:4 | every embedding has 1536 entries |
| Embedding.EmbeddingIsNonZero | src/utils/free-embedding-service.ts:16-22 | every text, the empty one included, gets a non-zero embedding |
| Text.JoinSplit | src/rag/rag-service.ts:34 | splitting on the paragraph break and joining the pieces back gives the text again |
| Text.Split | src/rag/rag-service.ts:34 | there is always at least one piece, no piece contains the separator, and every piece but the last, followed by all but the last character of the separator, still contains none: each cut is at the first occurrence, so with `JoinSplit` the pieces are fixed |
| Text.FirstOccurrenceCut | src/rag/rag-service.ts:34 | the text before the first occurrence of the separator, extended by the separator less its last character, holds no occurrence |
| Text.SplitCutsAtFirstOccurrence | src/rag/rag-service.ts:34 | `"a\n\n\nb".split('\n\n')` gives "a" and "\nb": a run of three line breaks is cut at its first two |
| Rag.MarkdownFilesMembers | src/rag/rag-service.ts:27 | a file is kept exactly when it was listed and its name ends in `.md` |
| Rag.NonBlankIsRedundant | src/rag/rag-service.ts:34-37 | dropping blank paragraphs first changes no chunk, since the later length test is stricter |
| Rag.FileChunksMembers | src/rag/rag-service.ts:34-44 | a file yields exactly its trimmed paragraphs longer than 50 characters, labelled with its name and score 0 |
| Rag.LoadFilesMembers | src/rag/rag-service.ts:29-45 | the chunks of several files are exactly the chunks of each file |
| Rag.LoadChunksMembers | src/rag/rag-service.ts:22-57 | loading keeps exactly the qualifying paragraphs of the `.md` files; a read failure leaves only the sample chunk |
| Rag.FileChunks | src/rag/rag-service.ts:34-44 | the chunks of one file: its paragraphs, blank ones dropped, each trimmed and kept when longer than 50 characters (see the rows below for order and membership) |
| Rag.LoadFiles | src/rag/rag-service.ts:29-45 | the chunks of the `.md` files, one file after another (see `LoadFilesAppend`) |
| Rag.LoadChunks | src/rag/rag-service.ts:22-57 | a listing gives the chunks of its `.md` files; a read error gives only the sample chunk (see `LoadChunksMembers`, `LoadChunksAppend`) |
| Rag.MarkdownFilesAppend | src/rag/rag-service.ts:27 | the `.md` filter distributes over concatenation of listings, so it keeps the files in listing order |
| Rag.ChunksOfAppend | src/rag/rag-service.ts:36-44 | paragraphs become chunks in paragraph order, one per qualifying occurrence, duplicates kept |
| Rag.ChunksOfOneParagraph | src/rag/rag-service.ts:37-42 | one paragraph gives its trimmed text as a chunk of score 0 labelled with the file when that text is longer than 50 characters, and nothing otherwise |
| Rag.LoadFilesAppend | src/rag/rag-service.ts:29-45 | files contribute their chunks file after file |
| Rag.LoadChunksAppend | src/rag/rag-service.ts:26-45 | the chunks of a listing are those of its first part followed by those of the rest |
| Rag.LoadChunksOfOneFile | src/rag/rag-service.ts:27-45 | a single `.md` file contributes its own chunks and any other file nothing; with `LoadChunksAppend` this fixes the order: file order, then paragraph order |
| Rag.EmbedAll | src/rag/rag-service.ts:59-64 | there is one embedding per chunk, and it is the embedding of that chunk's text |
| Rag.Initialize | src/rag/rag-service.ts:14-20 | an initialised service is left as it is, and afterwards the service is initialised |
| Rag.InitializeIdempotent | src/rag/rag-service.ts:14-20 | initialising twice is initialising once, whatever the second corpus |
| Rag.InitializeFromFresh | src/rag/rag-service.ts:14-20 | from the constructed service, initialisation loads the corpus and puts each chunk's embedding at the chunk's index |
| Rag.MissingEmbeddingScoresZero | src/rag/rag-service.ts:78-81 | a chunk without an embedding is scored against `[]` and gets 0 |
| Rag.Score | src/rag/rag-service.ts:77-87 | each chunk keeps its text and file and gets its similarity to the query embedding |
| Rag.InsertPermutes | src/rag/rag-service.ts:90 | inserting into the sorted prefix adds the element and keeps every other |
| Rag.InsertSorted | src/rag/rag-service.ts:90 | inserting into a descending sequence keeps it descending |
| Rag.SortDesc | src/rag/rag-service.ts:90 | the sort is a permutation and its output is in non-increasing score order |
| Rag.SortKeepsTies | src/rag/rag-service.ts:90 | the sort is stable: for every score, the chunks with that score keep their input order |
| Rag.Retrieve | src/rag/rag-service.ts:66-92 | retrieval initialises the service first; an empty corpus gives `[]`; for topK >= 0 it returns min(topK, number of chunks) chunks, in non-increasing score order |
| Rag.RetrieveIsPrefixOfRanking | src/rag/rag-service.ts:89-91 | the result is a prefix of the stable descending ordering of all scored chunks, which is a permutation of them, and every result scores at least as high as every chunk left out |
| Rag.RetrievedChunksComeFromCorpus | src/rag/rag-service.ts:77-87 | every result is some loaded chunk with its text and file name unchanged and its similarity to the query as score |
| Prompt.AppendHistory | src/agent/promptBuilder.ts:25-31 | the history loop appends the history section |
| Prompt.AppendKnowledge | src/agent/promptBuilder.ts:34-39 | the knowledge loop appends the knowledge section |
| Prompt.BuildPrompt | src/agent/promptBuilder.ts:11-51 | the built prompt is the sections in the order header, history, knowledge, tool, user; it starts with the header and ends with the user section |
| Prompt.PromptEnds | src/agent/promptBuilder.ts:14-48 | every prompt starts with the system header and ends with `USER MESSAGE: ` + message + `\n\nASSISTANT:` |
| Prompt.HistorySectionIff | src/agent/promptBuilder.ts:25-31 | after the header the prompt starts with "RECENT CONVERSATION:" exactly when there are recent messages |
| Prompt.HistoryLineAt | src/agent/promptBuilder.ts:27-29 | message i is rendered as its upper-cased role, `: `, its content and a line break, right after the lines of the earlier messages |
| Prompt.KnowledgeSectionIff | src/agent/promptBuilder.ts:34-39 | after the history, the text starts with "RELEVANT KNOWLEDGE:" exactly when chunks were retrieved |
| Prompt.KnowledgeEntryAt | src/agent/promptBuilder.ts:36-38 | chunk i is rendered with the number i + 1, its file name and its content, right after the entries of the earlier chunks |
| Prompt.ToolSectionIff | src/agent/promptBuilder.ts:42-46 | after the knowledge, the text starts with "TOOL RESULT:" exactly when a plugin result is present and successful |
| Prompt.UserSectionLast | src/agent/promptBuilder.ts:48 | after the tool section comes exactly the user section and nothing else |
| Prompt.BarePrompt | src/agent/promptBuilder.ts:14-48 | with no history, no knowledge and no successful tool result the prompt is the header followed by the user section |
| FreeAI.FirstFiring | src/utils/free-ai-service.ts:2-53 | the chosen rule fires, and every rule before it in the order is silent |
| FreeAI.ClassifyIsFirstFiring | src/utils/free-ai-service.ts:2-53 | a rule answers exactly when it fires and no earlier rule fires |
| FreeAI.ClassifyChain | src/utils/free-ai-service.ts:2-53 | the first firing rule is what the chain of tests written in the rules' order selects |
| FreeAI.ChainIsFirstMatch | src/utils/free-ai-service.ts:2-53 | the chain of tests answers with the reply of the first rule that fires |
| FreeAI.GenerateResponseIsFirstMatch | src/utils/free-ai-service.ts:2-53 | the generator answers every prompt with the canned reply of the first rule that fires |
| FreeAI.GenerateResponse | src/utils/free-ai-service.ts:2-53 | the keyword rules tried in source order (see `GenerateResponseIsFirstMatch`) |
| FreeAI.WeatherComesFirst | src/utils/free-ai-service.ts:6-8 | any prompt mentioning "weather", in any ASCII case, gets the weather hint, whatever else it says |
| FreeAI.MathComesSecond | src/utils/free-ai-service.ts:11-13 | without "weather", "calculate" or a digit-operator-digit shape in the prompt as typed gets the calculation hint |
| FreeAI.HelloGreets | src/utils/free-ai-service.ts:16-18 | "hello" gets the greeting |
| FreeAI.ThisGreets | src/utils/free-ai-service.ts:16-18 | "this" gets the greeting too, because the test looks for the substring "hi" |
| FreeAI.DefaultQuotesPrompt | src/utils/free-ai-service.ts:52 | the default reply contains the prompt verbatim between double quotes |
| FreeAI.DefaultWhenNothingFires | src/utils/free-ai-service.ts:52 | when no keyword rule fires the default reply answers |
| Controller.HandleMessage | src/agent/controller.ts:19-82 | a request without a message or session id gets the 400 error and leaves the state unchanged; a valid one is answered under its own session id at the request's instant, initialises retrieval, and records the user's message and then the reply |
| Controller.ReplyText | src/agent/controller.ts:41-62 | the reply of a request: a successful plugin's output, else the generator's (see `ReplySelection`) |
| Controller.RecordExchange | src/agent/controller.ts:28-69 | the user's message and then the reply appended to the session (see `RecordExchangeAppendsTwo`, `RecordExchangeTouchesOneSession`) |
| Controller.ReplySelection | src/agent/controller.ts:41-62 | the reply is the plugin's output when a plugin result is present and successful, and the generator's reply to the message otherwise |
| Controller.RecordExchangeTouchesOneSession | src/agent/controller.ts:28-69 | recording an exchange files it under its session and leaves every other session as it was |
| Controller.RecordExchangeAppendsTwo | src/agent/controller.ts:28-69 | recording an exchange appends the user's message and then the reply, under the 50-message cap, so the session ends with exactly those two |
| Controller.HandleMessageKeepsValid | src/agent/controller.ts:19-82 | handling any request keeps every session filed under its own id with 1 to 50 messages |
| Controller.ReplyIgnoresState | src/agent/controller.ts:35-77 | the outcome does not depend on the stored history or the retrieval state, so the recent messages and chunks do not influence the reply |

## Left out

- Floating point: scores, embeddings and norms are exact `real`s. `Math.sqrt` is the parameter `sqrt`, and IEEE rounding is not modelled. `CosineBounded` and `SelfSimilarityIsOne` hold over exact reals only.
- Strings are sequences of Unicode scalar values, not UTF-16 code units. `charCodeAt` is the scalar value, which is the same for every character of the Basic Multilingual Plane.
- `toLowerCase` and the regex flag `i` fold ASCII letters only. The `\s` class is the ECMAScript white space and line terminator set.
- Promises, `await` and concurrency are not modelled. This includes the race between the startup `initialize()` and a first request; every request runs to completion before the next.
- Logging is not modelled.
- The weather plugin (`src/plugins/weatherPlugin.ts`), its environment variable and its HTTP call are the parameter `lookup`.
- `Function(...)` evaluation is the parameter `eval`. Infinite or `NaN` results are whatever `eval` prints.
- The file system is the `Corpus` parameter: a directory listing with the file texts, or one read error that replaces all chunks by the sample chunk.
- Every `new Date()` and `Date.now()` of one request reads the same instant `now`.
- `toLocaleString` is the parameter `clockText`.
- Request fields of other types than string are not modelled: `AgentRequest` holds an optional string per field. In the service a truthy non-string `message` (a number, say) passes validation and is stored in the session, and then `message.match` throws in the plugin detector, so the handler answers 500 with the user turn already recorded. That path and the 500 branch are not modelled; with string fields no step of the model can throw.
- `src/server.ts` (Express set-up, health check, middleware, `listen`) is not part of this model.
- `src/rag/embedding-service.ts`, a try/catch wrapper with a zero-vector fallback that the total `Embed` never needs, is not part of this model.
- `PromptBuilder.buildPrompt` is modelled, but the handler constructs the builder and never calls it, so the handler model does not use it either.
- `cleanupOldSessions` is modelled, but nothing in the service schedules it.
- "Embedding is a deterministic function of the text" holds by construction: `Embed` is a function.
- The handler's step order (user append before retrieval and dispatch) is shown only by `Commit` and `HandleMessage` reading the store after the user append. Nothing else in the model can observe an order between pure steps.
- Rag.Insert: its contract states only the length. The multiset, ordering and tie facts are the separate lemmas `InsertPermutes`, `InsertSorted` and `InsertKeepsTies`, to keep each proof small.
- Embedding.Embed: its contract states only the length; non-zeroness is `EmbeddingIsNonZero`. `Embed` divides by the magnitude as the service does, but that the result has unit length is not proved.
