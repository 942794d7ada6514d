# devstack API core, modelled in Dafny

This project models the core of the devstack API (a FastAPI service) and proves properties of that model.

- **The resumable notes sync** (`api/notes_sync.py`) mirrors the markdown notes of a GitHub repository into a document store.
  - It reads the latest commit and the tree of `main`.
  - It records a sync job with one item per note.
  - It fetches and parses the notes in batches of 50: YAML front matter, title, category, description and tags.
  - It retries GitHub requests with exponential backoff and jitter, and waits for the rate-limit reset.
  - When GitHub rate-limits it, it pauses the job.
  - Once every item is settled, it completes the job and deletes the stored documents the job did not sync.
  - A paused job is resumed by a later run. Failed items can be reset and retried.
- **Embedding text** (`api/notes_embeddings.py`) covers three pieces:
  - the front-matter stripper;
  - the text a note is embedded from;
  - the batching of document ids.
- **Chat messages** (`api/producers/chat_producer.py`) covers the `REPLY: <id>` header parser and the message event with its random hex id.
- **The chat agent's context** (`api/agents/augment_agent.py`) covers the token estimate, the newest-messages-within-a-budget selection, the prompt, and the channel list.
- **The visitors websocket** (`api/controllers/ws_visitors.py`) covers four pieces:
  - the client address;
  - the per-address connection limit, kept in a shared table;
  - the receive loop;
  - the analytics-batch handler.
- **The scheduling endpoint** (`api/controllers/when2meet.py`) covers an event with its availabilities, and the count per time slot.

## How the model is organised

The model follows the source's own form.

**Classes for state that changes.**
- `GitHub.GitHubClient` holds the last rate-limit reading, the clock, the number of requests sent and the number of random draws used.
- `NotesSync.Store` holds the sync jobs and the documents.
- `WsVisitors.VisitorTable` holds the open connections per address.

Their methods are imperative and state their new state outright.

**Loops as methods.** The loops of the source are methods with invariants:
- the retry loop (`GitHubClient.Get`);
- the batch loop (`RunBatch`, `RunRound` and `RunBatches`);
- the token selection (`SelectByTokens`);
- the prompt builder (`AppendHistory`);
- the embedding batches (`GenerateEmbeddingsBatch`);
- the receive loop (`ReceiveLoop`);
- the slot counting (`AddSlots` and `CountSlots`).

Each is proved against a specification of its result or new state: a function, or a predicate relating the state before and after (`Advanced`, `SyncedItems`, `SyncedDocs` for the batch loop of the sync).

**Functions for the pure parts.** Parsing and text building are functions, with lemmas:
- front matter and tags;
- the regular expressions, as explicit searches proved sound and complete against a declarative description of a match;
- Python's `int()` and `str.strip`/`split`/`join`/`title`;
- the backoff delay;
- the reply header.

**Oracles for what the model cannot see.** Outside effects become parameters:
- **network**: a function from the request number to the answer;
- **random draws**: a function from the draw number to a value in [0, 1);
- **YAML, base64 and JSON decoders**: functions returning an `Option`;
- **database lookups of the scheduling and analytics endpoints**: functions.

Time is a real number of seconds. It advances only when the client sleeps.

Modules:
- `Wrappers`: `Option`, `Result`.
- `Text`: Python string helpers.
- `FrontMatter`: the front-matter pattern and `parse_frontmatter`.
- `NoteMetadata`: tags, titles, the document built from a note.
- `RateLimit`: header parsing, waits, backoff.
- `GitHub`: the client.
- `NotesSync`: the job store and the sync.
- `Embeddings`, `ChatProducer`, `AugmentAgent`, `WsVisitors` and `When2Meet`: one module per source file.

## Model

| member | source | states |
|---|---|---|
| Text.LStripSpec | api/notes_sync.py:224-227 | `lstrip` drops exactly a leading run of white space, and what it keeps does not start with white space |
| Text.RStripSpec | api/notes_sync.py:224-227 | `rstrip` drops exactly a trailing run of white space, and what it keeps does not end with white space |
| Text.Strip | api/notes_sync.py:224-227 | `strip` never lengthens a string and leaves it with no white space at either end |
| Text.StripInfix | api/notes_sync.py:224-227 | the stripped string is a contiguous piece of the input, with only white space on either side of it |
| Text.StripStripped | api/notes_sync.py:224-227 | stripping a string that is already stripped changes nothing |
| Text.Split | api/notes_sync.py:227 | `split(sep)` gives at least one piece, none containing the separator, and joining the pieces with the separator gives back the input |
| Text.SplitUnique | api/notes_sync.py:227 | the pieces of `split` are the only separator-free list that joins back to the input |
| Text.SplitStripped | api/agents/augment_agent.py:84 | the comprehension `[c.strip() for c in s.split(sep) if c.strip()]` yields non-empty, stripped entries without the separator |
| Text.SplitStrippedOfJoin | api/agents/augment_agent.py:84 | clean entries joined by the separator and any padding of white space are read back as exactly those entries |
| Text.JoinEnds | api/notes_embeddings.py:90 | a join starts with its first part and ends with its last |
| Text.Prefix | api/notes_embeddings.py:87-88 | `s[:n]` is the longest prefix of `s` no longer than `n`, and all of `s` when it fits |
| Text.ReplaceChar | api/notes_sync.py:283 | replacing one character by another keeps the length, changes exactly the occurrences, and leaves none behind |
| Text.ReplaceKeepsOut | api/notes_sync.py:282-283 | a replacement introduces no character that neither the input nor the replacement contains |
| Text.TitleAt | api/notes_sync.py:283 | `title()` upper-cases exactly the characters that follow an uncased one (or open the string) and lower-cases the rest, keeping the length |
| RateLimit.ParseDigits | api/notes_sync.py:40-43 | the digit body `int()` accepts is non-empty digit groups joined by single underscores |
| RateLimit.ParseInt | api/notes_sync.py:40-43 | `int()` of a header refuses a blank string |
| RateLimit.ParseIntOfDecimal | api/notes_sync.py:40-43 | `int()` reads back every integer written in decimal (round trip) |
| RateLimit.NatDecimalParses | api/notes_sync.py:40-43 | the digits of a natural number parse back to it |
| RateLimit.FromHeaders | api/notes_sync.py:38-47 | a reading exists exactly when all four headers (or their default 0) parse as integers and the reset is a representable timestamp; a reset of 0 means "now" |
| RateLimit.FromHeadersOfToHeaders | api/notes_sync.py:38-47 | headers written from a reading are parsed back to that reading |
| RateLimit.FromHeadersWithoutHeaders | api/notes_sync.py:38-53 | with no headers the reading is all zeros, resetting now, and asks for no wait |
| RateLimit.WaitSeconds | api/notes_sync.py:49-53 | the wait is zero exactly when the reset has passed, and otherwise ends one second after the reset |
| RateLimit.WaitSecondsPassesReset | api/notes_sync.py:49-53 | waiting the given time passes the reset, and the wait only shrinks as time goes on |
| RateLimit.CalculateDelay | api/notes_sync.py:91-102 | an exhausted quota waits for its reset, capped at 30 s; otherwise the delay is the backoff plus at most 25 % jitter; every delay is below 37.5 s |
| RateLimit.Jittered | api/notes_sync.py:101-102 | the jitter adds between 0 and 25 % of the base |
| RateLimit.BackoffRange | api/notes_sync.py:100 | the backoff lies between 1 s and the 30 s cap |
| RateLimit.BackoffGrowth | api/notes_sync.py:100 | the backoff is 2^attempt seconds below attempt 5, doubles at each attempt up to there, stays at 30 s afterwards, and never decreases |
| GitHub.ExhaustedAnyTime | api/notes_sync.py:112-113 | whether the quota is exhausted does not depend on when the headers were read |
| GitHub.WaitBudgetIs | api/notes_sync.py:104-195 | the most a request can sleep is 67.5 s per attempt |
| GitHub.WaitBudgetGrows | api/notes_sync.py:104-195 | more attempts allow at least as much sleep |
| GitHub.GitHubClient.constructor | api/notes_sync.py:70-74 | a new client has no rate-limit reading and has sent nothing |
| GitHub.GitHubClient.Sleep | api/notes_sync.py:124 | sleeping advances the clock by the delay and changes nothing else |
| GitHub.GitHubClient.Delay | api/notes_sync.py:91-102 | the delay is the backoff formula at the current time; it uses one random draw unless the quota is exhausted |
| GitHub.GitHubClient.WaitForQuota | api/notes_sync.py:112-124 | with the quota used up, a reset more than 30 s away refuses the request without waiting; a nearer one is waited for |
| GitHub.GitHubClient.Answer | api/notes_sync.py:126-172 | the reading is taken from the answer's headers. A 429, or a 403 with the quota used up, is retried while attempts remain; so is a 5xx. When none remain, that answer is returned, marked rate limited for 429/403 |
| GitHub.GitHubClient.Attempt | api/notes_sync.py:110-188 | one pass of the retry loop either sends one request and returns the answer, or asks for a retry after a retryable answer or a transport error |
| GitHub.GitHubClient.Get | api/notes_sync.py:104-195 | at most `max_retries + 1` requests are sent; every request but the last got a retryable answer; the total sleep is bounded; a refusal for a quota already known to be used up sends nothing, while a refusal at a later attempt comes after the earlier attempts' requests; the response is the one the retry loop ends with |
| FrontMatter.WsEnd | api/notes_sync.py:203 | the greedy `\s*` ends at the first non-space character |
| FrontMatter.LastNewline | api/notes_sync.py:203 | finds the last newline of a range, or reports there is none |
| FrontMatter.CloseAtSpec | api/notes_sync.py:203 | the closing `\n---\s*\n` found at a position ends as late as possible, and none is missed |
| FrontMatter.LazyGroupSpec | api/notes_sync.py:203 | the lazy `(.*?)` stops at the first position where a closing line can follow, and no closing is missed |
| FrontMatter.OpenFromSpec | api/notes_sync.py:203 | backtracking the opening `---\s*\n` from the latest newline finds the match the regex engine prefers |
| FrontMatter.MatchHeaderIsPreferred | api/notes_sync.py:202-205 | the header found is the regex engine's preferred match, and when none is found the content has no front-matter block at all |
| FrontMatter.ParseFrontmatter | api/notes_sync.py:202-217 | the body returned is a suffix of the content, and it differs from the content only when a front-matter block matched |
| FrontMatter.ParseWithoutValidBlock | api/notes_sync.py:205-217 | without a block, or when the YAML does not load, the result is an empty mapping and the whole content |
| FrontMatter.ParseWithValidBlock | api/notes_sync.py:208-213 | a loaded block gives its value (a null as an empty mapping), and the content is the block followed by the body |
| NoteMetadata.ParseTags | api/notes_sync.py:220-227 | a falsy value gives no tags; a comma-separated string gives stripped, non-empty tags without commas; any other value gives none |
| NoteMetadata.ParseTagsIdempotent | api/notes_sync.py:220-227 | a clean tag list written as a YAML list, or as a comma-separated string, is parsed back to itself |
| NoteMetadata.TagsOfStrs | api/notes_sync.py:225 | a list of clean strings keeps every entry |
| NoteMetadata.BlankListEntryKept | api/notes_sync.py:225 | a blank (but truthy) list entry is kept as an empty tag |
| NoteMetadata.FileStem | api/notes_sync.py:282 | the file stem holds no `/` |
| NoteMetadata.SpacedAt | api/notes_sync.py:283 | each `-` and `_` of the stem becomes a space, and nothing else changes |
| NoteMetadata.FallbackTitleShape | api/notes_sync.py:281-283 | the fallback title is as long as the stem; it has no `-`, `_` or `/`; each of its characters is the title-cased stem character |
| NoteMetadata.CaseMapping | api/notes_sync.py:283 | case mapping leaves uncased characters alone and keeps cased ones cased |
| NoteMetadata.DeriveTitle | api/notes_sync.py:281-286 | a missing or blank title falls back to the file name; any other is `str(title).strip()`, which is non-empty when the title was a string |
| NoteMetadata.OptionalText | api/notes_sync.py:291-297 | a category or description is absent exactly when it is missing or strips to nothing; otherwise it is the stripped text |
| NoteMetadata.BuildDocument | api/notes_sync.py:279-315 | a document keeps the path, content and commit, and has a non-empty title and stripped optional fields; it fails only for a missing title or for front matter that is not a mapping. With mapping front matter it is refused exactly when the derived title is empty, and otherwise holds the derived title, the optional category and description, and the parsed tags |
| NoteMetadata.DocumentWithoutFrontMatter | api/notes_sync.py:279-299 | a note without front matter is titled from its file name, with no category, description or tags |
| Embeddings.StripFrontmatter | api/notes_embeddings.py:54-64 | the result is a suffix of the content |
| Embeddings.StripFrontmatterRemovesBlock | api/notes_embeddings.py:54-64 | content without a block is returned whole; otherwise exactly the preferred block is removed |
| Embeddings.StripAgreesWithParse | api/notes_embeddings.py:54-64 | the stripper removes the same block as the sync's parser, which keeps the block only when its YAML fails to load |
| Embeddings.ContentPart | api/notes_embeddings.py:86-88 | the content embedded is the first 8000 characters of the stripped content, all of it when shorter |
| Embeddings.Parts | api/notes_embeddings.py:67-88 | every part joined is non-empty |
| Embeddings.PrepareText | api/notes_embeddings.py:67-90 | the text is empty exactly when there are no labels and no content; it starts with the title line when there is a title, and ends with the content |
| Embeddings.FlattenAppend | api/notes_embeddings.py:106-107 | batches concatenate to the ids in order |
| Embeddings.FoundTotalAppend | api/notes_embeddings.py:130 | the count adds the documents found per batch |
| Embeddings.FoundTotalAtMost | api/notes_embeddings.py:112-130 | no more documents are counted than ids were asked for |
| Embeddings.GenerateEmbeddingsBatch | api/notes_embeddings.py:99-136 | the batches cover the ids in order; each is non-empty and at most the batch size, and all but the last are full; the count is the number of documents found; no ids means no batches and 0 |
| ChatProducer.IdEnd | api/producers/chat_producer.py:13 | the greedy id class ends at the first character outside `[A-Za-z0-9_-]` |
| ChatProducer.MatchReply | api/producers/chat_producer.py:13 | a match ends inside the text |
| ChatProducer.MatchReplySpec | api/producers/chat_producer.py:13 | the search finds a reply header exactly when one exists, and it is the one the regex engine prefers (longest trailing run) |
| ChatProducer.ParseReplyHeader | api/producers/chat_producer.py:20-26 | no id is returned exactly when the text has no header, and the text is then unchanged; an id has 4 to 32 id characters; the text is the header followed by the cleaned text |
| ChatProducer.ParseOptionalText | api/producers/chat_producer.py:21 | a missing text gives neither id nor text |
| ChatProducer.LongIdRefused | api/producers/chat_producer.py:13 | an id longer than 32 characters is not a header, and the text is kept whole |
| ChatProducer.NoNewlineNoHeader | api/producers/chat_producer.py:13 | a header needs a newline |
| ChatProducer.HeaderRecognised | api/producers/chat_producer.py:13-26 | a header written with spaces, the tag in any case, an id and a newline is parsed back to that id and the rest of the text |
| ChatProducer.HexValueOfDigit | api/producers/chat_producer.py:16-17 | a hex digit reads back as its value |
| ChatProducer.TokenHex | api/producers/chat_producer.py:16-17 | `token_hex` writes two hex digits per byte |
| ChatProducer.TokenHexRoundTrip | api/producers/chat_producer.py:16-17 | the hex text decodes back to the bytes |
| ChatProducer.BuildChatMessage | api/producers/chat_producer.py:29-40 | the event keeps the channel, sender and time. Its reply id and text are those of the reply-header parser: the original text, or the strict suffix after the header. Its id is `token_hex` of the 4 random bytes, 8 hex digits |
| AugmentAgent.EstimateTokens | api/agents/augment_agent.py:29-32 | only an empty text costs nothing; a text of 1 to 3 characters costs 1; a longer one costs exactly its length divided by 4, rounded down |
| AugmentAgent.Cost | api/agents/augment_agent.py:46 | every message costs at least the overhead of 30 |
| AugmentAgent.SumCostGrows | api/agents/augment_agent.py:43-51 | each additional message adds at least the overhead to the total |
| AugmentAgent.SelectByTokens | api/agents/augment_agent.py:35-53 | the messages kept are a suffix of those fetched, in fetched order; they fit the budget; one more would overflow it |
| AugmentAgent.SelectionIsLongest | api/agents/augment_agent.py:43-51 | every longer suffix overflows the budget, so the selection is the longest that fits |
| AugmentAgent.Window | api/agents/augment_agent.py:69 | the prompt shows the last 200 entries, or all when there are fewer |
| AugmentAgent.PromptLines | api/agents/augment_agent.py:56-74 | the prompt opens with the agent line and the rules, has one line per shown entry in order, and ends with a blank line and the request |
| AugmentAgent.BuildPrompt | api/agents/augment_agent.py:56-74 | the appended lines joined by newlines give the prompt, which starts with the agent line and ends with the request |
| AugmentAgent.AppendHistory | api/agents/augment_agent.py:69-71 | the loop appends one line per entry, in order |
| AugmentAgent.Channels | api/agents/augment_agent.py:84 | the channels are non-empty, stripped and comma-free |
| AugmentAgent.ChannelsOfList | api/agents/augment_agent.py:84 | a comma-separated list of channel names is read back as that list |
| AugmentAgent.ChannelsDefault | api/agents/augment_agent.py:84 | an unset variable gives the single channel `general` |
| WsVisitors.SplitFirst | api/controllers/ws_visitors.py:57-58 | the first piece of a split ends at the first separator |
| WsVisitors.ClientIp | api/controllers/ws_visitors.py:56-58 | the address is the forwarded header (or the peer address) when it has no comma; otherwise the stripped part before the first comma, which holds no comma |
| WsVisitors.ClientIpOfChain | api/controllers/ws_visitors.py:56-58 | a proxy chain is reduced to its first address, stripped |
| WsVisitors.Admitted | api/controllers/ws_visitors.py:65-79 | admission counts the connection when the address is under the limit; a refused one leaves the count as it was; other addresses are untouched |
| WsVisitors.Released | api/controllers/ws_visitors.py:159-165 | release counts one connection fewer, never below zero, and removes the entry that reaches zero; other addresses are untouched |
| WsVisitors.AdmitKeepsBounded | api/controllers/ws_visitors.py:65-79 | admission keeps every count within the limit |
| WsVisitors.ReleaseKeepsBounded | api/controllers/ws_visitors.py:159-165 | release keeps every count within the limit |
| WsVisitors.AdmitKeepsPositive | api/controllers/ws_visitors.py:65-79 | with a limit of at least one, admission leaves no zero entry |
| WsVisitors.ReleaseKeepsPositive | api/controllers/ws_visitors.py:159-165 | release leaves no zero entry |
| WsVisitors.RefusedLeavesZero | api/controllers/ws_visitors.py:66-78 | with a limit below one, a refused first connection leaves an entry of 0 behind |
| WsVisitors.ReleaseUndoesAdmit | api/controllers/ws_visitors.py:65-165 | releasing an admitted connection restores the table |
| WsVisitors.VisitorTable.constructor | api/controllers/ws_visitors.py:63-66 | the table starts empty |
| WsVisitors.VisitorTable.Admit | api/controllers/ws_visitors.py:65-79 | a connection is accepted exactly when its address is under the limit; the table becomes the admitted table, except that a refusal whose close raises keeps the raised counter |
| WsVisitors.VisitorTable.Release | api/controllers/ws_visitors.py:159-165 | the table becomes the released table |
| WsVisitors.HandleAnalyticsBatch | api/controllers/ws_visitors.py:24-49 | a payload that is not an object fails; another topic than `clicks` is ignored; no events are ignored; otherwise the insert's answer is reported |
| WsVisitors.ClicksBatchInserted | api/controllers/ws_visitors.py:24-49 | a non-empty clicks batch is passed to the insert, and its outcome is reported |
| WsVisitors.OtherTopicIgnored | api/controllers/ws_visitors.py:29-31 | a batch of any other topic is ignored |
| WsVisitors.Classify | api/controllers/ws_visitors.py:119-128 | a frame is dispatched exactly when it is not `pong` and decodes to an object of type `analytics.batch`; undecodable frames are dropped |
| WsVisitors.Dispatched | api/controllers/ws_visitors.py:117-128 | only `analytics.batch` messages are dispatched, at most one per frame |
| WsVisitors.DispatchedAppend | api/controllers/ws_visitors.py:117-128 | frames are dispatched one after another, independently |
| WsVisitors.NothingDispatched | api/controllers/ws_visitors.py:120-128 | a frame that is not an analytics batch dispatches nothing |
| WsVisitors.ReceiveLoop | api/controllers/ws_visitors.py:117-128 | the loop dispatches exactly the analytics batches among the frames, in order |
| WsVisitors.Session | api/controllers/ws_visitors.py:53-165 | as written: a session computes the address and is accepted exactly under the limit. A refused one dispatches nothing. An accepted one whose join and subscribe succeed dispatches its batches and is released, restoring a table without zero entries. When the join or subscribe raises, or a refusal's close raises, the address stays counted one higher |
| WsVisitors.LeakLocksOut | api/controllers/ws_visitors.py:65-95 | with a limit of one, an address left counted after such an exception is refused from then on |
| WsVisitors.SessionCorrected | api/controllers/ws_visitors.py:53-165 | corrected: a refusal always puts the counter back and an accepted connection is always released, so a table without zero entries is restored whether or not setup raises |
| When2Meet.TotalRemove | api/controllers/when2meet.py:20-23 | the sum of the counter can start from any slot |
| When2Meet.TotalIncrement | api/controllers/when2meet.py:23 | counting one slot adds one to the sum |
| When2Meet.TallyCounts | api/controllers/when2meet.py:20-23 | the counter holds exactly the slots that occur, each with its number of occurrences, summing to the number of slots |
| When2Meet.TallyOrderFree | api/controllers/when2meet.py:20-23 | the counter depends only on how often each slot occurs |
| When2Meet.AllSlotsAppend | api/controllers/when2meet.py:21-22 | the slots of two lists of availabilities are concatenated |
| When2Meet.AllSlotsPermutation | api/controllers/when2meet.py:21-22 | reordering the availabilities reorders their slots |
| When2Meet.SummaryOrderFree | api/controllers/when2meet.py:20-29 | the summary does not depend on the order of the availabilities |
| When2Meet.AddSlots | api/controllers/when2meet.py:22-23 | the inner loop counts one availability's slots on top of the counter |
| When2Meet.CountSlots | api/controllers/when2meet.py:20-23 | the summary holds exactly the slots that occur, each with its number of occurrences, adding up to the number of slots |
| When2Meet.GetEvent | api/controllers/when2meet.py:14-30 | a missing or empty event gives 404; otherwise the event, its availabilities and their slot summary |
| NotesSync.Count | api/notes_sync.py:464-474 | a count never exceeds the number of items |
| NotesSync.CountNone | api/notes_sync.py:412-414 | no item has a status exactly when its count is zero |
| NotesSync.CountsAddUp | api/notes_sync.py:469-477 | the four status counts add up to the number of items |
| NotesSync.SucceededPaths | api/notes_sync.py:490 | the job's completed paths are exactly the paths of its succeeded items |
| NotesSync.PendingFrom | api/notes_sync.py:413 | lists every pending item from a position on, in item order |
| NotesSync.PendingBatch | api/notes_sync.py:413 | a batch holds at most the limit of pending items, in order, and is empty only when none is pending |
| NotesSync.SteppedTrans | api/notes_sync.py:417-459 | settling an item twice in a row is one settling |
| NotesSync.AdvancedTrans | api/notes_sync.py:412-464 | successive rounds compose |
| NotesSync.AdvancedPending | api/notes_sync.py:412-464 | a round never adds pending items, and settling a pending one removes one |
| NotesSync.SyncedItemsTrans | api/notes_sync.py:412-464 | the paths synced in two rounds are those of the items settled as succeeded in either |
| NotesSync.SyncedDocsTrans | api/notes_sync.py:431-432 | the upserts of two rounds compose |
| NotesSync.Restricted | api/notes_sync.py:492 | deleting the documents not in a list keeps exactly those in it, unchanged |
| NotesSync.ReconcileKeepsSynced | api/notes_sync.py:489-495 | after the deletion every synced document is still present, and nothing outside the completed paths remains |
| NotesSync.ErrorSummary | api/notes_sync.py:497-502 | the error summary is empty exactly when nothing failed or was skipped |
| NotesSync.ResetFailed | api/notes_sync.py:522 | exactly the failed items under the retry limit become pending again |
| NotesSync.ResetNothing | api/notes_sync.py:522-527 | a reset that counts none changes nothing |
| NotesSync.RetriableCount | api/notes_sync.py:522-523 | the reset count is zero exactly when no item can be retried |
| NotesSync.NewJobPendingBelow | api/notes_sync.py:390 | a new job's items are pending and have never failed |
| NotesSync.ResetKeepsPendingBelow | api/notes_sync.py:522 | a reset makes pending only failures under the retry bound |
| NotesSync.AdvancedKeepsPendingBelow | api/notes_sync.py:417-459 | a run leaves an item pending only when it leaves it untouched, so no pending item gains a failure |
| NotesSync.SkipUnreachable | api/notes_sync.py:421-424 | under that invariant no pending item reaches the skip threshold of 5 retries |
| NotesSync.Store.CreateJob | api/notes_sync.py:390 | a new job with one pending item per path is appended, and its id is returned |
| NotesSync.Store.UpdateItem | api/notes_sync.py:422-451 | only that item changes: its status and error, plus one retry for a failure |
| NotesSync.Store.UpdateCounts | api/notes_sync.py:464-469 | the job's completed and failed counts become the counts of its items |
| NotesSync.Store.SetStatus | api/notes_sync.py:403-504 | only the job's status, and the reset time or error message when given, change |
| NotesSync.Store.ResetFailedItems | api/notes_sync.py:522 | an unknown job changes nothing and counts 0; otherwise the retriable failures become pending and are counted |
| NotesSync.Store.Upsert | api/notes_sync.py:302-310 | the document is stored under its path |
| NotesSync.Store.DeleteNotIn | api/notes_sync.py:492 | the documents become those in the list; the count is the number removed, and 0 means nothing changed |
| NotesSync.MarkdownPaths | api/notes_sync.py:239-254 | the paths are exactly the blobs of the tree under `content/` ending in `.md`, never more than the tree's items |
| NotesSync.MarkdownPathsOne | api/notes_sync.py:248-252 | one tree item contributes its path when it is a note blob, and nothing otherwise |
| NotesSync.MarkdownPathsAppend | api/notes_sync.py:248-252 | the listing keeps the tree's order, one entry per qualifying item: two parts of a tree list their paths one after the other |
| NotesSync.LatestCommit | api/notes_sync.py:230-236 | the commit's sha on success; otherwise no sha, and the error says whether it was rate limiting or which status |
| NotesSync.ContentTree | api/notes_sync.py:239-254 | the note paths of the tree on success; otherwise none, and the error says why |
| NotesSync.FileOutcome | api/notes_sync.py:263-299 | the file is refused for rate limiting exactly when the answer is rate limited, fails for any other non-2xx answer, and builds a document from the decoded content otherwise |
| NotesSync.FetchAndProcessFile | api/notes_sync.py:257-320 | the outcome is that of the answer received, and the document is upserted exactly when processing succeeded |
| NotesSync.SettleOne | api/notes_sync.py:417-459 | settling one pending item advances the job and syncs its path when it succeeded |
| NotesSync.RoundComposes | api/notes_sync.py:412-464 | a round on top of earlier rounds keeps the run's progress, synced paths and documents |
| NotesSync.ProcessItem | api/notes_sync.py:417-459 | an item at the skip threshold is skipped. Otherwise its file is fetched: success or failure is recorded, and only a success upserts. A rate-limited answer changes nothing and stops the batch. Only that item changes |
| NotesSync.ItemsOnlyStep | api/notes_sync.py:417-459 | an item update changes only that job's items |
| NotesSync.BatchStep | api/notes_sync.py:417-459 | the batch processed so far has left no pending item, and the rest are untouched |
| NotesSync.RunBatch | api/notes_sync.py:417-459 | a batch changes only the job's items; unless rate limited it settles every item in the batch; what it syncs is recorded in the documents |
| NotesSync.KeptTrans | api/notes_sync.py:412-464 | the job's settings are kept across rounds |
| NotesSync.RunRound | api/notes_sync.py:412-464 | a round either finds nothing pending, stops on rate limiting, or strictly reduces the pending count, keeping the job's settings |
| NotesSync.ItemsOnlyKept | api/notes_sync.py:417-459 | changing only items keeps the settings |
| NotesSync.KeptAfterCounts | api/notes_sync.py:464 | updating the counts keeps the settings and the items |
| NotesSync.RunBatches | api/notes_sync.py:412-464 | the batch loop ends with no item pending unless rate limited; items only advance; the documents hold exactly the synced ones on top of the old |
| NotesSync.Reconcile | api/notes_sync.py:489-495 | documents are deleted only when something was synced, and then exactly those outside the completed paths |
| NotesSync.TalliedKeeps | api/notes_sync.py:469-477 | the tally does not depend on the job's status fields |
| NotesSync.PauseJob | api/notes_sync.py:436-449 | with a rate-limit reading the job is paused with the reset time, which is reported; without one nothing changes |
| NotesSync.Complete | api/notes_sync.py:481-516 | the job is completed (with the summary, if any) and the documents are reconciled |
| NotesSync.Tally | api/notes_sync.py:469-477 | the job's counts and the result's counts agree with the items, and pending is what is left |
| NotesSync.Conclude | api/notes_sync.py:479-516 | a rate-limited run is reported paused and deletes nothing; any other completes the job, with errors when anything failed or was skipped, and reconciles the documents |
| NotesSync.Finish | api/notes_sync.py:466-516 | the run's outcome is tallied and concluded |
| NotesSync.RunJob | api/notes_sync.py:403-516 | running a job marks it running, runs the batch loop, and ends with its outcome tallied and concluded |
| NotesSync.Resumable | api/notes_sync.py:347 | the most recent running or paused job, or none when there is none |
| NotesSync.ResumeWait | api/notes_sync.py:350-359 | only a paused job whose reset is ahead waits, for the time left but at most 5 s |
| NotesSync.ResolveJob | api/notes_sync.py:339-401 | the job given, else the resumable one, else a new job. The commit is requested exactly when no job was given or resumable, and the tree exactly when that commit was read and is new (or forced). A new job is created exactly when the tree was read and lists some note; it is the commit answer's sha with one item per path of the tree's listing. A failed request is reported with its rate-limit or status message; the other stops are already synced and no files |
| NotesSync.SyncNotesWithJob | api/notes_sync.py:323-518 | a run without a job changes nothing and reports why. A run with a job reports success with the job's outcome. Only a commit or tree failure is unsuccessful. A new job is the commit answer's sha with one item per path of the tree answer's note listing, and it is created exactly when that listing is non-empty |
| NotesSync.ResumeJob | api/notes_sync.py:529 | resuming a job runs it to its outcome, changing only that job |
| NotesSync.RetryFailedItems | api/notes_sync.py:521-529 | nothing to retry leaves everything as it was; otherwise the retriable failures are reset and the job is run to its outcome |
| NotesSync.ResumeSyncJob | api/controllers/notes_write.py:37-57 | an unknown job is not found and a completed one cannot be resumed, neither changing anything; others are run to their outcome |
| NotesSync.StatusName | api/notes_sync.py:401-516 | a run's status is one of five names, never `failed` |
| NotesSync.LegacyOf | api/notes_sync.py:532-545 | the legacy fields: updated is the completed count, deleted defaults to 0, errors holds the message only when items failed, and skipped means the status was skipped |
| NotesSync.LegacyAsWrittenHidesFailure | api/notes_sync.py:532-545 | as written, a run that could not read the commit or tree is reported successful with no errors |
| NotesSync.Legacy | api/notes_sync.py:532-545 | corrected: the legacy result is successful exactly when the run was |
| NotesSync.SyncNotes | api/notes_sync.py:532-545 | as written: the legacy result always claims success, even when the commit or tree could not be read (then nothing changed and no error is listed); a skipped sync changed nothing; a job id names a stored job |
| NotesSync.SyncNotesCorrected | api/notes_sync.py:532-545 | corrected: the legacy result fails exactly when the commit or tree could not be read, and then nothing changed; a skipped sync changed nothing; a job id names a stored job |

## Left out

- I/O, logging and the HTTP framework are not modelled. This covers authentication headers, the `X-Sync-Secret` check of the routes, and the response shapes beyond the fields shown.
- Concurrency is not modelled. Each update of the visitor table under its lock is an atomic method.
  - `Session` runs one connection from admission to release, with nothing interleaved.
  - The fire-and-forget tasks of the analytics handler and of the agent loop are not modelled.
- The visitors websocket's pub/sub forwarding, heartbeat, visitor join/leave and the pub/sub cleanup are not modelled. Only whether the join or the subscribe raises is modelled, as `Session`'s `setupRaises`. Neither is the Redis state behind them.
- `yaml.safe_load`, base64 plus UTF-8 decoding, `json.loads` and the click insert are oracle parameters. They do not parse real YAML or JSON.
- JSON and YAML numbers, and `str()` of non-string YAML values, are not modelled beyond an opaque rendering.
- The embedding model is not modelled: `get_embedding_model`, `is_model_available`, `generate_query_embedding`, and the encode and update calls.
  - `notes_get_documents_by_ids` is represented by the number of documents it finds per batch.
  - An exception raised inside a batch is not modelled.
- The database is not modelled. The behaviour of each query called by the sync is stated on the `NotesSync.Store` methods; the query files are not part of this model.
  - A failing upsert ("Database error") is not modelled: the upsert always succeeds.
  - The last synced commit is a store field that no operation here updates.
- The clock, `asyncio.sleep` and `random` are parameters.
  - Time is a real number of seconds, and network latency is zero.
  - Timestamps are reals, not `datetime` values.
  - The history timestamp in the prompt is shown as stored.
  - The message timestamp (`isoformat()`) is a parameter.
- Case folding is modelled for ASCII letters only: the `re.IGNORECASE` of the reply header and `str.title()`. Unicode case rules are not modelled.
  - ChatProducer.IsIdChar: under `re.IGNORECASE` the source's id class also matches U+0130, U+0131, U+017F and U+212A. The model does not.
- RateLimit.ParseInt: Python's `int()` also accepts non-ASCII Unicode decimal digits. The model reads ASCII digits only.
- The agent's main loop is not modelled: `_call_augment_sync`, `start_augment_agent`, the integer settings read from the environment, `random.choice` and the sleeps.
- `publish_chat_message` is not modelled: its database inserts, cache invalidation and event publishing.
- The scheduling event row is a `map<string, string>`, and the availabilities lookup is a function. The JSON column types are not modelled.
- NotesSync.SyncNotesWithJob: a resume id must name a stored job. The source crashes when it does not; its routes answer 404 first, as `ResumeSyncJob` and `RetryFailedItems` show.
- RateLimit.FromHeaders: a reset timestamp outside the years `datetime` can hold gives no reading. In Python some such values raise an `OverflowError`, which `from_headers` does not catch.
- Embeddings.GenerateEmbeddingsBatch: the batch size is a natural number. A negative size is not modelled. For it the source's `range` is empty: it returns 0 after loading the model, without processing any batch.
- Embeddings.GenerateEmbeddingsBatch: requires a positive batch size when there are ids. Python's `range` raises on a zero step.

- NotesSync.LatestCommit, NotesSync.ContentTree, NotesSync.FileOutcome: the model assumes every 2xx body is a JSON object with well-formed tree items.
  - When `resp.json()` fails, the source keeps the body as text, and `.get` then raises. A missing `type` or `path` key raises too.
  - In `get_repo_latest_commit` and `get_content_tree` this escapes and ends `sync_notes_with_job` with an exception.
  - In `fetch_and_process_file` it is caught as an unexpected error.
  - The model has no such outcome.
- NotesSync.PendingBatch: the model assumes the pending-items query returns only items whose status is pending. Two things follow:
  - The reset with `MaxRetries` (3) re-queues only failures with fewer than 3 retries. So the skip at 5 retries is never reached for jobs this sync creates (`SkipUnreachable`); the model keeps the branch.
  - A run that is not rate limited always ends with nothing pending. So the final `running` status branch of `Conclude` is never taken. The legacy `[None]` error list it could lead to is therefore not modelled (`LegacyOf`).
- AugmentAgent.SelectByTokens: `datetime.fromisoformat` raising on a malformed timestamp is not modelled. Timestamps are kept as stored.

## Findings

| source | as written | input that shows it | evidently intended | confidence | as-written member | corrected member |
|---|---|---|---|---|---|---|
| api/notes_sync.py:536 | `success` is `job_status not in ("failed",)`, but no run ever reports the status `failed` | the commit request answers 500 on every attempt: the run reports `success: False` with no job status, and the legacy result says `success: True` with no errors | the legacy result is unsuccessful when the run was, as the test at api/tests/test_notes_sync.py:187-197 expects of a failed run | not executed | NotesSync.LegacyAsWritten, NotesSync.LegacyAsWrittenHidesFailure, NotesSync.SyncNotes | NotesSync.Legacy, NotesSync.SyncNotesCorrected |
| api/controllers/ws_visitors.py:65-165 | the per-address counter is raised before `join_visitor` and the pub/sub subscribe, which run outside the `try` whose `finally` lowers it; a refused connection's counter is put back only after `websocket.close` | `join_visitor` raises, for instance because Redis is unreachable, on a visitor's first connection with a limit of 1: the address stays counted at 1 and every later connection from it is refused | every admitted connection is released and every refused one put back, whatever raises | not executed | WsVisitors.Session, WsVisitors.LeakLocksOut | WsVisitors.SessionCorrected |
