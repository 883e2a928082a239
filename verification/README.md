# Meeting assistant: hybrid retrieval core, in Dafny

The system records a meeting and transcribes it with speaker labels. It summarises the
transcript with a language model and stores transcript, summary and summary chunks in
SQLite. It then answers chat questions about a meeting through hybrid retrieval: FAISS
dense similarity plus BM25 over that meeting's chunks, whose top passages become the
context of a grounded prompt.

This project models the deterministic core of that path as pure functions over immutable
data, and proves what each step promises:

- `rag_pipeline.py`: the embedding writer `store_embeddings`, which filters the chunk list
  and replaces one embedding row per meeting, and the retriever `retrieve`. The retriever
  has three short-circuits. It sums a dense score and a BM25 score per passage index. It
  sorts with a stable descending sort, keeps `top_k` and builds the result records.
- `database/db_manager.py`: the meeting database as a state over maps: meetings,
  embedding rows and the chat history table.
- `summariser.py`: `extract_bullet_points`, `get_optimal_batch_size`, the batch slicing
  of `batch_summarize_chunks`, the `summary_chunks` dictionary and its records, and the
  final join and strip.
- `server.py`: the `/chat` handler (message validation, context join, `assistant` reply
  cleaning, chat save) and the `/transcribe` handler from the diarised segments on.
- `rag_model.py`: prompt selection and answer extraction after the last `[/INST]`.
- `frontend/script.js`: the recording timer (field arithmetic, zero padding, start guard,
  stop reset), the transcript/summary toggle, the send button's blank-input guard, and
  the redraw of the chat history.

Modules, one per file: `Wrappers` (Option, Result), `Text` (Python `strip`, JavaScript
`trim`, `find`, `partition`, `split`, `join`, decimal rendering), `Ranking` (the stable
descending order), `MeetingStore`, `RagPipeline`, `Summariser`, `RagModel`, `Server`,
`Frontend`.

Foreign collaborators become parameters:

- the sentence encoder, FAISS and BM25 become the two score rows `retrieve` reads
  (`similarities[0]` and `bm25_scores_raw`), as sequences of reals;
- the language models become functions from prompt to generated text;
- the text splitters become functions from text to chunk list;
- the GPU query becomes a flag plus a free-memory integer;
- whisperx becomes its list of diarised segments;
- an HTTP request becomes the server's reply to it.

The model keeps these behaviours of the code as written:

- `retrieve` reads the dense score of passage `idx` as `similarities[0][idx]`. That is the
  similarity at rank position `idx` of the FAISS answer, not the similarity of passage
  `idx`: the returned `indices` are never read. The model keeps this.
- Nothing checks that the embedding matrix and the chunk list have the same length. No
  alignment fault is raised, so none is modelled.
- The retrieved context list is not deduplicated; `chat_endpoint` joins every record.
- A meeting whose `transcript_chunks` column is still NULL makes `json.loads(None)` raise
  a `TypeError`. It escapes `retrieve`, and `chat_endpoint` turns it into a 500 reply.
- `int(data.get('meeting_id', None))` raises before the `meeting_id is None` test, so a
  request without a meeting id gets 500, not the 400 reply.
- The page trims with JavaScript's whitespace set and the server strips with Python's.
  These sets differ: U+001C to U+001F and U+0085 are Python whitespace only, and U+FEFF
  is JavaScript whitespace only. So a message the page sends can be refused by the
  server.

## Model

| member | source | states |
|---|---|---|
| `RagPipeline.StoreEmbeddings` | rag_pipeline.py:19-44 | A non-list, an empty list, or a list with no usable chunk leaves the database unchanged. Otherwise the meeting's embedding row is replaced by one that encodes exactly the filtered chunks. No other meeting's row and no other table changes. |
| `RagPipeline.UsableChunks` | rag_pipeline.py:27 | The comprehension that keeps the `str` items whose `strip()` is non-empty, in list order. Its contract is carried by `UsableChunksSound`, `UsableChunksComplete` and `UsableChunksConcat`. |
| `RagPipeline.UsableChunksMembers` | rag_pipeline.py:27 | Every kept chunk is a string of the input whose `strip()` is non-empty, and every such string is kept. |
| `RagPipeline.UsableChunksSound` | rag_pipeline.py:27 | Nothing but non-blank strings of the input survives the filter. |
| `RagPipeline.UsableChunksComplete` | rag_pipeline.py:27 | No string of the input whose `strip()` is non-empty is dropped. |
| `RagPipeline.UsableChunksConcat` | rag_pipeline.py:27 | The filter preserves order: filtering a concatenation gives the concatenation of the filtered parts. |
| `RagPipeline.AllUsable` | rag_pipeline.py:27 | A list of strings none of which is blank passes the filter unchanged. |
| `RagPipeline.EmptyChunksFiltered` | rag_pipeline.py:23-40 | For `["", "  ", "valid text"]` the stored row encodes `["valid text"]` alone. |
| `RagPipeline.Retrieve` | rag_pipeline.py:46-90 | The result is `[]` without an embedding row, without a meeting row, or when the chunk column holds a non-list. It raises exactly when the chunk column is NULL. For a chunk list it returns `min(top_k, len(chunks))` records. Each record carries the queried id and one passage with that passage's fused score. Scores never increase along the list. |
| `RagPipeline.RetrieveFollowsRanking` | rag_pipeline.py:77-88 | The records are the top-`top_k` prefix of the ranking of fused scores. Equal scores keep ascending passage order, and every returned passage ranks ahead of every passage left out. |
| `RagPipeline.RetrieveAfterDelete` | rag_pipeline.py:51-66 | After `delete_meeting`, retrieval for that meeting returns no passages. |
| `RagPipeline.Fuse` | rag_pipeline.py:77-84 | One combined score per passage index, the dense reading plus the BM25 reading, each 0 past the end of its row. `RetrieveFollowsRanking` ranks by exactly these scores and `FusionExample` works one instance. |
| `RagPipeline.HitsFor` | rag_pipeline.py:88 | One record per ranked index, in rank order, carrying the meeting id, that passage and its combined score. |
| `RagPipeline.FusionExample` | rag_pipeline.py:77-86 | Dense (0.9, 0.1) and sparse (0.0, 0.5) fuse to (0.9, 0.6), ranked passage 0 then passage 1. |
| `Ranking.Rank` | rag_pipeline.py:86 | The sort lists every passage index exactly once, higher score first and, among equal scores, lower index first. |
| `Ranking.TopK` | rag_pipeline.py:86 | The truncated ranking holds `min(top_k, n)` distinct passages in rank order, each ahead of every passage it leaves out. |
| `Ranking.RankIsUnique` | rag_pipeline.py:86 | The descending order with index tie-break leaves no freedom: any complete ranking of the passages is the one `Rank` returns. |
| `Ranking.OrderedUnique` | rag_pipeline.py:86 | Two rank-ordered lists of the same passages are equal. |
| `MeetingStore.SaveTranscript` | database/db_manager.py:10-20 | The new id was not in use. The new meeting holds the transcript with no summary and no chunks. Every other meeting and every other table is unchanged, and the store stays valid. |
| `MeetingStore.SaveSummary` | database/db_manager.py:23-47 | Answers True exactly when the meeting exists. Then it sets that meeting's summary and chunk list and nothing else; otherwise the state is unchanged. |
| `MeetingStore.MeetingIds` | database/db_manager.py:50-58 | One `{id, name}` record per meeting row. `MeetingIdsSpec` proves every meeting is listed once, as `"Meeting <id>"`, and nothing else is. |
| `MeetingStore.MeetingIdsSpec` | database/db_manager.py:50-58 | The listing names every meeting exactly once, in ascending id order, as `"Meeting <id>"`, and lists nothing else. |
| `MeetingStore.EntriesListing` | database/db_manager.py:54-58 | The same holds for the record construction under any naming function. |
| `MeetingStore.MeetingDetails` | database/db_manager.py:60-70 | Found, with the stored transcript and summary, exactly when the meeting exists; otherwise a 404 with `"Meeting not found"`. |
| `MeetingStore.DeleteMeeting` | database/db_manager.py:73-86 | Removes exactly that meeting and leaves every other meeting and table as it was. |
| `MeetingStore.LoadEmbeddings` | database/db_manager.py:88-114 | Absent exactly when the meeting has no embedding row; otherwise it is that row. |
| `MeetingStore.SaveChat` | database/db_manager.py:119-141 | No change for a missing meeting; otherwise one row is appended to the chat table. |
| `MeetingStore.ChatHistory` | database/db_manager.py:144-156 | The meeting's saved exchanges, oldest first. `SaveChatHistory` and `Server.ChatRecordsExchange` prove a save appends exactly one exchange to that meeting's history and to no other. |
| `MeetingStore.SaveChatHistory` | database/db_manager.py:119-156 | Saving a chat appends the exchange to that meeting's history, oldest first, and leaves every other meeting's history unchanged. |
| `MeetingStore.OperationsPreserveValid` | database/db_manager.py:10-141 | Insert, update, delete and chat save keep the ids positive and below the next id. |
| `MeetingStore.DeletedMeetingNotFound` | database/db_manager.py:60-86 | Once deleted, a meeting's details are reported as not found. |
| `MeetingStore.SavedTranscriptReadable` | database/db_manager.py:10-70 | A saved transcript is readable under its new id, and the id appears in the meeting listing. |
| `Summariser.ExtractBulletPoints` | summariser.py:108-122 | The result has no whitespace at either end. With the marker it is the strip of the text after the first marker; without it, the strip of the whole text. |
| `Summariser.ExtractWithoutMarker` | summariser.py:120-122 | Without the marker, extraction is plain `strip()`, and extracting again changes nothing. |
| `Summariser.OptimalBatchSize` | summariser.py:50-63 | The size is 2 without CUDA. With CUDA it is 16 above 10e9 free bytes, 4 at or below 6e9, and 8 in between. |
| `Summariser.BatchSizeMonotone` | summariser.py:50-63 | More free memory never gives a smaller batch. |
| `Summariser.Batches` | summariser.py:74-77 | The slices `prompts[i : i + batch_size]` for `i` in steps of the batch size. `BatchesPartition` and `BatchesIndex` carry its contract. |
| `Summariser.BatchesPartition` | summariser.py:74-77 | There are `ceil(n / size)` batches. Each holds 1 to `size` prompts, and together they give back the prompts in order. |
| `Summariser.BatchesIndex` | summariser.py:76-77 | Batch `k` is `prompts[k*size : k*size + size]`. |
| `Summariser.SummarizeInBatches` | summariser.py:68-92 | One generated text per prompt, in prompt order. |
| `Summariser.SummarizeAnyBatchSize` | summariser.py:68-92 | The collected outputs do not depend on the batch size. |
| `Summariser.ChunkDict` | summariser.py:126-129 | The dictionary comprehension as an insertion-ordered dictionary. `ChunkDictKeys`, `ChunkDictValues` and `ChunkDictMatches` prove it agrees with the first-appearance/last-value reference. |
| `Summariser.ChunkDictMatches` | summariser.py:126-129 | The dictionary's keys are the distinct chunk texts in order of first appearance, and each key holds the summary of its last appearance. |
| `Summariser.ChunkDictKeys` | summariser.py:126-129 | The keys are the distinct chunk texts in first-appearance order, with no key twice. |
| `Summariser.ChunkDictValues` | summariser.py:126-129 | Each key holds the summary paired with its last appearance. |
| `Summariser.ChunkRecord` | summariser.py:157-160 | The record starts with `"Transcript: "`, quotes the chunk right after it, then `"\nSummary: "`, and ends with the summary. Its length is the sum of these four parts. |
| `Summariser.SummaryRecords` | summariser.py:157-160 | One record per distinct chunk, in first-appearance order, carrying that chunk's last summary. |
| `Summariser.SummaryRecordsCover` | summariser.py:157-160 | Every chunk of the input has a record, carrying the summary of its last appearance. |
| `Summariser.FinalSummary` | summariser.py:155 | The final summary is the whitespace strip of the cleaned summaries joined by line breaks. |
| `Summariser.FinalSummaryIsJoin` | summariser.py:155 | When the outer cleaned summaries are non-empty, the final strip removes nothing. |
| `Summariser.RecordNotBlank` | summariser.py:157-160 | No chunk record is blank, so every record survives the filter of `store_embeddings`. |
| `Summariser.CleanAll` | summariser.py:124 | One cleaned summary per output, each without whitespace at either end. |
| `Summariser.SummarisePipeline` | summariser.py:8-162 | The final summary is stripped. There is one record per distinct chunk, and none of them is blank. |
| `RagModel.BuildPrompt` | rag_model.py:29-39 | The bare instruction when the context strips to nothing, otherwise the grounded template. `BuildPromptSpec` carries its contract. |
| `RagModel.ChatWithModel` | rag_model.py:24-50 | The answer to a prompt, whatever the model generates, contains no `[/INST]` and has no whitespace at either end. `AnswerRoundTrip` shows it is exactly the generated reply when the pipeline echoes the prompt before it. |
| `RagModel.BuildPromptSpec` | rag_model.py:29-39 | A blank context (after `strip()`) gives exactly `"[INST] " + question + " [/INST]"`. Otherwise the grounded template quotes the question and then the context verbatim. Either way the prompt ends with `[/INST]`. |
| `RagModel.ExtractAnswer` | rag_model.py:47-48 | The answer is the strip of the text after the last `[/INST]`, or of the whole text when it has none. It never contains `[/INST]` and has no whitespace at either end. |
| `RagModel.LastPieceAfterTag` | rag_model.py:48 | When the text is a prompt ending in `[/INST]` followed by a piece without `[/INST]`, the split's last piece is exactly that piece. |
| `RagModel.AnswerRoundTrip` | rag_model.py:24-50 | If the pipeline echoes the prompt followed by an already stripped answer without `[/INST]`, `chat_with_model` returns exactly that answer, whatever the question and context. |
| `Server.UserMessage` | server.py:76 | A missing message reads as empty. A string is replaced by its strip. Any other JSON value makes `.strip()` raise. |
| `Server.MeetingIdOf` | server.py:77 | The id converts exactly when `int()` accepts the field, and it is then that value. |
| `Server.Contexts` | server.py:85 | The `context` field of every record, in rank order. |
| `Server.ContextString` | server.py:85-86 | The retrieved passages joined with line breaks. `ContextLength`, `ContextPieces` and `ContextSeparators` carry its contract. |
| `Server.ContextLength` | server.py:85-86 | The joined context is empty when there are no passages; otherwise its length is the passages' lengths plus one line break between each two. |
| `Server.ContextPieces` | server.py:85-86 | Every passage appears in the joined context, in rank order, at the offset its predecessors and their line breaks leave. |
| `Server.ContextSeparators` | server.py:85-86 | A line break follows every passage of the joined context but the last. |
| `Server.CleanReply` | server.py:90-91 | A reply without `assistant` is unchanged. Otherwise the result is the text after the first `assistant`, with colons and spaces stripped from both ends. |
| `Server.Chat` | server.py:71-101 | Only a 200 reply changes the database. A bad body, a non-string message or an id `int()` rejects gives 500. The reply is 400 with the fixed text exactly when the id converts and the message strips to nothing. On 200 the reply is the cleaned model answer to the top-5 context, and that exchange is saved. |
| `Server.BlankMessageRefused` | server.py:76-81 | A whitespace-only message is refused with 400 before retrieval, and nothing is saved. |
| `Server.MissingIdIsServerError` | server.py:77-81 | A missing or null meeting id ends in 500, never in the 400 reply. |
| `Server.ChatRecordsExchange` | server.py:76-96 | A message that is not blank after `strip()`, about a meeting whose retrieval succeeds, is answered with 200. The stripped message and the reply are appended to that meeting's chat history, and no other meeting's history changes. |
| `Server.SpeakerLine` | server.py:47-49 | The line is the speaker (or `"Unknown"`), then `": "`, then the segment text. |
| `Server.Conversation` | server.py:45-49 | One line per segment, in segment order. |
| `Server.TranscriptText` | server.py:53 | The conversation lines joined with line breaks. `TranscriptLines` proves splitting it again gives the lines back. |
| `Server.TranscriptLines` | server.py:45-53 | Splitting the joined transcript at line breaks gives back one line per segment. |
| `Server.Transcribe` | server.py:30-67 | The reply carries a fresh meeting id and the conversation lines, and the store stays valid. |
| `Server.TranscribeThenRetrieve` | server.py:53-61 | After `/transcribe` the meeting holds its transcript, summary and chunk records, and the records are embedded. Retrieval for the meeting then returns `min(top_k, number of records)` passages. |
| `Frontend.ClockOfSpec` | frontend/script.js:64-66 | `hours*3600 + minutes*60 + secs` equals the elapsed seconds, with minutes and seconds below 60. |
| `Frontend.ClockFieldsUnique` | frontend/script.js:64-66 | No other split of the seconds has minutes and seconds below 60. |
| `Frontend.Pad2` | frontend/script.js:68-70 | The padded field is all digits, at least two long, and exactly two long when the number is below 100. |
| `Frontend.Pad2Value` | frontend/script.js:68-70 | A padded field reads back as the number it shows. |
| `Frontend.FormatClock` | frontend/script.js:64-70 | Hours, minutes and seconds, each padded to two digits, joined by colons. `FormatClockShape`, `FormatClockRoundTrip` and `FormatClockZero` carry its contract. |
| `Frontend.FormatClockShape` | frontend/script.js:64-70 | The display has colons three and six places from its end. It is eight characters long below 100 hours. |
| `Frontend.FormatClockRoundTrip` | frontend/script.js:64-70 | Reading the display back as three colon-separated fields gives the elapsed seconds. |
| `Frontend.FormatClockZero` | frontend/script.js:79 | Zero seconds display as `00:00:00`, the text `stopTimer` writes. |
| `Frontend.StartTimer` | frontend/script.js:57-60 | Starting a timer that holds a handle changes nothing. Otherwise one more interval goes live, the handle is set, and the count and display are kept. A timer with one interval per handle keeps that invariant. |
| `Frontend.Tick` | frontend/script.js:62-71 | In one second every live interval fires once, adding one second each and redrawing the display for the new count. Without a live interval nothing happens. |
| `Frontend.StopTimer` | frontend/script.js:74-80 | The handle is cleared together with the interval it names, the count is zero and the display shows `00:00:00`. A timer with one interval per handle is left with none. |
| `Frontend.RecordingShowsElapsed` | frontend/script.js:57-80 | A stopped-then-started timer runs on exactly one interval, and after `n` seconds it counts `n` and displays the rendering of `n`. |
| `Frontend.RestartIgnored` | frontend/script.js:57-71 | Pressing start again during a recording neither restarts the count nor adds a second interval, so the next second still adds exactly one. |
| `Frontend.TicksRunning` | frontend/script.js:62-71 | A running timer keeps its one interval, and each second is counted once. |
| `Frontend.Toggle` | frontend/script.js:357-366 | The click flips `isTranscriptVisible`. The panel then shows the transcript exactly when it is set, with the matching button label. |
| `Frontend.ToggleTwice` | frontend/script.js:357-366 | Two clicks return a coherent panel to its previous state. |
| `Frontend.OrDefault` | frontend/script.js:335-336 | A present non-empty text is kept; anything else gives the fallback. |
| `Frontend.LoadDetails` | frontend/script.js:325-345 | A not-found reply only writes the error text. A found meeting fills transcript and summary (or their fallbacks) and shows the transcript. |
| `Frontend.BotText` | frontend/script.js:374-380 | The bot line is never empty. It is the reply when the reply is non-empty, "No response" when the reply is missing or empty, and the error text after a failed request. |
| `Frontend.Send` | frontend/script.js:368-381 | An input that trims to nothing changes nothing. Otherwise the trimmed message and the bot text are appended and the input is cleared. |
| `Frontend.BlankInputIgnored` | frontend/script.js:370-371 | A whitespace-only input never reaches the chat window, whatever its length. |
| `Frontend.OutcomeOf` | frontend/script.js:408-420 | Only a 200 reply resolves, with its `reply` field; every other status rejects. |
| `Frontend.SendWithoutMeeting` | frontend/script.js:402-426 | With no meeting selected, the request carries a null id, the server answers 500, and the page shows the error line under the message. |
| `Frontend.HistoryLines` | frontend/script.js:428-438 | A user line and then a bot line per saved exchange, oldest first. `HistoryLinesAppend` and `ReloadMatchesSend` carry its contract. |
| `Frontend.HistoryLinesAppend` | frontend/script.js:435-438 | Redrawing one more saved exchange adds its user line and then its bot line at the end. |
| `Frontend.ReloadMatchesSend` | frontend/script.js:376-443 | After a successful exchange, redrawing the saved history shows the same two lines the send button added, except that an empty reply shows live as "No response" and redraws as an empty bot line. |
| `Frontend.SeparatorOnlyMessage` | frontend/script.js:368-381 | A message of one U+001C is not blank to `trim()`, so the page sends it. The server's `strip()` blanks it and answers 400, and the page shows the error line. |
| `Text.Strip` | server.py:76 | Python's `strip()`. `StripSpec`, `StripOfUnique` and `StripIdempotent` carry its contract. |
| `Text.StripSpec` | server.py:76 | Python's `strip()` removes a maximal run of `isspace` characters at both ends and keeps the rest verbatim. |
| `Text.Trim` | frontend/script.js:370 | JavaScript's `trim()`. `TrimSpec` carries its contract. |
| `Text.TrimSpec` | frontend/script.js:370 | JavaScript's `trim()` does the same for ECMAScript whitespace and line terminators. |
| `Text.StripOfUnique` | summariser.py:118 | A string has exactly one strip. |
| `Text.StripIdempotent` | summariser.py:118 | Stripping twice is stripping once. |
| `Text.Partition` | summariser.py:117 | Head, separator and tail put back together give the text. With the separator present, the head ends where its first occurrence starts; without it, the head is the whole text. |
| `Text.LastPiece` | rag_model.py:48 | The last piece of `split(sep)` is a suffix of the text without the separator, preceded by a separator whenever the text contains one. |
| `Text.SplitOnJoin` | server.py:53 | Joining separator-free pieces with line breaks and splitting again gives back the pieces. |
| `Text.JoinLength` | server.py:86 | `sep.join(xs)` of at least one piece is as long as the pieces plus one separator between each two. |
| `Text.JoinPieceAt` | server.py:86 | Piece `k` of `sep.join(xs)` sits at the offset the earlier pieces and their separators leave. |
| `Text.JoinSeparatorAt` | server.py:86 | A separator follows every piece of `sep.join(xs)` but the last. |
| `Text.NatToStringRoundTrip` | frontend/script.js:68-70 | Decimal rendering reads back as the number. |

## Left out

- The sentence encoder, FAISS index construction and search, and BM25Okapi scoring are
  foreign libraries. Their outputs enter as score rows. BM25 tokenisation, including
  BM25 being fed untokenised strings, is not modelled.
- Floating point: scores are reals. The float32/float16 casts and FAISS's padding of
  short answers are left out.
- SQLite, pickle and JSON: tables are maps and sequences, and a column holds the value it
  was given. The schema file is not part of this model. So `delete_meeting`'s cascade to
  other tables is not modelled (embedding and chat rows stay), and ids are handed out by
  a counter and never reused.
- `MeetingStore.SaveChatHistory`: `ORDER BY timestamp ASC` is modelled as insertion order,
  which is the same order as long as the clock does not go backwards.
- `RagPipeline.Retrieve`: a stored chunk list that is empty gives no records. In the code,
  `BM25Okapi([])` divides by the corpus size while averaging document lengths, so that
  request would end in a 500 reply instead; rank_bm25 is not part of this model.
- `RagPipeline.Retrieve`: the chunk column is always written as a list of strings, so a
  list with non-string items is not modelled.
- Flask routing, CORS, `request.get_json`, `jsonify` and traceback printing: a request is
  reduced to the fields the handler reads, a reply to its status and body.
- `transcribe_audio` before the segments: the upload, whisperx transcription, alignment
  and diarisation, file removal and the CUDA cache calls.
- The language models (`text_gen_pipeline`, `chat_pipeline`) are parameters. The text
  splitter (`RecursiveCharacterTextSplitter`) is a parameter. The GPU memory query is
  an input.
- `Summariser.BatchSizeMonotone`: monotone in free memory for a fixed CUDA flag only; the
  flag itself is not ordered.
- `Summariser.SummarisePipeline`: the batch size it runs with is not a parameter, because
  `Summariser.SummarizeAnyBatchSize` shows the outputs do not depend on it.
- `Frontend.ReloadMatchesSend`: stated over the history before and after the exchange.
  `Server.ChatRecordsExchange` proves the history grows by exactly that exchange when the
  server's `strip()` leaves the page's trimmed message unchanged; a message the two trims
  treat differently is saved in its stripped form, which the redraw then shows.
- The page's DOM, MediaRecorder and AudioContext, `fetch`/`XMLHttpRequest`, `async`
  ordering, `setInterval` scheduling, the theme toggle and the meeting list rendering. A
  timer tick is one second in which every live interval fires once, so phase differences
  between intervals are not modelled; a request's outcome is a parameter or the server's
  reply.
- `Frontend.Tick`: the timer display is held as the count it last rendered, and its text
  is the rendering of that count. Both writes in `startTimer`'s interval and `stopTimer`
  have this form. The page's initial markup is not part of this model.
- `MeetingStore.MeetingIdsSpec`: `SELECT id FROM meetings` has no `ORDER BY`, so SQL does
  not fix the row order. The model lists ids in ascending order, which is the order of
  SQLite's rowid scan.
- The `/ping`, `/get_meeting_ids`, `/get_meeting/<id>` and `/get_chat_history/<id>`
  routes only forward to the store operations modelled above.
- The module-level transcript file read at the end of `database/db_manager.py`.
