# Document-grounded assistant: a verified model of its core

This project models, in Dafny, the core of a small retrieval-augmented
assistant. It covers three parts.

- **The RAG pipeline** (`scripts/rag_assistant.py`):
  - the character chunker `chunk_text` normalises whitespace, then slides a
    window of 800 characters over the text with an overlap of 120;
  - the batching loop of `embed_texts` sends the texts to the embedding
    provider four at a time;
  - `build_index` assembles the chunk list (document by document, chunk ids
    numbered from 0) and pairs it with the embedding rows;
  - `retrieve_top_k` ranks the chunks by descending score and keeps the
    first `k`;
  - `answer_with_context` formats the retrieved chunks into labelled blocks
    and builds the chat request around them.
- **The session store** (`src/session_store.py`): the `_sessions` cache of
  conversations. It covers session creation on first use, appending
  timestamped messages, reading back the last `limit` messages, and sweeping
  away sessions idle for longer than a limit.
- **The prompt library** (`prompts/prompt_library.py`): five fixed prompt
  templates chosen by mode, with the user input inserted at one place.

## Modules

Each file holds one module:

- `wrappers.dfy` — `Option`, `Result`.
- `pytext.dfy` — the Python string and list behaviour the code relies on:
  - `str.split()` with the full `str.isspace` set;
  - `sep.join`;
  - `str.strip()`;
  - slices with missing or negative bounds;
  - `str(int)` and its inverse.
- `chunker.dfy`, `embedder.dfy`, `index_builder.dfy`, `retriever.dfy`,
  `answer_composer.dfy` — the pipeline, one module per stage.
- `session_store.dfy` — the cache as a class `Store` holding a
  `map<string, Session>`, with a `Clock` class standing in for
  `int(time.time())`. Each read of the clock takes the next of a fixed
  series of readings, so the two reads made when a session is created may
  differ, as they may in the source.
- `prompt_library.dfy` — the templates and `GetPrompt`.

Loops in the source become `method`s with loop invariants. Each is proved
against a function that specifies it:

- `ChunkText` against `Chunks`;
- `EmbedTexts` against `Batches` and `CallAll`;
- `AssembleChunks` against `AllChunks`;
- `ContextBlocks` against `SourceBlock`;
- `CollectExpired` and `CleanupSessions` against `ExpiredIds` and `Sweep`.

The properties the source promises are lemmas about those functions.

Some behaviours of the code are proved as they are, edge cases included:

- A whitespace-only document yields no chunk.
- `get_recent_messages(id, 0)` returns the whole history, because `-0` is
  `0` and the slice is `messages[0:]`.
- A negative `limit` drops the first `-limit` messages.
- A session record without `updated_at` is never swept while the limit is
  non-negative.

## Model

| member | source | states |
|---|---|---|
| PyText.Split | scripts/rag_assistant.py:71 | every word of `text.split()` is non-empty and holds no whitespace; that the words are the text's non-whitespace runs in order is `WeaveGaps` with `GapsAreSpace` |
| PyText.WeaveGaps | scripts/rag_assistant.py:71 | the text is its gaps and its words interleaved: `gap0 + word0 + gap1 + ... + word(n-1) + gapn`, so the words of `text.split()` are the text's non-whitespace runs, in order |
| PyText.GapsAreSpace | scripts/rag_assistant.py:71 | every gap is whitespace only and every gap between two words is non-empty, so no word of `text.split()` could be extended or merged with the next |
| PyText.SplitJoinWords | scripts/rag_assistant.py:71 | splitting non-empty whitespace-free words joined by single spaces gives back the same words |
| PyText.NormalizeKeepsWords | scripts/rag_assistant.py:71 | `" ".join(text.split())` has exactly the words of `text`, in order: normalisation only changes whitespace |
| PyText.Normalize | scripts/rag_assistant.py:71 | `" ".join(text.split())`; its content is fixed by `NormalizeKeepsWords` and `NormalizeIsNormalized` |
| PyText.Join | scripts/rag_assistant.py:168 | `sep.join(ws)`, whose layout `JoinAt` states |
| PyText.Strip | scripts/rag_assistant.py:188 | `str.strip()`, characterised by `StripShape` |
| PyText.IntToString | scripts/rag_assistant.py:166 | `str(i)` for any integer, read back by `IntToStringRoundTrip` |
| PyText.SplitEmptyIff | scripts/rag_assistant.py:71 | `text.split()` is empty exactly when the text is all whitespace |
| PyText.NormalizeEmptyIff | scripts/rag_assistant.py:71-73 | the normalised text is empty exactly when the input is all whitespace, so the early `return []` fires exactly then |
| PyText.NormalizeIsNormalized | scripts/rag_assistant.py:71 | after normalisation every whitespace character is a single space between two non-space characters |
| PyText.NormalizeIdempotent | scripts/rag_assistant.py:71 | normalising twice is normalising once |
| PyText.JoinAt | scripts/rag_assistant.py:168 | in `sep.join(ws)` element `i` stands at its offset, followed by `sep` unless it is the last one, and the last one ends the string |
| PyText.SliceIndex | scripts/rag_assistant.py:148 | the Python slice bound for any integer `i` on a sequence of length `n`; what it means is stated by `RecentPositive`, `RecentZero` and `RecentNegative` for `messages[-limit:]` and by `RetrieveTopK`'s result count for `[:k]` |
| PyText.SliceFrom | src/session_store.py:41 | `xs[i:]` for any integer `i`, negative `i` counting from the end; `Recent` applies it with `-limit` |
| PyText.SliceTo | scripts/rag_assistant.py:148 | `xs[:i]` for any integer `i`; `RetrieveTopK` keeps `SliceTo(order, k)`, whose length its ensures states as `SliceIndex(n, k)` |
| PyText.NatToString | scripts/rag_assistant.py:166 | `str(n)` is a non-empty string of decimal digits with no leading zero |
| PyText.IntToStringRoundTrip | scripts/rag_assistant.py:166 | `str(i)` starts with `-` exactly for negative `i` and reads back as `i` |
| PyText.StripShape | scripts/rag_assistant.py:188 | `strip()` returns the piece of the reply between a whitespace prefix and a whitespace suffix, and that piece neither starts nor ends with whitespace |
| PyText.StripEmptyIff | scripts/rag_assistant.py:188 | the stripped reply is empty exactly when the reply is all whitespace |
| PyText.StripIdempotent | scripts/rag_assistant.py:188 | stripping twice is stripping once |
| Chunker.ChunkText | scripts/rag_assistant.py:66-85 | the loop returns exactly the chunk list `Chunks` of the normalised text |
| Chunker.ChunksFrom | scripts/rag_assistant.py:77-84 | the chunks the loop emits from a given `start`; one round of it is `ChunksFromUnfold`, chunk `i` is `ChunkFromAt` |
| Chunker.Window | scripts/rag_assistant.py:78-79 | `text[start:min(len(text), start + chunk_size)]`; `ChunkFromAt` and `ChunkOffsets` place each chunk as such a window |
| Chunker.ClampZero | scripts/rag_assistant.py:82-84 | the restart offset `end - overlap`, set to 0 when negative |
| Chunker.Chunks | scripts/rag_assistant.py:72-84 | no chunk for the empty text, otherwise the loop's chunks from 0; `ChunkOffsets`, `ChunkLengths` and `Reconstruct` state what they are |
| Chunker.ChunksFromUnfold | scripts/rag_assistant.py:77-84 | one loop round emits the window at `start`, stops when it reaches the end, and otherwise restarts `overlap` characters before the window's end |
| Chunker.ChunkFromAt | scripts/rag_assistant.py:77-84 | chunk `i` emitted from `start` is the window at `start + i*(size-overlap)`; every chunk but the last stops short of the end, and the last reaches it |
| Chunker.ChunkAt | scripts/rag_assistant.py:77-84 | chunk `i` is the window of the text at offset `i*(chunk_size-overlap)` |
| Chunker.ChunksEmptyIff | scripts/rag_assistant.py:72-73 | a normalised text gives no chunks exactly when it is empty |
| Chunker.ChunkLengths | scripts/rag_assistant.py:78-79 | every chunk holds between 1 and `chunk_size` characters, and all but the last hold exactly `chunk_size` |
| Chunker.ChunkOffsets | scripts/rag_assistant.py:76-84 | chunk `i` is the substring at offset `i*(chunk_size-overlap)`, and the last chunk ends at the end of the text |
| Chunker.SingleChunk | scripts/rag_assistant.py:77-81 | a text no longer than one window is returned as a single chunk |
| Chunker.StitchFrom | scripts/rag_assistant.py:77-84 | dropping the first `overlap` characters of every chunk after the first and concatenating gives back the text from `start` |
| Chunker.Reconstruct | scripts/rag_assistant.py:76-85 | the chunks overlap by exactly `overlap` characters: with the overlaps removed they concatenate back to the normalised text |
| Chunker.ChunkTextEmptyIff | scripts/rag_assistant.py:71-73 | `chunk_text` returns no chunk exactly when its input is all whitespace |
| Embedder.EmbedTexts | scripts/rag_assistant.py:93-99 | the loop calls the provider once per batch of `Batches(texts)`, in order, and collects the concatenation of the replies |
| Embedder.Batches | scripts/rag_assistant.py:95-96 | `texts[i:i+4]` for `i` in `range(0, n, 4)`, characterised by `BatchesShape` and `BatchesFlatten` |
| Embedder.CallAll | scripts/rag_assistant.py:97-99 | the provider's rows for each batch, concatenated in batch order, as `CallAllAppend` states |
| Embedder.BatchesShape | scripts/rag_assistant.py:95-96 | there are `ceil(n/4)` batches, and batch `j` is `texts[4j:4j+4]` |
| Embedder.BatchesFlatten | scripts/rag_assistant.py:95-96 | the batches concatenated in order are exactly the input texts |
| Embedder.CallAllAppend | scripts/rag_assistant.py:99 | `vectors.extend` puts each batch's rows after those of the earlier batches |
| Embedder.EmbedRowAt | scripts/rag_assistant.py:95-99 | with one row per input, there are as many rows as texts, and row `i` is the provider's row for `texts[i]` within its batch `i/4` |
| Embedder.RowCount | scripts/rag_assistant.py:99 | a provider that answers one row per text yields exactly one row per input text |
| Embedder.EmbedPointwise | scripts/rag_assistant.py:93-99 | with a provider that embeds texts independently, row `i` is the embedding of `texts[i]`, whatever the batching |
| IndexBuilder.Labelled | scripts/rag_assistant.py:115-116 | the `Chunk(doc_id, idx, chunk)` records of one document, one per `enumerate` step; `DocBlock` and `ChunkIdsContiguous` state where they land in the index and how they are numbered |
| IndexBuilder.AllChunks | scripts/rag_assistant.py:113-116 | each document's labelled chunks, documents in order; `AllChunksAppend`, `DocBlock` and `ChunkIdsContiguous` state its layout |
| IndexBuilder.DocChunkTexts | scripts/rag_assistant.py:115 | `chunk_text(full_text)` with the default window of 800 and overlap of 120, i.e. `Chunks(Normalize(text), 800, 120)` as `ChunkText` proves |
| IndexBuilder.Texts | scripts/rag_assistant.py:118 | `[c.text for c in chunks]`; `AllChunksTexts` states that these are the documents' `chunk_text` outputs in order, and `IndexAligned` that embedding row `i` belongs to chunk `i` |
| IndexBuilder.AssembleChunks | scripts/rag_assistant.py:113-116 | the nested loops produce the chunk list `AllChunks(docs)` |
| IndexBuilder.BuildIndex | scripts/rag_assistant.py:108-128 | no documents gives the "No documents found" error, and documents with no chunk give the empty-embedding error; the build succeeds exactly when there are documents and they yield a chunk, and then the index has the model tag, the chunk list and the provider's rows, one per chunk when the provider answers one row per text |
| IndexBuilder.AllChunksAppend | scripts/rag_assistant.py:114-116 | a further document adds its labelled chunks after those of the earlier documents |
| IndexBuilder.AllChunksConcat | scripts/rag_assistant.py:114-116 | the chunk list of two runs of documents is the concatenation of their chunk lists |
| IndexBuilder.DocBlock | scripts/rag_assistant.py:114-116 | the chunks of document `d` sit together, numbered from 0, between those of earlier and later documents |
| IndexBuilder.AllChunksTexts | scripts/rag_assistant.py:114-118 | the embedded texts are the `chunk_text` outputs of the documents, concatenated in document order |
| IndexBuilder.BlankDocumentSkipped | scripts/rag_assistant.py:114-116 | a whitespace-only document contributes no chunk |
| IndexBuilder.ChunkIdsContiguous | scripts/rag_assistant.py:115-116 | chunk ids are non-negative, and every id above 0 follows the id before it from the same document |
| IndexBuilder.IndexAligned | scripts/rag_assistant.py:118-127 | with a provider that embeds texts independently, embedding row `i` is the embedding of chunk `i`'s text |
| Retriever.FindSlot | scripts/rag_assistant.py:148 | finds the insertion point in a ranking: every entry before it scores at least the new index, every entry from it on scores less |
| Retriever.ResultFor | scripts/rag_assistant.py:152-158 | the result dict for chunk `i`: its score, document id, chunk id and text, as `RetrieveTopK` states for every kept index |
| Retriever.InsertKeepsRanking | scripts/rag_assistant.py:148 | inserting an index at its slot keeps the ranking non-increasing, keeps entries distinct and adds just that index |
| Retriever.ArgSortDescending | scripts/rag_assistant.py:148 | `argsort(-scores)` lists every index exactly once, in non-increasing order of score |
| Retriever.RetrieveTopK | scripts/rag_assistant.py:147-158 | returns `SliceIndex(n, k)` results, i.e. `min(k, n)` for `k >= 0` (Python `[:k]` for any `k`) for distinct chunks, each carrying that chunk's score, document id, chunk id and text; scores are non-increasing and no omitted chunk scores above a returned one |
| AnswerComposer.Blocks | scripts/rag_assistant.py:163-167 | the `context_blocks` list, one `SourceBlock` per retrieved entry; `ContextBlocks` proves the loop builds it, and `ContextLayout` and `SourceBlockParts` state where each block sits and what it holds |
| AnswerComposer.SourceBlock | scripts/rag_assistant.py:166 | the f-string block of one entry, split into label and text by `SourceBlockParts` |
| AnswerComposer.Context | scripts/rag_assistant.py:168 | `"\n\n---\n\n".join(context_blocks)`, laid out by `ContextLayout` and empty exactly as `ContextEmptyIff` says |
| AnswerComposer.UserMessage | scripts/rag_assistant.py:177 | the f-string user message, whose parts `UserMessageParts` recovers |
| AnswerComposer.Request | scripts/rag_assistant.py:179-187 | the arguments of `client.chat.completions.create`; `ComposeRequest` and `AnswerWithContext` state that the request sent is this one, and `UserMessageParts` what its user message holds |
| AnswerComposer.ContextBlocks | scripts/rag_assistant.py:163-167 | the loop renders block `i` as `[Source: doc_id \| chunk id]`, a newline and the chunk text of entry `i` |
| AnswerComposer.ComposeRequest | scripts/rag_assistant.py:168-187 | the request has the chat model, temperature 0.2 and at most 400 tokens; it sends the fixed system instruction, then the user message holding the question and the joined context |
| AnswerComposer.AnswerWithContext | scripts/rag_assistant.py:162-188 | sends exactly `Request(question, retrieved)`: the chat model, temperature 0.2, 400 tokens, the system instruction under role `system` and the question-and-context message under role `user`; the answer is the provider's reply to that request with surrounding whitespace stripped |
| AnswerComposer.ContextLayout | scripts/rag_assistant.py:168 | block `i` stands at its offset in the context, followed by the `---` separator unless it is the last, which ends the context |
| AnswerComposer.ContextEmptyIff | scripts/rag_assistant.py:163-168 | the context is empty exactly when nothing was retrieved |
| AnswerComposer.SourceBlockParts | scripts/rag_assistant.py:166 | a block ends with the chunk text, and the chunk id written in its label reads back as the chunk id |
| AnswerComposer.UserMessageParts | scripts/rag_assistant.py:177 | the user message is `QUESTION:` and the question, then `CONTEXT:` and the context, each recoverable by position |
| SessionStore.Clock.Now | src/session_store.py:28 | a clock read returns the next reading and advances the clock by one |
| SessionStore.Store.constructor | src/session_store.py:9 | the cache starts empty |
| SessionStore.Store.GetOrCreateSession | src/session_store.py:24-32 | an existing session is returned untouched, without reading the clock; a missing one is created with two clock reads and no messages, and stored under its id |
| SessionStore.NewSession | src/session_store.py:26-31 | the record a missing session gets: its id, two clock reads and no messages |
| SessionStore.Store.AppendMessage | src/session_store.py:34-37 | only the session `id` changes: it is created if missing, gets the message stamped with the next clock read, and its update time becomes the read after that |
| SessionStore.Store.GetRecentMessages | src/session_store.py:24-41 | an existing session: cache and clock unchanged, returns `messages[-limit:]`; a missing id: a new empty session stamped with the next two clock reads is added, every other session stays, and `[]` is returned |
| SessionStore.Store.CleanupSessions | src/session_store.py:43-55 | reads the clock once; the cache becomes exactly the sessions that had not expired at that reading, and the count returned is the number of expired sessions |
| SessionStore.CollectExpired | src/session_store.py:48-52 | the ids collected are exactly the expired sessions, each once |
| SessionStore.WithMessage | src/session_store.py:36-37 | the session after `messages.append` and the `updated_at` write; `Store.AppendMessage` states that only this session changes and which clock reads stamp it |
| SessionStore.ExpiredIds | src/session_store.py:51 | the ids the `to_delete` comprehension selects; `CollectExpired` proves the loop collects them, and `Store.CleanupSessions` and `SweepCount` state that exactly these are removed and counted |
| SessionStore.IdleFor | src/session_store.py:51 | `now - updated_at`, with a missing `updated_at` counting as `now` |
| SessionStore.Expired | src/session_store.py:51 | a session is expired when it has been idle for strictly more than the limit |
| SessionStore.Sweep | src/session_store.py:53-54 | the swept cache keeps the non-expired sessions unchanged and loses the expired ones |
| SessionStore.RecentPositive | src/session_store.py:41 | for a positive limit, returns the last `min(limit, n)` messages |
| SessionStore.RecentZero | src/session_store.py:41 | a limit of 0 returns every message |
| SessionStore.RecentNegative | src/session_store.py:41 | a negative limit drops the first `-limit` messages |
| SessionStore.Recent | src/session_store.py:41 | `messages[-limit:]`, characterised for every sign of `limit` by `RecentPositive`, `RecentZero` and `RecentNegative` |
| SessionStore.RecentDefault | src/session_store.py:39-41 | with the default limit of 10, the last ten messages are returned, or all of them when there are fewer |
| SessionStore.WeekOldKept | src/session_store.py:43-54 | with the default limit of one week, a session updated at most a week ago is kept, unchanged |
| SessionStore.SweepCount | src/session_store.py:43-55 | the number reported plus the number of sessions kept is the number there were |
| SessionStore.SweepIdempotent | src/session_store.py:43-55 | a second sweep at the same time and limit removes nothing |
| SessionStore.NoUpdateTimeKept | src/session_store.py:51 | a record without `updated_at` survives the sweep for any non-negative limit |
| SessionStore.SweepMonotone | src/session_store.py:51 | a larger idle limit keeps every session a smaller one keeps |
| PromptLibrary.GetPrompt | prompts/prompt_library.py:1-88 | gives no prompt exactly for a mode other than summarize, qa, classify, rewrite and plan |
| PromptLibrary.TemplateFor | prompts/prompt_library.py:1-88 | the branch of `get_prompt` a mode selects, checked in the source's order; no template for any other mode |
| PromptLibrary.Extract | prompts/prompt_library.py:1-88 | reads the input back out of a prompt that has the template's prefix and suffix, and says exactly when a prompt has that shape |
| PromptLibrary.PromptShape | prompts/prompt_library.py:2-85 | every prompt starts and ends with a newline, and the input follows the heading line `TEXT:` (summarize, classify, rewrite), `QUESTION:` (qa) or `GOAL:` (plan) |
| PromptLibrary.ExtractRoundTrip | prompts/prompt_library.py:1-88 | the input can be read back from the prompt of its mode |
| PromptLibrary.Mismatch | prompts/prompt_library.py:1-88 | a template that differs from a prompt at some position within its prefix does not match it |
| PromptLibrary.RoleChar | prompts/prompt_library.py:1-88 | the prompt's first characters are those of its template's role line |
| PromptLibrary.RoleDifference | prompts/prompt_library.py:4-69 | the role lines of two different modes differ at one of the first 25 characters |
| PromptLibrary.OtherTemplatesMiss | prompts/prompt_library.py:1-88 | the prompt of one mode matches no other mode's template |
| PromptLibrary.ParseFromUnique | prompts/prompt_library.py:1-88 | trying the modes in order finds the only one whose template matches |
| PromptLibrary.ParseRoundTrip | prompts/prompt_library.py:1-88 | the mode and the input can both be read back from any prompt, so different (mode, input) pairs never give the same prompt |

## Left out

- File and network I/O are left out: `load_documents`, `read_text_file`, `read_pdf_file`, `load_index`, writing the index file, and `load_sessions_from_disk`/`save_sessions_to_disk`. Documents are given as (id, text) pairs.
- The embedding and chat provider calls are function parameters. This includes the query embedding inside `retrieve_top_k`, and `resp.choices[0].message.content` is taken as the reply text.
- Provider failures are left out. An exception or time-out from `client.embeddings.create` or `client.chat.completions.create` aborts `build_index`, `retrieve_top_k` or `answer_with_context` in the source. Here the providers are total functions, so that path does not exist.
- Floating point is left out: the float32 conversion and row normalisation in `embed_texts`, and the cosine scores `embeddings @ q_vec`. Scores are given to the retriever as integers.
- `main` and the command-line loop are left out. So are `src/app.py`, `src/ai_service.py`, `scripts/cli_assistant.py` and `scripts/hello_ai.py`, which are not part of this model.
- Chunker.ChunkText: requires `0 <= overlap < chunk_size`. With `overlap >= chunk_size` the source loop does not advance, and a negative overlap skips characters. Neither is modelled.
- Embedder.EmbedTexts: returns the raw provider rows in order; the normalisation to unit length is not modelled.
- IndexBuilder.BuildIndex: `NothingToEmbed` stands for numpy raising on the empty embedding array; the exception type is not modelled.
- Retriever.ArgSortDescending: an insertion sort stands in for numpy's sort. Only the descending order and the permutation are claimed. The order among equal scores (numpy's default sort is not stable) is left open.
- Retriever.RetrieveTopK: requires at most as many scores as chunks. With more embedding rows than chunks, the source raises `IndexError` only when one of the first `k` ranked rows has no chunk. Otherwise it returns normally. That case is not modelled.
- SessionStore.Store.GetOrCreateSession: returns the session as a value. The source returns the cached dictionary itself, so a caller's later changes reach the cache; only `append_message`'s own changes are modelled.
- SessionStore.Clock.Now: readings are whole seconds given in advance. The truncation of `time.time()` by `int(...)` is not modelled.
- SessionStore.Store.CleanupSessions: collects the expired ids in an unspecified order rather than dictionary insertion order; only the set of ids and their count are claimed.
- Session records loaded from disk may lack keys. Only a missing `updated_at` is modelled; a missing `messages` key (a `KeyError` in the source) is not.
