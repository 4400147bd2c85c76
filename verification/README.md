# AI platform assessment: a verified model of its deterministic core

The repository bundles four small "AI platform" exercises and three
programs its code assistant generated. This project models the parts of
them that are deterministic once the language model, the child processes,
SQLite and the file system are taken away. Each part gets pure functions
over immutable data, with contracts and lemmas proved by Dafny.

- **Self-healing code assistant** (`src/code_assistant.py`):
  - `TaskLanguage`: language choice, the no-cargo fallback rewrite, and the audit-file slug and name.
  - `Prompt`: the generation prompt with its feedback block.
  - `MockGenerator`: the offline code generator's keyword dispatch.
  - `RustProject`: the `create_rust_project` manifest and source split.
  - `Runners`: the Rust and Python runners as decision procedures over the outcome of each child process.
  - `Retry`: the three-attempt retry loop and the whole `solve_task`.
- **Trip planner** (`src/planning_agent.py`, `Planning`): the fallback parameters, the 40/30/20/10 budget split, the accommodation filter, cheapest choices, the greedy attraction picks, the cost estimate and the daily schedule.
- **Retrieval-augmented QA** (`src/rag_system.py`):
  - `VectorStore`: the in-memory `SimpleVectorStore`, with keyword scoring, ranking and answer shape.
  - `Ingestion`: `process_pdf` chunking, ids and batching over the extracted page texts.
  - `Retrieval`: the `retrieve` reshaping and the `evaluate_retrieval` counting.
- **Chat bot** (`src/chat.py`, `Chat`): the message history as an append-only sequence, the request window, accumulation of the streamed reply, and the offline `MockOpenAI` client.
- **Generated programs**:
  - `SearchTree`: the binary search tree.
  - `Fibonacci`: memoised and iterative Fibonacci.
  - `Quicksort`: the three-way quicksort.
- **Shared string operations** (`Text`): Python's `lower`, `in`, `replace`, `strip`, `split`, `join` and `str(n)` on naturals. `Wrappers` holds `Option` and `Result`.

Three behaviours of the code that are easy to miss:

- The offline code generator picks its program from the keywords of the *prompt* (`messages[0]['content']`), not of the raw task text (src/code_assistant.py:34-35). After the no-cargo fallback, a task spelled "RUST" is still answered with Rust code (`MockGenerator.ShoutedRustGetsRustCode`).
- The fallback rewrite is literal. Only "rust" and "Rust" are replaced, so "RUST" survives and "trust" becomes "tpython" (`TaskLanguage.FallbackIsLiteral`).
- A failing generation call is not absorbed by switching to the offline generator. The offline client is chosen once, when the assistant is constructed (src/code_assistant.py:17-229). The model's generator is a total function.

## Model

| member | source | states |
|---|---|---|
| TaskLanguage.Resolve | src/code_assistant.py:440-447 | Rust is used iff the lower-cased task contains "rust" and cargo is available. A Rust task is kept as it is. A task not asking for Rust stays Python and unchanged. A Rust task without cargo becomes the rewritten task, with no "rust" or "Rust" left in it. |
| TaskLanguage.FallbackRemovesKeywords | src/code_assistant.py:447 | After `replace("rust","python").replace("Rust","Python")`, neither "rust" nor "Rust" occurs in the task. |
| TaskLanguage.FallbackKeepsUnrelatedText | src/code_assistant.py:447 | A task naming neither spelling is not changed by the rewrite. |
| TaskLanguage.FallbackKeepsOtherCasings | src/code_assistant.py:441-447 | A task that asks for Rust only in another casing is handed to Python unchanged, and the task text still asks for Rust. |
| TaskLanguage.FallbackIsLiteral | src/code_assistant.py:447 | "RUST" resolves to Python unchanged; "trust" is rewritten to "tpython". |
| TaskLanguage.Slug | src/code_assistant.py:455 | The slug has length min(\|task\|, 30). Character i is the lower-cased task character, or `_` when that is outside [a-zA-Z0-9]. Every slug character is in [a-z0-9_]. |
| TaskLanguage.FilenameInjective | src/code_assistant.py:468 | Two audit file names of one slug are equal only for the same attempt number and language. |
| TaskLanguage.CheckedInFilenames | src/code_assistant.py:455-468 | The BST and Fibonacci tasks give the checked-in names `create_a_binary_search_tree_in_attempt_1.py` and `implement_fibonacci_with_memoi_attempt_1.py`. |
| TaskLanguage.BstSlug | src/code_assistant.py:455 | The BST task's slug is `create_a_binary_search_tree_in`. |
| TaskLanguage.FibonacciSlug | src/code_assistant.py:455 | The Fibonacci task's slug is `implement_fibonacci_with_memoi`. |
| TaskLanguage.QuicksortSlug | src/code_assistant.py:455 | The Python quicksort task's slug is `write_quicksort_in_python`. |
| TaskLanguage.QuicksortResolves | src/code_assistant.py:441-447 | Without cargo, "write quicksort in Rust" resolves to Python and "write quicksort in Python". |
| TaskLanguage.QuicksortFile | src/code_assistant.py:468 | The first attempt of that task is saved as `write_quicksort_in_python_attempt_1.py`. |
| TaskLanguage.QuicksortFallback | src/code_assistant.py:441-468 | Without cargo, "write quicksort in Rust" becomes the Python task "write quicksort in Python", saved as `write_quicksort_in_python_attempt_1.py`. |
| TaskLanguage.QuicksortRequestsRust | src/code_assistant.py:441 | "write quicksort in Rust" requests Rust. |
| TaskLanguage.QuicksortRewrite | src/code_assistant.py:447 | The rewrite of "write quicksort in Rust" is "write quicksort in Python". |
| Prompt.BuildPrompt | src/code_assistant.py:237-265 | The prompt contains the task and starts with the language's request. It carries the feedback block quoting the previous diagnostic exactly when that diagnostic is present and non-empty; otherwise it is the bare request. |
| Prompt.RecoverError | src/code_assistant.py:258-265 | A diagnostic read out of a prompt accounts for exactly the prompt's length beyond the bare request. |
| Prompt.RecoverBuiltError | src/code_assistant.py:258-265 | The diagnostic can be read back out of the prompt. A first-attempt prompt, or one after an empty diagnostic, yields none. |
| Prompt.PromptDeterminesError | src/code_assistant.py:258-265 | Equal prompts for one task carry the same diagnostic. |
| MockGenerator.Choose | src/code_assistant.py:32-210 | A Rust program is chosen iff the lower-cased prompt contains "rust", and a quicksort program iff it contains "quicksort". Without either, the tree program is chosen iff the prompt names a binary search tree, then memoised Fibonacci iff it names both "fibonacci" and "memoization", and the Python greeting otherwise. |
| MockGenerator.RustPromptGetsRust | src/code_assistant.py:237-239 | Every Rust prompt mentions "rust", so it is answered with a Rust program. |
| MockGenerator.PromptKeepsKeyword | src/code_assistant.py:237-265 | A keyword of the lower-cased task is seen in the lower-cased prompt built for it. |
| MockGenerator.TaskKeywordsWin | src/code_assistant.py:34-92 | A task mentioning quicksort gets a quicksort program, and one mentioning rust gets a Rust program, whatever the prompt's language. |
| MockGenerator.ShoutedRustGetsRustCode | src/code_assistant.py:441-447 | Without cargo, "RUST" is planned as Python, yet the offline generator answers its prompt with a Rust program. |
| RustProject.ManifestEntry | src/code_assistant.py:289-293 | A line gives an entry iff it is a stripped `//` comment carrying `=` or "version" in any casing, and its comment body holds `=` and does not start with `[`. The entry is that comment body. |
| RustProject.CleanLines | src/code_assistant.py:305 | The kept lines are a subsequence of the original lines. None of them is a `//` comment carrying `=` or `[`. |
| RustProject.CleanLinesCount | src/code_assistant.py:305 | Each line that is not such a comment is kept as often as it occurs; such comments are dropped. |
| RustProject.CreateProject | src/code_assistant.py:279-311 | The manifest starts with the fixed `[package]`/`[dependencies]` header. |
| RustProject.EntryLineIsRemoved | src/code_assistant.py:290-305 | A line that feeds the manifest is always removed from the source. |
| RustProject.EntriesFromRemovedLines | src/code_assistant.py:289-305 | Every manifest entry is the comment body of a removed line. |
| RustProject.EntriesBound | src/code_assistant.py:289-305 | There are no more manifest entries than removed lines. |
| RustProject.TerminatedAsJoin | src/code_assistant.py:291-293 | Writing each entry followed by a newline equals joining the entries and a final empty line with newlines. |
| RustProject.EntriesHaveNoNewline | src/code_assistant.py:279-293 | Entries taken from the lines of a split contain no newline. |
| RustProject.ManifestLines | src/code_assistant.py:279-293 | After the header, the manifest's lines are the entries in order, each newline-terminated. |
| RustProject.SourceLines | src/code_assistant.py:305-311 | The source splits back into the clean lines, or is empty when every line was removed. |
| Runners.Abort | src/code_assistant.py:340-360 | A step ends the run iff it did not exit with 0. Its diagnostic is the failure prefix plus stderr, the timeout text, or "Error: " plus the exception text. |
| Runners.RunRust | src/code_assistant.py:321-360 | A Rust run passes iff cargo is present and build and test both exit 0. Without cargo it gives the install message and starts nothing. A failed build gives "Build failed:" plus stderr, and `cargo test` never runs. A failed test gives "Tests failed:" plus stderr. A timeout gives the timeout text, and a raised exception "Error: " plus its text. |
| Runners.RunPython | src/code_assistant.py:372-430 | A Python run passes iff the syntax check and the run exit 0, and, when the code mentions pytest or unittest, pytest passes or pytest fails and unittest passes. It also states the syntax and runtime diagnostics, when pytest and unittest are started, and the timeout text of every started step. A raised exception of any started step gives "Error: " plus its text. |
| Runners.RustPassedIffSuccessText | src/code_assistant.py:324-360 | A Rust run passed iff its output is "All tests passed!". |
| Runners.PythonPassedIffSuccessText | src/code_assistant.py:375-430 | A Python run passed iff its output is "Code executed successfully!". |
| Runners.DiagnosticIsNotSuccess | src/code_assistant.py:325-430 | No diagnostic equals either success text. |
| Runners.SuccessIsNoDiagnostic | src/code_assistant.py:325-430 | Neither success text has the form of a diagnostic. |
| Retry.Loop | src/code_assistant.py:457-492 | The loop from attempt k makes between 1 and 4-k attempts. |
| Retry.LoopAttempts | src/code_assistant.py:460-478 | Attempt k+i is numbered k+i, saved under the name for k+i, and generated and judged as attempt k+i. |
| Retry.LoopFeedback | src/code_assistant.py:458-491 | The first prompt carries the given diagnostic. Each later prompt carries the previous attempt's output. |
| Retry.LoopStops | src/code_assistant.py:460-492 | Every attempt but the last failed. The last one passed or was the third. |
| Retry.Attempts | src/code_assistant.py:457-492 | A whole run satisfies the trace predicate: numbering, names, prompts, verdicts and the stopping rule. |
| Retry.TraceUnique | src/code_assistant.py:457-492 | The oracles allow only one run. |
| Retry.OutcomeOf | src/code_assistant.py:480-500 | The run succeeds iff the last attempt passed. Attempts is the trace length on success and 3 on failure. The final code is the last code; the final error is the last diagnostic. |
| Retry.OutcomeOfRun | src/code_assistant.py:457-500 | Between 1 and 3 attempts are made. On success, every earlier attempt failed. On failure, all three failed and the final error is attempt 3's diagnostic. |
| Retry.FirstPassWins | src/code_assistant.py:480-488 | When attempt k is the first that passes, the result is success with k attempts. |
| Retry.RetryCarriesDiagnostic | src/code_assistant.py:258-265 | Each retry's prompt quotes the previous diagnostic, which can be read back from it. |
| Retry.SolveTask | src/code_assistant.py:437-500 | It uses Rust iff the task asks for it and cargo exists. Its task and language are those the fallback resolution gives. The attempts form the trace of the resolved task with the language's runner. The result is read off the last attempt. File names are `<slug>_attempt_<k>.<ext>`. |
| Retry.RustRunsHaveCargo | src/code_assistant.py:324-476 | A Rust solve means cargo was found before the loop. When the attempt's own cargo check finds cargo, the attempt passes iff its build and test steps exit 0; otherwise it fails with the install message. |
| Retry.QuicksortWithoutCargo | src/code_assistant.py:441-468 | Without cargo, "write quicksort in Rust" is solved in Python, and attempt 1 is saved as `write_quicksort_in_python_attempt_1.py`. |
| Retry.SolvedAtOnce | tests/test_code_assistant.py:183-194 | A passing first attempt gives success after 1 attempt with the generated code. |
| Retry.SolvedOnRetry | tests/test_code_assistant.py:196-212 | Failure then success gives 2 attempts, and the second prompt quotes "Test failed". |
| Retry.GivesUpAfterThree | tests/test_code_assistant.py:214-225 | Constant failure gives failure after 3 attempts with final error "Always fails". |
| Planning.LogReasoning | src/planning_agent.py:55-56 | The scratchpad grows by one entry at the end, `"[REASONING] " + thought`. |
| Planning.Parameters | src/planning_agent.py:132-152 | A parse failure gives Auckland, 2 days, 500 NZD and no preferences. Otherwise the parsed reply is used. |
| Planning.Split | src/planning_agent.py:160-164 | The four shares add up to the budget in the ratio 4:3:2:1, and are ordered for a non-negative budget. |
| Planning.Affordable | src/planning_agent.py:111 | The offers kept are a subsequence of the catalogue, each within the nightly budget. |
| Planning.AffordableCount | src/planning_agent.py:111 | An affordable offer is kept as often as it is listed; an unaffordable one is never kept. |
| Planning.CheapestIndex | src/planning_agent.py:177-191 | `min(key=price)` picks an entry no dearer than any other, and the first such entry. |
| Planning.Prices | src/planning_agent.py:177 | The price key of each entry, in order. |
| Planning.Cheapest | src/planning_agent.py:177 | `min(key=price)` returns a listed entry no dearer than any other, and the first of the least price. |
| Planning.InsertSorted | src/planning_agent.py:183 | Insertion into a price-sorted list keeps it sorted and adds exactly the new entry. |
| Planning.SortByPrice | src/planning_agent.py:183 | `sorted(key=price)` returns a price-sorted permutation. |
| Planning.OfPriceInsert | src/planning_agent.py:183 | Into any list, insertion puts the new entry in front of the entries of its price and keeps their order. |
| Planning.SumAppend | src/planning_agent.py:195-196 | The cost of the picks adds over concatenation. |
| Planning.SortStable | src/planning_agent.py:183 | Entries of equal price keep their order. |
| Planning.PickInvariant | src/planning_agent.py:180-188 | Each pick fits the budget left by the earlier picks. At most max(duration, 1) are taken, since the day-count test follows the append. |
| Planning.PickShape | src/planning_agent.py:180-188 | The loop's picks are the picks so far followed by a prefix of the sorted candidates. |
| Planning.PickComplete | src/planning_agent.py:183-188 | Unless the loop stopped on the day count, every candidate after the last pick costs more than the budget left. |
| Planning.NothingFits | src/planning_agent.py:183-185 | When every candidate costs more than the budget left, nothing more is picked. |
| Planning.SelectionIsGreedy | src/planning_agent.py:180-188 | The picks are a prefix of the price-sorted attractions, so a subsequence of them. Each fits the budget left by the earlier picks. At most max(duration, 1) are taken. Unless the day count stopped the loop, every later attraction costs more than the budget left. |
| Planning.SkippedUnaffordable | src/planning_agent.py:180-188 | Unless the day count stopped the loop, every attraction not picked costs more than the budget left after the picks. |
| Planning.GreedyWithinBudget | src/planning_agent.py:184-186 | The picks never cost more than the activities budget. |
| Planning.DaysShape | src/planning_agent.py:226-233 | There is one day plan per day, numbered from 1. Day d holds pick d when there is one. Day 1 carries the weather recommendation, every later day "Enjoy your day!". Every day has the daily food budget. |
| Planning.WholeSchedule | src/planning_agent.py:226-233 | With no more picks than days, or at most one pick, the schedule's activities are the picks in order. |
| Planning.ScheduleCoversPicks | src/planning_agent.py:226-233 | When there are no more picks than days, the schedule hands out every pick exactly once, in order. |
| Planning.CheapestStay | src/planning_agent.py:177 | The chosen stay is an offer no dearer than any other offer. |
| Planning.CheapestFlight | src/planning_agent.py:191 | The chosen flight is a flight no dearer than any other flight. |
| Planning.PlanTrip | src/planning_agent.py:114-235 | It fails iff the duration is 0, no offer fits the nightly budget, or there is no flight. The itinerary keeps the destination and budget, and its log starts with the start and parameters entries. |
| Planning.PlanTripCost | src/planning_agent.py:194-217 | The estimate is nights × stay price + picks + 2 × flight + food share. The remaining budget is the difference. |
| Planning.PlanTripChoices | src/planning_agent.py:173-191 | The stay is the cheapest catalogue offer within the nightly budget. The flight is the cheapest flight. |
| Planning.PlanTripActivities | src/planning_agent.py:180-188 | The itinerary's activities are the greedy picks: a subsequence of the attractions, each within the budget left, at most max(duration, 1). |
| Planning.PlanTripSchedule | src/planning_agent.py:226-233 | The schedule has one entry per day, numbered from 1, and for a positive duration hands out exactly the activities, in order. |
| VectorStore.Add | src/rag_system.py:41-44 | Each of the three lists is extended, in order, by its argument. Equal-length arguments keep the store well formed. |
| VectorStore.AddTwice | src/rag_system.py:41-44 | Two additions equal one addition of the joined lists. |
| VectorStore.Matches | src/rag_system.py:54 | A score never exceeds the number of query words. |
| VectorStore.MatchesBounds | src/rag_system.py:54 | The score is full iff every query word occurs in the document, and zero iff none does. |
| VectorStore.MatchesAppend | src/rag_system.py:54 | Repeated query words each count. |
| VectorStore.Scores | src/rag_system.py:49-55 | There is one `(score, index)` pair per document, in storage order. |
| VectorStore.Insert | src/rag_system.py:58 | Insertion keeps the list descending in tuple order and adds exactly the new pair. |
| VectorStore.Rank | src/rag_system.py:58 | `sort(reverse=True)` returns a descending permutation. |
| VectorStore.InsertDistinct | src/rag_system.py:58 | Inserting a new pair into a list without repeats keeps it without repeats. |
| VectorStore.RankDistinct | src/rag_system.py:58 | Sorting keeps a list without repeats. |
| VectorStore.DistinctRanking | src/rag_system.py:51-58 | The ranking has no repeated pair, since indices are distinct. |
| VectorStore.EarlierIsAbove | src/rag_system.py:58 | In the ranking, an earlier pair is strictly above a later one. |
| VectorStore.Take | src/rag_system.py:59 | Python's `s[:n]` for any integer n, a negative n counting from the end: a prefix of the stated length. |
| VectorStore.Indices | src/rag_system.py:62-63 | The document index of each kept pair, in order. |
| VectorStore.TopIndices | src/rag_system.py:59-63 | One index per kept pair. |
| VectorStore.TopIndicesShape | src/rag_system.py:59 | For n ≥ 0, min(n, count) documents are returned, each stored and all different. |
| VectorStore.TopIsBest | src/rag_system.py:58-59 | Every kept document is above every left-out document in (score, index) order. |
| VectorStore.RankedIsStored | src/rag_system.py:51-58 | Every ranked pair is the pair of a stored document. |
| VectorStore.StoredIsRanked | src/rag_system.py:51-58 | Every stored document appears in the ranking. |
| VectorStore.TiesFavourLater | src/rag_system.py:55-58 | Of two documents with equal scores, the later-stored one ranks first. |
| VectorStore.Distance | src/rag_system.py:64 | `1 - score / max(1, words)` is in [0, 1]. It is 1 iff the score is 0, and 0 iff every one of at least one word matched. |
| VectorStore.Distances | src/rag_system.py:64 | One distance per kept pair. |
| VectorStore.RankedScoreBound | src/rag_system.py:54-64 | A kept score never exceeds the number of query words, so the distance is defined. |
| VectorStore.Query | src/rag_system.py:46-65 | Each field holds one list. The k-th document and metadata are those of the k-th top index, and there is one distance per result. |
| VectorStore.QueryDistancesAsWritten | src/rag_system.py:64 | As written, the distances are one single-element list per result. |
| Ingestion.MetadataOf | src/rag_system.py:147 | The metadata has keys doc_id, page and chunk_id; chunk_id is the chunk's id. |
| Ingestion.Groups | src/rag_system.py:141-143 | Each word group has 1 to 500 words. |
| Ingestion.GroupsFlatten | src/rag_system.py:141-143 | The groups concatenate to the page's words. |
| Ingestion.GroupsCount | src/rag_system.py:142 | There are ⌈words / 500⌉ groups. |
| Ingestion.GroupAt | src/rag_system.py:142-143 | Group k is `words[500k : 500k+500]`. |
| Ingestion.ChunkTexts | src/rag_system.py:143 | Group k's text is its words joined by single blanks. |
| Ingestion.TextChunks | src/rag_system.py:142-148 | The chunks of a page carry its doc id and page number, and group numbers in range. |
| Ingestion.TextChunksSound | src/rag_system.py:143-148 | Each chunk's text is the text of the group it is numbered after, and passes the length test. |
| Ingestion.TextChunksOrdered | src/rag_system.py:142-148 | Chunks come in increasing group order. |
| Ingestion.TextChunksComplete | src/rag_system.py:144-148 | Every group text passing the length test yields its chunk. |
| Ingestion.GroupTextChunks | src/rag_system.py:142-148 | For any word groups, the chunks are exactly the groups whose text passes the test, each numbered after its group. |
| Ingestion.PageChunksMeaning | src/rag_system.py:141-148 | A page's chunks are exactly its word groups whose stripped joined text is longer than 50 characters, each numbered `i // 500`. |
| Ingestion.PagesChunks | src/rag_system.py:138-148 | Every chunk carries the document id and a page number in range. |
| Ingestion.PagesChunksOrdered | src/rag_system.py:138-148 | Chunks come by page, and by group within a page. |
| Ingestion.OrderedAppend | src/rag_system.py:138-148 | One page's chunks in group order, followed by ordered chunks of later pages, are in order. |
| Ingestion.ChunkIdInjective | src/rag_system.py:147 | An id `{doc}_p{page}_c{group}` determines the page and group. |
| Ingestion.IdsUnique | src/rag_system.py:138-153 | The ids of one document's chunks are pairwise different. |
| Ingestion.ChunkWordsRecovered | src/rag_system.py:141-143 | A chunk's text splits back into exactly its group's words. |
| Ingestion.Texts | src/rag_system.py:151 | The chunk texts, in order. |
| Ingestion.Metadatas | src/rag_system.py:152 | The chunk metadata, in order. |
| Ingestion.Ids | src/rag_system.py:153 | The chunk ids, in order. |
| Ingestion.BatchesAreOneAdd | src/rag_system.py:156-166 | Adding in batches of 100 equals one addition of all chunks. |
| Ingestion.ProcessPagesAdds | src/rag_system.py:134-166 | The store grows by the document's chunks, in order, and stays well formed. |
| Retrieval.UnknownMetadata | src/rag_system.py:185 | The placeholder metadata has the single key chunk_id. |
| Retrieval.Reshape | src/rag_system.py:182-192 | No documents give no records. Otherwise there is one record per document. A record takes its metadata, or `unknown_i`, and its distance, or 0, by position. |
| Retrieval.RetrieveFromStore | src/rag_system.py:170-195 | Against the fallback store, record k is the k-th top document, with its own stored metadata and its distance in [0, 1]. |
| Retrieval.QueryAsWritten | src/rag_system.py:61-65 | The answer as written can be reshaped without an index error. |
| Retrieval.AsWrittenDropsDistances | src/rag_system.py:64 | As written, retrieval gives the same records, but every record after the first has score 0 (line 186 reads the first list only). |
| Retrieval.AsWrittenMisreportsSecond | src/rag_system.py:64 | When the second-ranked document matches no query word, as written its score is 0, while its distance is 1 (line 186 reads the first list only). |
| Retrieval.CountAnswered | src/rag_system.py:255-268 | The count is at most the number of questions. |
| Retrieval.CountAnsweredExtremes | src/rag_system.py:255-268 | The count equals the number of questions iff all are answered, and is 0 iff none is. |
| Retrieval.FirstHit | src/rag_system.py:264-268 | Scanning the documents in order and stopping at the first hit finds a hit iff some document is one. |
| Retrieval.FindSupport | src/rag_system.py:262-268 | The inner loop is true iff some retrieved document shares at least two lower-cased terms with the answer. |
| Retrieval.Evaluate | src/rag_system.py:252-271 | `total` is the number of questions and `correct` the number answered. A question is skipped when its retrieval is empty or raised. |
| Retrieval.Accuracy | src/rag_system.py:273 | The accuracy is in [0, 1], and is 1 iff 0 < correct = total. |
| Chat.Save | src/chat.py:100-105 | Saving appends exactly one message and keeps the log before it. |
| Chat.Recent | src/chat.py:93-98 | The newest min(n, \|log\|) messages, oldest first, a suffix of the log. A negative n, as SQLite reads LIMIT, means the whole log. |
| Chat.RecentOfRecent | src/chat.py:93-98 | A window of a window is the smaller window. |
| Chat.RecentAfterSave | src/chat.py:93-105 | The message just saved is the newest one read back. |
| Chat.Request | src/chat.py:119-121 | The request is the recent window after saving, plus the user message once more. Its last two entries are both the user message. |
| Chat.AccumulateAppend | src/chat.py:132-137 | Accumulating two streams in a row concatenates their texts. |
| Chat.AccumulateIsPieces | src/chat.py:133-137 | The reply is the concatenation of the chunk contents; missing and empty contents add nothing. |
| Chat.ChatStream | src/chat.py:118-157 | The user message is always saved first. On success the accumulated reply is saved as the assistant's message. On an error only the user message stays and "Error: ..." is printed. |
| Chat.MockReply | src/chat.py:22-32 | It fails with the empty-list index error iff there are no messages. Otherwise the last message picks, in priority, the hello, weather, time or echo reply. |
| Chat.MockStream | src/chat.py:41-48 | There is one chunk per word of the reply, then a chunk without content. |
| Chat.WordChunks | src/chat.py:41-48 | One content chunk per word. |
| Chat.WordChunksJoin | src/chat.py:41-48 | Accumulating the word chunks and the final empty chunk joins the words with single blanks (the accumulation is at lines 133-137). |
| Chat.SpacedChunks | src/chat.py:43-46 | One chunk per word after the first, each prefixed by a blank. |
| Chat.JoinAsSpaced | src/chat.py:41-48 | The first word followed by the blank-prefixed others is the single-blank join. |
| Chat.MockStreamAccumulates | src/chat.py:41-48 | The streamed reply is the reply's words joined by single blanks, and splits back into those words (the accumulation is at lines 133-137). |
| Chat.MockStreamKeepsSingleSpaced | src/chat.py:41-48 | A single-spaced reply streams back unchanged. |
| Chat.MockClient | src/chat.py:22-48 | The offline client streams a reply iff the request is non-empty. |
| Chat.MockReplyOnLast | src/chat.py:23 | The mock reply depends only on the last message. |
| Chat.MockTurn | src/chat.py:118-154 | With the offline client, a turn appends the user message and the reply chosen on it, single-spaced. |
| Chat.HelloInAnyCase | src/chat.py:23-26 | "hello" is recognised in any ASCII casing. |
| Chat.EchoQuotesMessage | src/chat.py:31-32 | A message without keywords is quoted verbatim in the reply. |
| SearchTree.Insert | create_a_binary_search_tree_in_attempt_1.py:14-21 | Insertion adds exactly the value to the tree's multiset, and the result is a node. |
| SearchTree.Search | create_a_binary_search_tree_in_attempt_1.py:26-31 | A value found is stored, so the empty tree finds nothing. |
| SearchTree.BoundsMean | create_a_binary_search_tree_in_attempt_1.py:17-20 | The recursive bounds of the search-tree invariant say that every stored value is below, or at least, the bound. |
| SearchTree.InsertBelow | create_a_binary_search_tree_in_attempt_1.py:14-21 | Inserting a value below a bound keeps every value below it. |
| SearchTree.InsertAtLeast | create_a_binary_search_tree_in_attempt_1.py:14-21 | Inserting a value at least a bound keeps every value at least it. |
| SearchTree.InsertKeepsOrder | create_a_binary_search_tree_in_attempt_1.py:14-21 | Insertion keeps the invariant: smaller values go left, and values at least the node's go right. |
| SearchTree.SearchComplete | create_a_binary_search_tree_in_attempt_1.py:26-31 | In a search tree, every stored value is found. |
| SearchTree.SearchIffMember | create_a_binary_search_tree_in_attempt_1.py:26-31 | In a search tree, search is true iff the value is stored. |
| SearchTree.FoundAfterInsert | create_a_binary_search_tree_in_attempt_1.py:11-31 | After inserting v, search(v) is true, in any tree. |
| SearchTree.InsertKeepsFound | create_a_binary_search_tree_in_attempt_1.py:14-31 | A value found before an insertion is still found after it. |
| SearchTree.FromValues | create_a_binary_search_tree_in_attempt_1.py:11-36 | A tree built by successive inserts is a search tree holding exactly the inserted values. |
| SearchTree.FoundIffInserted | create_a_binary_search_tree_in_attempt_1.py:11-36 | A tree built by successive inserts finds a value iff it was inserted. |
| SearchTree.InsertedFound | create_a_binary_search_tree_in_attempt_1.py:42-50 | After inserting 5, 3, 7: 5 and 3 are found, 10 is not. |
| SearchTree.DemoSearches | create_a_binary_search_tree_in_attempt_1.py:33-38 | After inserting 5, 3, 7, 2, 4, 6, 8: 4 is found, 9 is not. |
| Fibonacci.FibIterative | implement_fibonacci_with_memoi_attempt_1.py:9-15 | The iterative function returns n for n ≤ 1, negative n included, and Fib(n) otherwise. Its loop keeps (a, b) = (Fib(i-1), Fib(i)). |
| Fibonacci.FibMemo | implement_fibonacci_with_memoi_attempt_1.py:1-7 | The cache only grows and old entries keep their values. Every n ≥ 2 ends up cached, and new keys lie in [2, n]. From a valid cache, the result is the iterative function's and the cache stays valid. |
| Fibonacci.Session | implement_fibonacci_with_memoi_attempt_1.py:1-7 | A run of calls sharing one cache gives one result per call. |
| Fibonacci.SessionCorrect | implement_fibonacci_with_memoi_attempt_1.py:1-7 | Every call of a session starting from a valid cache answers correctly. |
| Fibonacci.MemoAgreesWithIterative | implement_fibonacci_with_memoi_attempt_1.py:1-15 | From the empty default cache, the memoised function agrees with the iterative one. |
| Fibonacci.FibTen | implement_fibonacci_with_memoi_attempt_1.py:28-33 | Fib(10) = 55. |
| Fibonacci.TestedValues | implement_fibonacci_with_memoi_attempt_1.py:24-33 | The memoised calls 0, 1, 10 on the shared cache give 0, 1, 55, and so does the iterative function. |
| Quicksort.Below | generated_code/write_quicksort_in_python_attempt_1.py:5 | Every value kept is below the pivot. |
| Quicksort.Equal | generated_code/write_quicksort_in_python_attempt_1.py:6 | Every value kept equals the pivot, and the part is non-empty when the pivot is in the list. |
| Quicksort.Above | generated_code/write_quicksort_in_python_attempt_1.py:7 | Every value kept is above the pivot. |
| Quicksort.Partition | generated_code/write_quicksort_in_python_attempt_1.py:4-7 | The three parts' multisets add up to the input's, and their lengths to its length. |
| Quicksort.BelowCount | generated_code/write_quicksort_in_python_attempt_1.py:5 | The left part keeps every copy of each value below the pivot and nothing else. |
| Quicksort.EqualCount | generated_code/write_quicksort_in_python_attempt_1.py:6 | The middle part keeps every copy of the pivot and nothing else. |
| Quicksort.AboveCount | generated_code/write_quicksort_in_python_attempt_1.py:7 | The right part keeps every copy of each value above the pivot and nothing else. |
| Quicksort.ShorterParts | generated_code/write_quicksort_in_python_attempt_1.py:4-8 | The pivot is in the list, so both outer parts are shorter and the recursion ends. |
| Quicksort.SortedConcat | generated_code/write_quicksort_in_python_attempt_1.py:8 | Sorted left and right parts around the middle give a sorted list. |
| Quicksort.Combine | generated_code/write_quicksort_in_python_attempt_1.py:8 | Sorted permutations of the outer parts around the middle give a sorted permutation of the input. |
| Quicksort.Sort | generated_code/write_quicksort_in_python_attempt_1.py:1-8 | The output is sorted and a permutation of the input. Inputs of length ≤ 1 are returned unchanged. |
| Quicksort.SortedUnique | generated_code/write_quicksort_in_python_attempt_1.py:1-8 | A multiset has only one sorted arrangement. |
| Quicksort.SortIsTheSortedPermutation | generated_code/write_quicksort_in_python_attempt_1.py:1-8 | The output is the sorted arrangement of the input. |
| Quicksort.TestedInputs | generated_code/write_quicksort_in_python_attempt_1.py:19-21 | [3,1,4,1,5] sorts to [1,1,3,4,5]; [] and [1] are unchanged. |
| Text.Lower | src/rag_system.py:48 | `lower()` keeps the length and lowers each ASCII letter. |
| Text.ContainsLower | src/chat.py:23-25 | Lower-casing keeps substring occurrences. |
| Text.ReplaceLeavesNo | src/code_assistant.py:447 | `replace` leaves no occurrence of the pattern, given the stated character conditions. |
| Text.SplitWords | src/rag_system.py:141 | `split()` yields non-empty words without blanks. |
| Text.SplitJoinWords | src/rag_system.py:141-143 | Joining words with single blanks and splitting again gives the words back. |
| Text.JoinSplitOn | src/code_assistant.py:279-305 | `'\n'.join(code.split('\n'))` is the code itself. |
| Text.SplitOnJoin | src/code_assistant.py:279-305 | Splitting a join of separator-free lines gives the lines back. |
| Text.NatToString | src/rag_system.py:147 | `str(n)` is a non-empty string of digits. |
| Text.DigitsValueOfNatToString | src/rag_system.py:147 | Reading `str(n)` back as decimal gives n. |
| Text.NatToStringInjective | src/rag_system.py:147 | Different numbers print differently. |

## Findings

| source | as written | input that shows it | evidently intended | confidence | as-written member | corrected member |
|---|---|---|---|---|---|---|
| src/rag_system.py:64 (read at 186) | The fallback store returns `distances` as `[[d0], [d1], …]`, one single-element list per result. `retrieve` reads only `distances[0]`, so every result after the first gets score 0, the best possible distance. | A store with two documents; a query whose words occur only in the first; `n_results` ≥ 2. The second record is reported with score 0 instead of its distance 1.0. | One list of all distances, `[[d0, d1, …]]`, the shape ChromaDB returns and `retrieve` indexes. | not executed | Retrieval.AsWrittenMisreportsSecond | Retrieval.RetrieveFromStore |

The as-written distances are `VectorStore.QueryDistancesAsWritten` and
`Retrieval.QueryAsWritten`; `Retrieval.AsWrittenDropsDistances` states the
general effect. `VectorStore.Query`, which the rest of the model uses,
returns the corrected shape.

## Left out

- The OpenAI client, the network, ChromaDB, PDF download and text extraction: the model starts from the language model's reply, a page's extracted text and a store value. The ChromaDB path of `retrieve` is modelled only through the fallback store's answer shape.
- Child processes, temporary directories and files, writing the attempt files, and `get_python_command`. Each step becomes an abstract outcome: an exit status with stderr, a timeout, or a raised exception.
- The texts of the canned programs and replies of the offline code generator. `MockGenerator.Choose` names the program chosen.
- SQLite and `init_db`: the chat log is a sequence, and timestamps are taken to be strictly increasing.
- Printing, the console, timing and latency, and the demo statistics lines.
- `calculate_cost` and `estimate_tokens` (src/chat.py:107-116): floating-point estimates that nothing in the chat turn depends on.
- Floating point in general: budgets, distances and accuracy are exact reals, and Python's `round` and `:.0f` formatting are not modelled.
- Planning.PickInvariant: states fit and cap only; that a candidate is skipped only when it costs more than the budget left is stated by `Planning.PickComplete` for sorted candidates, and for the whole selection by `Planning.SelectionIsGreedy` and `Planning.SkippedUnaffordable`.
- Planning.PlanTrip: the reasoning entries that render numbers or the parameter dictionary are named by a `Thought` value instead of their text. The `KeyError` a parsed reply without the expected keys would raise is not modelled, since the reply is already a typed record.
- The concrete trip with the built-in catalogue (Auckland, 2 days, 500 NZD, total 405). The general cost, choice and schedule lemmas cover its formula; the instance was too costly for the solver.
- A concrete `create_rust_project` input from the test suite; the general manifest and source lemmas cover it.
- `create_test_questions` (its fixed question list and JSON file) and `answer_question` (a prompt for the language model). Evaluation is stated for any question list and any retrieval results.
- The `results` falsy check at src/rag_system.py:183: the store always returns a non-empty dictionary, so only the document-list tests are modelled.
- `download_and_process_pdfs`, `main` functions, `src/main.py` and `src/dashboard.py`.
- Text.Lower: models `str.lower()` on ASCII letters only; other characters are kept, so non-ASCII case folding is not covered.
- Quicksort.Sort: the order within the left and right parts is not stated, since the output is determined by sortedness and the permutation property anyway.
