# Verified engines of the Oasis agent framework

This project models the self-contained engines of Oasis, a Go framework for LLM agents, and proves what
each is for. Providers, tools, hooks, clocks, Unicode tables, JSON validity oracles and thread schedules are
arbitrary: they are parameters, scripts or interleavings, and every result below holds for all of them.

| modules | engine |
|---|---|
| `Json`, `PartialJson`, `PartialJsonRoundTrip`, `PartialJsonCut`, `PartialJsonStrings`, `PartialParser` | the truncation-tolerant JSON parser |
| `ElementTracker`, `ElementScan` | the incremental array-element scanner |
| `Utf8`, `CodePoints`, `SplitRunes`, `Spaces`, `Splitting`, `Sentences`, `WordSplit`, `SentenceSplit`, `Chunker` | rune splitting and the recursive text chunker |
| `TaskLifecycle`, `TaskOutcomes`, `TaskStore` | A2A tasks and their bounded store |
| `RunLoop` | the agent run loop and its event stream |
| `DispatchPool`, `SuspendBudget`, `StreamFanout`, `RpcFramer` | the concurrent pieces, one step per critical section or channel operation |
| `ToolResultStore`, `TokenBudget`, `GraphEdges` | bounded caches, trimming and pruning |

Code that works in place is a class or a method with loops, proved against functions on values. Code that
runs concurrently is a transition system, and its theorems are about every state of every behaviour. JSON
follows RFC 8259 (sections 2 and 4 to 7; the parser's own string bodies are opaque escape pairs), UTF-8
follows sections 3 and 4 of RFC 3629, task states follow section 4.1.3 of A2A v1.0, and call ids follow section 5 of JSON-RPC 2.0.

## Where the code does less than it promises

Each of these comes with a theorem that says exactly when the promise holds, and mostly with a concrete
case in which it fails.

- The snapshot of a cut document should be a truncation of it. It is, and holds all that can be read, unless a
  pair without a value yet is pending inside an open array; then its key turns into the last element of the
  innermost one: `PartialJsonCut.SnapshotOfCut`, `PartialJsonCut.KeyBecomesElement`.
- A snapshot should be valid JSON. A cut among the digits of a `\u` escape leaves the escape incomplete, in a
  string value or in a key that turns into an element; every other cut of a JSON document is safe:
  `PartialJsonStrings.SnapshotIsStrict`, `PartialJsonStrings.ShortEscapeKept`, `PartialJsonStrings.ShortKeyTaken`.
- The element scanner should report every element of a streamed array. It never reports a string, and a
  number or literal only when another element follows it: `ElementScan.ReportsElementsIff`, `ElementScan.StringNotReported`,
  `ElementScan.LastScalarNotReported`.
- How a streamed text is cut can matter to the element scanner, exactly when something completes after the
  top-level value has closed: `ElementScan.CutInvariance`, `ElementScan.SecondArrayIsNoise`.
- The sentence scanner's byte offsets are right exactly for valid UTF-8 (`Sentences.OffsetsExact`). On other
  text the chunker panics exactly when a dot, or the last boundary, comes to lie beyond the text:
  `SentenceSplit.SplitOnSentences`, `Chunker.ChunkText`, `Chunker.StrayByteStopsChunker`.
- Cancelling a running task should stop it. A resumed run publishes no cancel handle, so its cancel is accepted
  and changes nothing: `TaskLifecycle.CancelEffect`, `TaskLifecycle.ResumedCancelIgnored`.
- A dropped stream subscriber is promised a warning. It gets one exactly when its consumer received
  something after the send that failed, and never while history is replayed: `StreamFanout.WarningDelivered`,
  `StreamFanout.WarningLost`, `StreamFanout.ReplayRing.Replay`.
- A JSON-RPC answer is matched by the truncated id, so id 1.5 answers call 1: `RpcFramer.AnswersCorrelate`,
  `RpcFramer.FractionalIdMisdelivers`, `RpcFramer.OnePointFive`.
- `PreserveLast` says the last messages are never trimmed. A tool result among them is dropped when its call
  was trimmed: `TokenBudget.TailKeptIff`, `TokenBudget.PreservedResultDropped`.
- The result of a run carries the finish reason announced on its stream, except after some exits of the
  OnError hook: `RunLoop.Execute`, `RunLoop.HookFailureUnreported`.
- A random id that collides with a stored tool result breaks the store's books, whatever is evicted then:
  `ToolResultStore.InMemoryStore.Put`, `ToolResultStore.SameIdTwice`.
- `dispatchParallel` taken by itself, with no worker and two or more calls, returns untouched slots
  (`DispatchPool.FilledNeedsWorker`). Its callers replace a worker count of zero by ten, at
  agent/agent.go:464-466 and agent/llm.go:262-264.

## Model

| member | source | states |
|---|---|---|
| `PartialJson.SnapshotIsJson` | core/partial_json.go:25-41 | whatever the bytes, a returned snapshot is the text of some well-formed value: JSON up to what stands inside strings |
| `PartialJson.ParseValueWellFormed` | core/partial_json.go:64-93 | every value the parser accepts at any position is a well-formed tree, also where it closed truncated structure or dropped a tail |
| `PartialJson.ParseElemsOk` | core/partial_json.go:183-222 | the elements kept from a possibly truncated array are all well-formed |
| `PartialJson.ParseMembersOk` | core/partial_json.go:110-181 | the pairs kept from a possibly truncated object are all well-formed |
| `PartialJson.ParseBodyOk` | core/partial_json.go:224-254 | a string body, cut anywhere, never ends inside an escape and holds no bare quote |
| `PartialJsonRoundTrip.ParseLayout` | core/partial_json.go:64-93 | any JSON value, laid out with any insignificant white space inside any document, is parsed back as that value and the position ends right behind it |
| `PartialJsonRoundTrip.SnapshotOfLayout` | core/partial_json.go:25-41 | the snapshot of a complete document with any white space is its compact form |
| `PartialJsonRoundTrip.SnapshotOfPrint` | core/partial_json.go:25-41 | the snapshot of a compact document is the document |
| `PartialJsonRoundTrip.SnapshotIdempotent` | core/partial_json.go:25-41 | taking the snapshot of a snapshot changes nothing, for every input |
| `PartialJsonCut.ParseIsShown` | core/partial_json.go:25-41 | every document, with every white space inside and around it, cut anywhere, is parsed as one tree given by document and cut: all that can be read, and a pending key once more as the last element of the innermost open array |
| `PartialJsonCut.SnapshotOfCut` | core/partial_json.go:25-41 | the snapshot is the text of that tree; there is one exactly when something can be read, and it is a truncation of the document, and all that can be read, if and only if no pair is pending inside an open array |
| `PartialJsonCut.KeptTruncates` | core/partial_json.go:8-12 | what can be read of a cut document is a truncation of it: equal up to the last kept child, there a prefix |
| `PartialJsonCut.ParseCut` | core/partial_json.go:64-93 | a value cut anywhere inside a longer text is parsed as that tree, and behind it containers find nothing more, or exactly the pending key if no array has taken it |
| `PartialJsonCut.ParseElemsCut` | core/partial_json.go:183-222 | the same for the elements of an array, which takes a key left behind by its last element |
| `PartialJsonCut.ParseMembersCut` | core/partial_json.go:110-181 | the same for the pairs of an object, which goes back to where a pending key begins |
| `PartialJsonCut.KeyBecomesElement` | core/partial_json.go:141-177 | the concrete case: an array of an object cut behind its first key, `name`, reads that key as a second element |
| `PartialJsonStrings.CutStringBody` | core/partial_json.go:224-254 | a string body of RFC 8259 cut anywhere and closed is one again if and only if the cut is not among the digits of an escape |
| `PartialJsonStrings.SnapshotIsStrict` | core/partial_json.go:8-12 | the snapshot of a JSON document with any white space, cut anywhere, is JSON in full, string bodies included, if and only if the cut splits no escape of a string value and, inside an open array, none of a key |
| `PartialJsonStrings.ShortEscapeKept` | core/partial_json.go:224-254 | the concrete case: a `\u` escape with one digit is kept as it is |
| `PartialJsonStrings.ShortKeyTaken` | core/partial_json.go:141-177 | the concrete case: an array of an object cut inside an escape of its first key |
| `PartialParser.IsValidJSONNumber` | core/partial_json.go:296-339 | the one-pass check accepts exactly the number grammar |
| `PartialParser.SkipDigits` | core/partial_json.go:296-339 | a digit loop ends at the first byte that is no digit |
| `PartialParser.PartialParser.SkipWhitespace` | core/partial_json.go:95-99 | the position moves to the first byte that is not white space |
| `PartialParser.PartialParser.ParseValueInto` | core/partial_json.go:64-93 | success appends the compact text of the parsed value and advances; failure leaves buffer and position as they were |
| `PartialParser.PartialParser.ParseStringInto` | core/partial_json.go:224-254 | a string, cut anywhere, is appended closed; without an opening quote nothing changes |
| `PartialParser.PartialParser.ParseLiteralInto` | core/partial_json.go:256-274 | a whole literal is appended, otherwise nothing changes |
| `PartialParser.PartialParser.ParseNumberInto` | core/partial_json.go:276-294 | the run of number bytes is consumed and appended exactly when it is a number |
| `PartialParser.PartialParser.ParseObjectInto` | core/partial_json.go:110-181 | the buffer gains the text of the object of all whole pairs, whatever was rolled back on the way |
| `PartialParser.PartialParser.ObjectTurn` | core/partial_json.go:114-180 | one turn closes the object or appends one whole pair; an incomplete pair leaves no trace before the brace |
| `PartialParser.PartialParser.KeyInto` | core/partial_json.go:141-170 | a key and its colon are appended, or the buffer is only extended behind the savepoint |
| `PartialParser.PartialParser.ParseArrayInto` | core/partial_json.go:183-222 | the buffer gains the text of the array of all whole elements |
| `PartialParser.PartialParser.ArrayTurn` | core/partial_json.go:190-221 | one turn closes the array or appends one whole element |
| `PartialParser.Run` | core/partial_json.go:25-41 | the imperative parser returns the specified snapshot, or none exactly when there is none |
| `ElementTracker.ElementTracker.Feed` | agent/stream.go:443-514 | one call equals the byte-by-byte run from where the last call stopped to the end or to the close of the top-level array |
| `ElementTracker.ElementTracker.Byte` | agent/stream.go:446-510 | one loop turn is one scanner step and tells whether it closed the top-level array |
| `ElementTracker.CommaReports` | agent/stream.go:487-501 | at a comma between top-level elements a scalar is reported without the white space behind it, exactly if there is one and it is valid |
| `ElementTracker.RunPrefix` | agent/stream.go:443-514 | what is reported for a prefix does not depend on bytes that arrive later |
| `ElementScan.FeedAll` | agent/stream.go:368-380 | the tracker, fed the growing buffer after each delta, reports what the specified stream of calls does |
| `ElementScan.FeedsAreRun` | agent/stream.go:443-514 | however a text is cut into deltas, all calls together make one run over it that goes at least as far as a single pass |
| `ElementScan.CutInvariance` | agent/stream.go:443-514 | every way of cutting a text into non-empty deltas gives the result of a single pass if and only if nothing completes after the top-level value |
| `ElementScan.NothingOpensIsQuiet` | agent/stream.go:443-514 | that is so for every text with no opening byte behind its top-level value |
| `ElementScan.SecondArrayIsNoise` | agent/stream.go:443-514 | the concrete case: an empty array followed by an array of an empty object |
| `ElementScan.PassElement` | agent/stream.go:464-482 | an object or array inside the array is reported once, as exactly its own text |
| `ElementScan.PassDoc` | agent/stream.go:446-510 | inside an element any value, strings with brackets and escapes included, passes without a report and restores the scanner |
| `ElementScan.StreamedElements` | agent/stream.go:443-514 | for every array of any values, every white space and every cutting, the reports are the texts of its objects and arrays, and of those numbers and literals that another element follows, in order, each once, and equal those of a single pass |
| `ElementScan.ReportsElementsIff` | agent/stream.go:443-514 | all elements are reported if and only if none is a string and the last is no number or literal |
| `ElementScan.StringNotReported` | agent/stream.go:464-466 | the concrete case: an array of one string reports nothing |
| `ElementScan.LastScalarNotReported` | agent/stream.go:473-486 | the concrete case: an array of one number reports nothing |
| `SplitRunes.Cut` | agent/iteration.go:992-1006 | the cut is the last rune start at most three bytes before the limit, the limit itself if there is none, behind the first rune if it would be nothing; so it moves forward, respects the limit in runes and falls on a rune start of valid text |
| `SplitRunes.SplitContentRunes` | agent/iteration.go:986-1011 | for every byte string and positive limit the chunks join to the input, each before the last is such a cut of what was left, and each holds at most the limit in runes; valid text is never cut inside a character; chunks before the last are within three bytes of the limit |
| `Sentences.MarksIncrease` | ingest/chunker.go:255-306 | sentence cuts strictly increase and lie in the text, although a cut may skip a blank |
| `Sentences.OffsetsExact` | ingest/chunker.go:260-267 | the byte offsets add up to the length of the text if and only if it is valid UTF-8, and never to less |
| `Sentences.OffsetBoundary` | ingest/chunker.go:260-267 | in valid text every computed offset is a rune start or the end |
| `Sentences.ByteOffsets` | ingest/chunker.go:260-267 | the offset table holds the byte length of every rune prefix |
| `Sentences.FindSentenceBoundaries` | ingest/chunker.go:255-306 | for every byte string it panics exactly when the offset of a dot lies beyond the text, else gives one rising position per sentence mark; in valid text it never panics, the positions are rune starts, and they are exactly the ends of sentences |
| `Sentences.BoundariesAreEnds` | ingest/chunker.go:270-304 | sound and complete, by the code points of a valid text: behind the three CJK marks; behind an exclamation or question mark, or a dot neither inside a number nor behind an abbreviation, before a line break, or after a blank that ends the text or that an upper-case letter follows; and nowhere else |
| `Sentences.StrayByteMovesDot` | ingest/chunker.go:228-239 | the concrete case: a stray byte before a dot moves it beyond the text |
| `Sentences.StrayByteAlone` | ingest/chunker.go:255-306 | invalid text alone does no harm: the same byte without a dot |
| `CodePoints.CharIffEncoded` | agent/iteration.go:992-1006 | the character a text begins with, wherever runes are decoded, is well formed exactly if it is the encoding of a Unicode scalar value |
| `CodePoints.EncodedIsValid` | ingest/chunker.go:260-267 | encoded scalar values are valid text, one rune each |
| `CodePoints.ValidIsEncoded` | ingest/chunker.go:260-267 | every valid text is encoded scalar values, as many as it has runes |
| `Spaces.SpaceByCodePoint` | ingest/chunker.go:205-214 | white space is what unicode.IsSpace says, code point by code point |
| `Spaces.FieldsKeep` | ingest/chunker.go:308-316 | the words of a text are its non-white-space characters, in order, and none is empty |
| `Splitting.FieldsExact` | ingest/chunker.go:308-316 | the words are the runs between white space: words and gaps give the text back, and no gap between two words is empty |
| `Spaces.ParagraphsKeep` | ingest/chunker.go:118-121 | splitting at blank lines loses white space only |
| `Splitting.ParagraphsExact` | ingest/chunker.go:118-121 | for every byte string the parts joined by blank lines are the text, no part holds a blank line, and each ends at the first one |
| `Spaces.TrimSpaceKeeps` | ingest/chunker.go:205-214 | trimming keeps every other character and leaves nothing exactly for blank text |
| `Splitting.TrimSpaceExact` | ingest/chunker.go:205-214 | what is cut off on either side is white space, and what is left neither begins nor ends with any |
| `WordSplit.WordCut` | ingest/chunker.go:325-337 | each cut of an oversized word advances, stays within the limit, no longer cut would do, and it ends on a rune start of valid text |
| `WordSplit.CutWord` | ingest/chunker.go:322-341 | for every byte string the cuts of an oversized word join to it, none is empty or exceeds the limit, and none could have been longer; they are valid if the word is |
| `WordSplit.AddWord` | ingest/chunker.go:317-361 | a word goes on the current line if it fits, else the line is flushed; an oversized word is cut; exactly its characters are added |
| `WordSplit.SplitOnWords` | ingest/chunker.go:308-369 | for every byte string the segments are its words in order, set in rows: lines of whole words that fit, none with room for the first word of a line right after it, and the cuts of each oversized word; segments of valid text are valid, within the limit, and hold the text up to white space |
| `SentenceSplit.AppendSegment` | ingest/chunker.go:205-214 | exactly the segments of the stretch are added: none if it is blank, itself trimmed if it fits, else its words |
| `SentenceSplit.Flush` | ingest/chunker.go:178-196 | flushing a stretch adds its segments and extends the text accounted for to its end |
| `SentenceSplit.SplitOnSentences` | ingest/chunker.go:156-201 | for every byte string it panics exactly when a dot or the last boundary lies beyond the text; else consecutive stretches end only at sentence boundaries, only where the next boundary is out of reach, and are cut into words only where no boundary is within reach |
| `SentenceSplit.SentencesKeep` | ingest/chunker.go:156-201 | such segments of valid text are within the limit and hold the text up to white space |
| `SentenceSplit.StrayBytePanics` | ingest/chunker.go:167-169 | the concrete case: a stray byte before a dot panics |
| `SentenceSplit.SplitParagraphs` | ingest/chunker.go:123-139 | every paragraph becomes segments of its own: none, itself, or its sentences; it panics exactly when a paragraph that does not fit does |
| `SentenceSplit.SplitRecursive` | ingest/chunker.go:112-147 | for every byte string: nothing if blank, itself if it fits, else paragraphs if there are several, else sentences if they give several segments, else words; exactly when it panics |
| `SentenceSplit.RecursiveKeeps` | ingest/chunker.go:112-147 | segments of valid text are within the limit and hold every non-white-space character, in order and once |
| `SentenceSplit.ValidIsSafe` | ingest/chunker.go:112-147 | valid text never panics, whatever the tables |
| `Chunker.GetOverlapSuffix` | ingest/chunker.go:420-434 | the overlap is the chunk itself if short, else its last n bytes from the first rune start, from behind the first blank, trimmed |
| `Chunker.OverlapValid` | ingest/chunker.go:420-434 | the overlap of a valid chunk is valid |
| `Chunker.MergeWithOverlap` | ingest/chunker.go:371-418 | greedy packing: a chunk is the overlap with its predecessor, where that fits, then consecutive segments on lines, and closes only when the next one does not fit; every segment is in exactly one chunk, and blank chunks are filtered out |
| `Chunker.FilterEmpty` | ingest/chunker.go:410-417 | exactly the chunks that are not blank stay, in order |
| `Chunker.ChunkText` | ingest/chunker.go:99-110 | for every byte string it panics exactly when the recursive splitting of an oversized text does; else a text that fits is its one chunk, and any other is split into paragraphs, sentences or words as above and packed greedily |
| `Chunker.StrayByteStopsChunker` | ingest/chunker.go:99-110 | the concrete case: a stray byte before a dot panics the chunker when two bytes are too many |
| `Chunker.ChunksKeep` | ingest/chunker.go:99-110 | chunks of valid text are non-empty, valid and within the limit, none is filtered out, and without their overlaps they hold the whole text in order, once, up to white space |
| `TaskLifecycle.InvStep` | a2a/server_send.go:179-310 | every critical section of send, run, settle, resume, cancel and save keeps the joint invariant of records, runs, handles and store |
| `TaskLifecycle.TerminalForever` | a2a/types.go:77-83 | over every interleaving a task that is completed, failed, canceled or rejected never changes again |
| `TaskLifecycle.LifecycleSafety` | a2a/server_send.go:179-310 | at every moment at most one run per task, a resume handle exactly while input is required, a cancel handle only while working, no handle consumed twice |
| `TaskLifecycle.MovesAllowed` | a2a/server_send.go:179-310 | the state diagram: over every run a task changes state only by starting, resuming, settling its own run or being canceled while it waits for input, and each settlement is explained by the outcome and the context of that run |
| `TaskLifecycle.LiveTasksStay` | a2a/taskstore.go:146-169 | a saved task that left the store is terminal, even though records change while the eviction scan is under way |
| `TaskLifecycle.SettleFindsWorking` | a2a/server_send.go:217-277 | a settlement always finds its task working |
| `TaskLifecycle.CancelReachesRun` | a2a/server_task.go:44-93 | cancelling a task with a published handle leaves the record alone, reaches its run, and any error from that run settles as canceled |
| `TaskLifecycle.CancelEffect` | a2a/server_task.go:44-93 | a cancel cancels a task that waits for input, reaches the run of one with a published handle, changes nothing for any other, ended ones included, and never touches the run of another task |
| `TaskLifecycle.ResumedCancelIgnored` | a2a/server_task.go:63-92 | the concrete case: a task is sent, asks for input, is resumed, and its cancel leaves the working run as it was |
| `TaskOutcomes.NewTaskWaits` | a2a/server_send.go:127-174 | a new task is submitted if the caller waits for it, else working at once; exactly one run is about to start for it, and nothing else changes |
| `TaskOutcomes.StreamStarts` | a2a/server_stream.go:118-146 | a streamed task is working with a published cancel handle from the beginning |
| `TaskOutcomes.StartPublishes` | a2a/server_send.go:199-204 | a run that starts publishes its cancel handle and moves its task to working |
| `TaskOutcomes.SettlementSettles` | a2a/server_send.go:222-252 | over every run a settlement removes its run, and the task is completed, waiting for input, canceled or failed if and only if the outcome and the context of that run say so; only a suspension leaves a handle, its own |
| `TaskOutcomes.WorkIsAttended` | a2a/server_send.go:179-310 | at every moment a task that is submitted or working has a run to settle it, unless its resumed run was lost |
| `TaskOutcomes.ResumeContinues` | a2a/server_send.go:287-310 | a follow-up to a task waiting for input uses up its handle, joins the history and starts one run; to any other task it changes nothing |
| `TaskOutcomes.RunsEnd` | a2a/server_send.go:222-245 | a context that ends, or a run that is lost, concerns that run only |
| `TaskOutcomes.SaveLists` | a2a/taskstore.go:111-121 | an unlisted task is listed last and the store is scanned; a listed one stays where it is |
| `TaskOutcomes.RemovalEvictsOne` | a2a/taskstore.go:149-169 | a removal takes exactly one entry, of a task that has ended, out of a store over its capacity |
| `TaskOutcomes.OverfullIsLive` | a2a/taskstore.go:149-169 | a save leaves the store over its capacity only when it has seen every entry live since it began, although tasks end meanwhile |
| `TaskOutcomes.SavesEnd` | a2a/taskstore.go:149-169 | a save can always go on while it holds the lock, and each step shortens the list or what is left to scan |
| `TaskStore.MemoryStore.constructor` | a2a/taskstore.go:104-109 | an empty store; a capacity that is not positive means 1024 |
| `TaskStore.MemoryStore.Save` | a2a/taskstore.go:111-121 | a known id is replaced in place; a new one is appended and then eviction is applied; map and list stay in bijection |
| `TaskStore.MemoryStore.EvictLocked` | a2a/taskstore.go:149-169 | the list becomes the specified eviction result and the map follows |
| `TaskStore.MemoryStore.EvictOldest` | a2a/taskstore.go:151-163 | one pass removes the oldest ended record if there is one |
| `TaskStore.MemoryStore.Get` | a2a/taskstore.go:123-131 | finds the listed record with that id, or nothing exactly when there is none |
| `TaskStore.MemoryStore.List` | a2a/taskstore.go:133-144 | exactly the records of a conversation, in the reverse of the order they are listed in |
| `TaskStore.EvictDropsOldest` | a2a/taskstore.go:149-169 | eviction removes exactly the oldest ended records, as many as the excess asks for or as there are |
| `TaskStore.EvictFits` | a2a/taskstore.go:149-169 | afterwards the size is within capacity or no record left has ended |
| `TaskStore.EvictKeepsLive` | a2a/taskstore.go:146-169 | no live record is evicted and nothing new appears |
| `RunLoop.FinishedTrace` | agent/loop.go:115-149 | in an accepted trace run-finish is the one last event and every iteration is closed by its own finish before anything but content |
| `RunLoop.Run.EndIteration` | agent/iteration.go:1031-1063 | ends exactly the open iteration, and announces its number and this reason |
| `RunLoop.Run.SafeClose` | agent/iteration.go:100-107 | the channel is closed on the first call only, and never without a stream |
| `RunLoop.Run.FinalizeRun` | agent/loop.go:126-149 | from between iterations the run becomes complete: bracketed trace, one run-finish with this reason, one close, the persistence its reason demands |
| `RunLoop.Run.PersistTurn` | memory/memory.go:286-289 | without a memory, a store or a thread nothing is persisted |
| `RunLoop.Run.PersistInterruptedTurn` | agent/iteration.go:926-939 | an interrupted turn is persisted exactly when there is a memory and it produced output or steps |
| `RunLoop.Run.TerminateIteration` | agent/iteration.go:942-958 | a suspended, halted or failed run is complete; only the last two may have been persisted |
| `RunLoop.Run.ProcessorExit` | agent/iteration.go:211-238 | a processor exit ends the open iteration and completes the run: suspended, halted with output, or as an error |
| `RunLoop.Run.PostLLMExit` | agent/iteration.go:823-865 | the exits after the model call complete the run for the same reasons, inside an iteration and during forced synthesis |
| `RunLoop.Run.FinalizeIterationStop` | agent/iteration.go:963-974 | a final answer ends the iteration, is persisted once and completes the run as stopped |
| `RunLoop.Run.LLMFailed` | agent/iteration.go:879-916 | a failed call ends its iteration; then it goes on exactly on retry, else completes as an error, and the result says what the hook made of it |
| `RunLoop.Run.FinalResponse` | agent/iteration.go:347-423 | without tool calls the run goes on exactly after an injection, else it is complete: stopped, or failed by the hook |
| `RunLoop.Run.ToolResults` | agent/iteration.go:537-733 | the results are handled in turn up to the first one a processor objects to, each with an event and a step trace; without an objection the iteration stays open |
| `RunLoop.Run.ToolCallsBranch` | agent/iteration.go:425-766 | with tool calls the iteration ends once on every path, as tool-calls if the run goes on; the first result a processor objects to decides, then the hook |
| `RunLoop.Run.RunIteration` | agent/iteration.go:169-767 | every path through the body brackets one iteration, and whether and why the run ends is what the earliest objecting stage says; the iteration finishes with the reason of the run if that ends, else as error after a retry, stop after an injection, or tool-calls; how much content it streams, whether it leaves steps, and when announced and returned reason differ |
| `RunLoop.Run.ForceSynthesis` | agent/loop.go:153-210 | synthesis completes the run without another iteration, as max-iterations unless the model call fails or a processor objects |
| `RunLoop.Execute` | agent/loop.go:50-123 | for all outcomes iterations run up to the first that must end the run, at most maxIter, then synthesis; the run is complete for that reason: bracketed, finished once, closed once, persisted once on stop or max-iterations if there is a memory, and never when suspended; which reason every iteration finishes with, how much content is streamed, when an error is persisted, and which reason the result carries |
| `RunLoop.HookFailureUnreported` | agent/iteration.go:879-916 | the concrete case: when the model call and then the hook fail, an error is announced and the result carries no reason |
| `DispatchPool.InvStep` | agent/dispatch.go:170-239 | every channel operation of workers, closer and collector keeps each call in exactly one place |
| `DispatchPool.RefinesSequentialMap` | agent/dispatch.go:170-239 | with a worker, under every schedule slot i holds the outcome of call i dispatched exactly once, or, after cancellation only, the context error |
| `DispatchPool.UncancelledIsMap` | agent/dispatch.go:170-239 | in every schedule without a cancellation, with a worker, every slot holds what its call came back with, dispatched exactly once |
| `DispatchPool.CollectedStays` | agent/dispatch.go:216-237 | a result once collected stays in its slot, also when the dispatch is cancelled |
| `DispatchPool.CancelReturnsAtOnce` | agent/dispatch.go:227-235 | the context can be cancelled at any time, and then a dispatch still collecting can return at once with the context error in exactly the open slots |
| `DispatchPool.SendNeverBlocks` | agent/dispatch.go:186-213 | a worker with a result always finds room in an open result channel |
| `DispatchPool.NeverStuck` | agent/dispatch.go:170-239 | in every reachable state of every schedule, until the dispatch returns, some operation other than a cancellation can go on, also with no worker |
| `DispatchPool.StepsRunOut` | agent/dispatch.go:170-239 | every operation but a cancellation leaves less to do, so every schedule returns if every dispatched call does |
| `DispatchPool.FilledNeedsWorker` | agent/dispatch.go:170-239 | for two or more calls all schedules fill all slots if and only if there is at least one worker |
| `SuspendBudget.InvStep` | agent/suspend.go:103-205 | every locked section of suspend, resume, stream resume, release and expiry keeps counters and snapshots in step |
| `SuspendBudget.BudgetAlways` | agent/suspend.go:252-287 | in every reachable state the counters are the number and bytes of snapshots held, within the limits and not negative, and no share is given back twice |
| `SuspendBudget.AdmittedIff` | agent/suspend.go:262-287 | over every run a suspension is admitted if and only if fewer snapshots are held than the limit, 20 if none is set, and its size fits beside the bytes held, within 256 MiB if none is set; a refused one changes nothing |
| `SuspendBudget.BudgetFills` | agent/suspend.go:262-287 | as many snapshots as the limit allows, of any sizes that fit together, can be held at once |
| `SuspendBudget.DefaultBudget` | agent/suspend.go:266-283 | without limits of its own an agent holds any twenty snapshots of 256 MiB together and refuses the next |
| `SuspendBudget.LettingGo` | agent/suspend.go:103-205 | a resume, release or expiry ends all ways to resume that snapshot and touches no other; its share is claimed by a resume that came in time, given back at once by a release or expiry that did, and a claimed one by its give-back |
| `SuspendBudget.GivenBackExactlyOnce` | agent/suspend.go:103-205 | a share has been given back exactly once if and only if the snapshot can no longer be resumed and no give-back is under way |
| `SuspendBudget.BudgetRestored` | agent/suspend.go:353-366 | once every snapshot is let go the whole budget can be used again |
| `StreamFanout.ReplayRing.constructor` | agent/stream.go:572-577 | an empty ring |
| `StreamFanout.ReplayRing.Push` | agent/stream.go:630-640 | the ring, read from its head, stays the last min(n, limit) events |
| `StreamFanout.ReplayRing.Replay` | agent/stream.go:731-757 | a late subscriber is sent that window oldest first; beyond 32 events it gets the first 32 and no warning |
| `StreamFanout.InvStep` | agent/stream.go:627-765 | every channel operation of dispatch, subscribe, finalize and consumers keeps the invariant of subscribers and pending lists |
| `StreamFanout.Delivered` | agent/stream.go:627-705 | at every moment what a consumer got and still has buffered is a gap-free stretch of the history, perhaps ended by one warning; with the lock free it is complete if and only if the subscriber was not dropped, and closed if and only if it was dropped or the run is over |
| `StreamFanout.ServedFromWindow` | agent/stream.go:726-765 | that stretch starts at the replay window of the moment of subscribing |
| `StreamFanout.AllServedAtEnd` | agent/stream.go:693-705 | in the end every channel was closed exactly once, undropped subscribers were sent everything, and a callback got every event, or with a filter exactly the events of that type, in order |
| `StreamFanout.NeverTouchedAfterClose` | agent/stream.go:657-703 | every send and every close finds its channel open, so neither can panic |
| `StreamFanout.WarningDelivered` | agent/stream.go:665-672 | the warning gets in if and only if the consumer received something since the failed send |
| `StreamFanout.SilentReaderDropped` | agent/stream.go:657-672 | over every run a consumer that receives nothing is dropped exactly when more than 32 events are due to it, and never warned |
| `StreamFanout.WarningLost` | agent/stream.go:657-672 | a run in which a subscriber is dropped and closed without a warning |
| `RpcFramer.InvStep` | mcp/jsonrpc.go:72-183 | every critical section and channel operation of callers and read loop keeps the correlation invariant |
| `RpcFramer.AnswersCorrelate` | mcp/jsonrpc.go:88-112 | a caller is only answered by a response whose id truncates to its own; the id is its own if and only if it is whole |
| `RpcFramer.OneSignalPerCall` | mcp/jsonrpc.go:132-183 | a call's channel gets at most one message or one close, never both |
| `RpcFramer.DeliveryNeverBlocks` | mcp/jsonrpc.go:102-111 | the read loop's send goes through at once, also after the caller gave up |
| `RpcFramer.TeardownWakes` | mcp/jsonrpc.go:132-138 | every call pending at teardown can return |
| `RpcFramer.FractionalIdMisdelivers` | mcp/jsonrpc.go:94-110 | any number that truncates to a pending id is delivered to that call |
| `RpcFramer.TruncateIs` | mcp/jsonrpc.go:95-96 | truncation drops the fraction toward zero and nothing else |
| `RpcFramer.NumbersAreFresh` | mcp/jsonrpc.go:146-147 | a call can be made at any time and gets a number no call has had |
| `RpcFramer.CallerStep` | mcp/jsonrpc.go:149-182 | a call enters the map with an empty channel; failing to be sent or giving up takes it out again; what it returns is what its channel got, or the end of the transport |
| `RpcFramer.ReaderIsOpen` | mcp/jsonrpc.go:72-112 | while it reads the loop accepts every message, and one that is for no pending call changes nothing |
| `RpcFramer.DeliveryFills` | mcp/jsonrpc.go:109-111 | a delivery fills its own channel, found empty and open, and touches no other |
| `RpcFramer.TornDownForever` | mcp/jsonrpc.go:126-138 | teardown closes exactly the channels of pending calls and ends the read loop for good |
| `RpcFramer.OnePointFive` | mcp/jsonrpc.go:95-96 | a whole run: call 1 is made, a response with id 1.5 arrives, and the call returns that response |
| `ToolResultStore.FittingIsLongest` | core/tool_result_store.go:204-220 | what eviction leaves is the longest suffix that fits both caps |
| `ToolResultStore.InMemoryStore.constructor` | core/tool_result_store.go:90-111 | an empty store |
| `ToolResultStore.InMemoryStore.ExpireExpiredLocked` | core/tool_result_store.go:165-202 | with or without the fast path the store ends up as if it had been swept; bytes, order, map and next expiry stay consistent |
| `ToolResultStore.InMemoryStore.Sweep` | core/tool_result_store.go:176-201 | exactly the expired entries go, order is kept, and the next expiry is recomputed |
| `ToolResultStore.InMemoryStore.EvictLocked` | core/tool_result_store.go:206-220 | eviction leaves the fitting suffix without touching the tracked expiry, which stays early enough; within both caps nothing changes; and it never mends books that a collision has broken, except by emptying the store |
| `ToolResultStore.InMemoryStore.Put` | core/tool_result_store.go:113-140 | with a new id: survivors and the new entry, as far back as both caps allow; the books are right afterwards if and only if the id is no survivor's (or the survivor was empty and the store admits nothing); with a survivor's id the replaced bytes stay counted, and without eviction the content is replaced and the id listed twice |
| `ToolResultStore.SameIdTwice` | core/tool_result_store.go:113-140 | the concrete case: two results under one id leave one entry, listed twice and counted with the bytes of both |
| `ToolResultStore.InMemoryStore.Get` | core/tool_result_store.go:142-163 | of a store swept at this moment: not found exactly if no entry has the id; else exactly the bytes from the offset on, as many as asked for and as there are, with the total; nothing behind the end; a panic for a negative offset or length before it |
| `ToolResultStore.PagesJoin` | core/tool_result_store.go:29-34 | consecutive pages of any size, read up to the end, make up the content |
| `ToolResultStore.PutThenGet` | core/tool_result_store.go:113-163 | a stored result can be read back page by page until its time to live is over and not afterwards, if and only if the byte cap admits it |
| `TokenBudget.DefaultTokenEstimate` | guardrail/tokenbudget.go:122-130 | the loop computes one token for every whole three runes of all messages and two thousand for each attachment |
| `TokenBudget.EstimateMonotone` | guardrail/tokenbudget.go:122-130 | leaving messages out never raises the default estimate |
| `TokenBudget.FirstTrimmable` | guardrail/tokenbudget.go:109-118 | the oldest non-system message before the window, none, or an index panic exactly for a negative window over system messages |
| `TokenBudget.Cleanup` | guardrail/tokenbudget.go:79-98 | exactly the tool results whose call is in the list survive |
| `TokenBudget.PreLLM` | guardrail/tokenbudget.go:66-105 | within budget nothing changes; else the cut is the earliest that fits or nothing trimmable is left, followed by the cleanup; panics exactly when said |
| `TokenBudget.ResultIsSubsequence` | guardrail/tokenbudget.go:66-105 | the result is the history with messages left out, in order |
| `TokenBudget.SystemKept` | guardrail/tokenbudget.go:71-78 | every system message survives, in order |
| `TokenBudget.NoOrphans` | guardrail/tokenbudget.go:79-98 | in a well-paired history no tool result is left without its call |
| `TokenBudget.CallsKeepResults` | guardrail/tokenbudget.go:66-105 | a call that survives keeps all of its results |
| `TokenBudget.FitsOrExhausted` | guardrail/tokenbudget.go:71-78 | under the default estimate the result fits, or only system messages are left before the preserved window |
| `TokenBudget.TailKeptIff` | guardrail/tokenbudget.go:55-58 | the preserved messages all survive if and only if none of them answers a call made before the cut |
| `TokenBudget.PreservedResultDropped` | guardrail/tokenbudget.go:55-58 | a two-message history whose preserved tool result is dropped |
| `GraphEdges.SlidingWindows` | ingest/graph.go:73-91 | one batch per stride, of batchSize chunks or up to the last one, at least two, and none missing that would hold two; two chunks share a batch if and only if the last window starting at or before the first reaches the second |
| `GraphEdges.OverlapCovers` | ingest/graph.go:77-80 | chunks no further apart than the overlap always share a batch |
| `GraphEdges.DeduplicateEdges` | ingest/graph.go:291-308 | no two edges left agree in source, target and relation, every edge is represented by one not lighter, and each is the earliest of the heaviest of its key, in whatever order the map is walked |
| `GraphEdges.PruneEdges` | ingest/graph.go:405-435 | without a cap the edges of at least the minimum weight; with one, per source as many of the heaviest of those as allowed |
| `GraphEdges.GroupBySource` | ingest/graph.go:419-422 | each group is its source's edges in order |
| `GraphEdges.KeepTop` | ingest/graph.go:424-434 | visiting groups in any order with any descending sort keeps the top of every source |
| `GraphEdges.DedupThenPrune` | ingest/graph.go:289-435 | at most one edge per key, the heaviest and at least the minimum; at most N per source; an edge dropped though heavy enough left its source with exactly N, none lighter |

## Left out

- Transports (HTTP, SSE, stdio), card discovery, push delivery, tracing, logging, option plumbing and re-exports: I/O or wiring.
- LLM judges, regex guards, document extraction, schema derivation, cosine and cost arithmetic: foreign libraries or floating point.
- `SnapshotIsJson`: says nothing about escapes and control bytes inside strings, which the parser does not check; `SnapshotIsStrict` does, for cuts of JSON documents.
- `SnapshotIsStrict`: like Go's own checker it does not ask for UTF-8 inside strings.
- `SplitContentRunes`: the last chunk may be empty for limits below 4; only for larger limits it is proved non-empty.
- `FindSentenceBoundaries`: letter classes and the abbreviation list are an arbitrary table.
- `ChunkText`: maxBytes and overlap are not negative; below 4 the size bound is 4, because one rune may need that much.
- `StreamedElements`: the validity oracle accepts the numbers and literals of the array, as a JSON checker does.
- `MergeWithOverlap`: no segment is empty, as none of `SplitRecursive` ever is.
- `Execute`: the context is never cancelled, a suspension is one the budget admits, and messages, usage and compression are not part of the state; content events are counted and not told apart, and those beside a tool result (files, UI components) count as chatter.
- `CancelReachesRun`: says nothing about tasks without a published handle; `CancelEffect` does.
- `TaskStore.MemoryStore.EvictLocked`: the states of the records do not change while this scan runs; `LiveTasksStay` is about scans during which they do.
- Panics inside settle, custom persistent task stores, webhook delivery and the contents of task messages.
- `StepsRunOut`: a dispatched call is one step, so it is taken to return.
- `RefinesSequentialMap`: two or more calls go through the pool; the single-call shortcut and the panic on a negative worker count are not modelled, and a panicking tool is just another outcome.
- Calls registered with the framer after teardown: only their own context ends them. Ids are mathematical, so the precision of float64 and int64 wrap-around are not modelled.
- `Put`: expiry times come after Go's zero time; later calls on a store whose books a collision has broken are not modelled.
- `Get`: the last-access time is not kept; no operation reads it.
- `PreLLM`: states the returned messages; the source edits the slice in place, and what the caller sees through an older view of it is not captured.
- `PruneEdges`: weights are reals, so NaN is not modelled; sort stability is not assumed.
- Graph edge parsing, sequence edges, semantic batches and the extraction worker pool: they would only add easy members.
- Ingest checkpoints, the semantic and markdown chunkers, MCP reconnect and context compression: the natural claims either fail or are easy.
