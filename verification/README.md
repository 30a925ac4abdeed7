# Quine: streaming, scheduling, sessions, checkpoints and turns

A model of the state machines of the Quine agent daemon, with proofs about all of their runs.

* **Streaming decoders.** Text that may hold tool calls arrives in chunks. The parser for Qwen's tag
  format holds back what may become a tag (`QwenBlocks`, `QwenToolCalls`); it refines parsing the whole
  text under every chunking, loses no character, and inverts a writer of the format (`QwenChunking`,
  `QwenRoundTrip`). The reasoning splitter holds nothing back: it agrees with splitting the whole text
  exactly when no tag straddles a cut (`ReasoningTags`). Fragmented tool calls are rebuilt by index, by
  identifier or by content block (`ToolCallAccumulation`, `AnthropicToolCalls`), and the Anthropic
  stream decodes like its whole text (`AnthropicStream`).
* **Scheduler.** Deadlines with a first-in-first-out tie-break, entries that queue themselves again, and
  a loop over a clock that does not go back (`Scheduler`, `SchedulerDrain`, `SchedulerRuns`), and an account
  of everything sent over a whole run (`SchedulerHistory`).
* **Session tree.** Parents, children, waits and exit waiters (`SessionTree`, `SessionRuns`), on graphs
  with one successor per node (`SuccessorGraphs`); the two walks to the root (`Lineage`) and the
  indented listing (`TreeListing`, `TreeShape`).
* **Checkpoints.** Two files committed by renaming (`Storage`, `StorageCrashes`), merged under a lock
  (`Checkpoints`, `CheckpointCycles`), with the memory extraction and its cursor (`MemoryStore`,
  `MemoryRequests`, `CheckpointMemory`, `MemoryExtraction`), also when sections crash (`CheckpointWindows`) and when the
  history is compacted (`CompactedMemory`).
* **History.** Compaction and archiving (`Compaction`, `CompactionRuns`), what they keep and say
  (`LiveTails`), and the conversion to the
  Anthropic message list (`AnthropicMessages`).
* **Turns.** Notifications tagged with the active turn (`TurnTagging`), the client loop that collects
  one turn (`TurnCollecting`), and both together (`TurnCorrelation`, `TurnOutput`).

Code that changes state is a class or a method with the loops of the original, proved against a
function of the old state; the claims over whole runs are lemmas about those functions. `Wrappers`,
`Strings`, `Decimal`, `Messages` and `Sorting` hold what the rest shares.

Some promises hold only under a condition, and the condition is then stated exactly:
`split_reasoning_tags` agrees with the whole text all along exactly without straddling tags; a drain ends
exactly when no due cadence is zero; an entry of the accumulator is announced exactly when it is
identified, which needs no name; conversion loses no message exactly when every message has the content
of its role; a tool name survives translation exactly when it is no alias; messages added after a
compaction are all extracted exactly when the compaction did not shorten the history; a full checkpoint
request drops exactly what the core does not report; a client never gets the end of its turn exactly when
the session starts another turn in it; a tree stays a forest exactly when every attached child has no
parent and is not above its new parent; a lineage walk ends exactly when no session on it is above itself,
and, with distinct identifiers, the listing exactly when some session has no parent or none is above
itself.

## Model

| member | source | states |
|---|---|---|
| `QwenBlocks.ParseToolCallBlock` | crates/quine-llm/src/openai_compat.rs:466-503 | the loop that strips one parameter after another reads a block as the recursive reading does; `ReadInvertsWrite` says what that reading means |
| `QwenToolCalls.SafePrefixLen` | crates/quine-llm/src/openai_compat.rs:505-510 | what is held back starts at the last '<' of the text and has no '>'; nothing is held back exactly when no '<' stands behind the last '>' |
| `QwenToolCalls.QwenToolCallParser.NextToolUseId` | crates/quine-llm/src/openai_compat.rs:513-516 | one identifier, numbered one higher than the last, is used up |
| `QwenToolCalls.QwenToolCallParser.ReadBlock` | crates/quine-llm/src/openai_compat.rs:535-539 | an identifier is used up whether or not the block can be read; an unreadable block is reported as its own text |
| `QwenToolCalls.QwenToolCallParser.PushText` | crates/quine-llm/src/openai_compat.rs:518-556 | the events, the text that stays pending and the identifiers used are those of draining the pending text with the chunk behind it |
| `QwenToolCalls.QwenToolCallParser.Finish` | crates/quine-llm/src/openai_compat.rs:558-566 | pending text is reported as it is, and nothing stays pending |
| `QwenChunking.SafePrefixHoldsBack` | crates/quine-llm/src/openai_compat.rs:505-510 | no opening tag starts in the emitted part, whatever text follows later |
| `QwenChunking.TagStartIsHeld` | crates/quine-llm/src/openai_compat.rs:505-510 | a tag that begins in the text and is completed by later text begins in the part that is held back |
| `QwenChunking.DrainRefinesParse` | crates/quine-llm/src/openai_compat.rs:518-556 | for every future text, the events so far followed by parsing what is pending with that future are the parse of the whole |
| `QwenChunking.StreamingRefinesParse` | crates/quine-llm/src/openai_compat.rs:518-566 | for every text and every list of chunks, pushing the chunks and finishing reports what the batch parser reports: calls, identifiers, order and text, with adjacent text merged |
| `QwenChunking.ChunkingIsInvisible` | crates/quine-llm/src/openai_compat.rs:518-566 | two ways of cutting the same text cannot be told apart |
| `QwenChunking.RunConservesInput` | crates/quine-llm/src/openai_compat.rs:518-566 | at every point the emitted text, the consumed blocks and the pending text put together are the input, character by character |
| `QwenChunking.DrainSaysSomething` | crates/quine-llm/src/openai_compat.rs:522-553 | no push and no finish reports an empty text, as long as no block is read as one |
| `QwenChunking.BlocksSaySomething` | crates/quine-llm/src/openai_compat.rs:536-539 | and no block is |
| `QwenRoundTrip.ReadInvertsWrite` | crates/quine-llm/src/openai_compat.rs:461-503 | a call written in the tag format is read back with its trimmed name and every argument under its trimmed name; a value that is JSON stands for that and any other for its own trimmed text; a later argument of the same name wins |
| `QwenRoundTrip.NoFunctionIsNoCall` | crates/quine-llm/src/openai_compat.rs:466-471 | what does not start with a function, after trimming, is no call |
| `QwenRoundTrip.UnreadableIsShown` | crates/quine-llm/src/openai_compat.rs:535-539 | a block that cannot be read is shown as it stands and uses up a number |
| `QwenRoundTrip.NumbersDiffer` | crates/quine-llm/src/openai_compat.rs:513-516 | two calls of one stream never share an identifier |
| `QwenRoundTrip.StreamInvertsWritten` | crates/quine-llm/src/openai_compat.rs:395-398 | words and written calls in turn, cut into chunks in any way, come back as those words and calls, in order and with ascending identifiers |
| `ReasoningTags.SplitReasoningTags` | crates/quine-llm/src/openai_compat.rs:400-426 | the loop ends and gives the visible text, the reasoning text and the flag of the recursive split |
| `ReasoningTags.SplitTwoIffNoStraddle` | crates/quine-llm/src/openai_compat.rs:400-426 | splitting a and then b with the flag carried gives the split of a+b exactly when no sought tag straddles the cut: the decoder holds nothing back, so a straddling tag always shows |
| `ReasoningTags.SplitAllIffNoStraddle` | crates/quine-llm/src/openai_compat.rs:400-426 | for any number of chunks, the split agrees with that of the text so far all along exactly when no cut is straddled |
| `ReasoningTags.SplitAllIsSplitText` | crates/quine-llm/src/openai_compat.rs:400-426 | so without a straddled cut, all chunks together split like the whole text |
| `ReasoningTags.SegmentsRebuild` | crates/quine-llm/src/openai_compat.rs:400-426 | the visible and reasoning pieces and the consumed tags, in order, are the input |
| `ReasoningTags.SegmentsHoldNoTag` | crates/quine-llm/src/openai_compat.rs:400-426 | no piece contains the tag that was sought while it was collected |
| `ReasoningTags.ThinkBlockIsReasoning` | crates/quine-llm/src/openai_compat.rs:400-426 | the text between <think> and the next </think> is reasoning, the text around it is visible |
| `ReasoningTags.WithoutTag` | crates/quine-llm/src/openai_compat.rs:400-426 | text without a tag is all of one kind, and an open block stays open |
| `ToolCallAccumulation.ToolCallAccumulator.NextToolUseId` | crates/quine-llm/src/openai_compat.rs:570-573 | the next generated identifier, numbered one higher than the last |
| `ToolCallAccumulation.ToolCallAccumulator.EntryFor` | crates/quine-llm/src/openai_compat.rs:576-609 | the entry of a delta: its index, or the first entry with its identifier, or a new one, or entry 0; the list grows by blank entries until the entry exists |
| `ToolCallAccumulation.ToolCallAccumulator.ExtendEntry` | crates/quine-llm/src/openai_compat.rs:610-620 | identifier and name are replaced and the fragment is appended, each if it is there |
| `ToolCallAccumulation.ToolCallAccumulator.ProcessDelta` | crates/quine-llm/src/openai_compat.rs:575-626 | one delta replaces identifier and name, appends its fragment and generates an identifier when there is content without one; no other entry changes |
| `ToolCallAccumulation.ToolCallAccumulator.TakeCompleted` | crates/quine-llm/src/openai_compat.rs:628-643 | the loop that skips entries without identifier and reserved names and announces the others, in index order; `CompletionByIndex` says which entries these are |
| `ToolCallAccumulation.NameRoundTrip` | crates/quine-llm/src/openai_compat.rs:255-270 | a tool name survives translation to the provider and back exactly when it is none of the two aliases and the reserved preview name |
| `ToolCallAccumulation.AnnouncedNames` | crates/quine-llm/src/openai_compat.rs:255-270 | which names stand for which tools, and that exactly web_search and web_search_preview are the provider's own |
| `ToolCallAccumulation.RunIdentifies` | crates/quine-llm/src/openai_compat.rs:621-625 | after every run, every entry with a name or arguments has a non-empty identifier |
| `ToolCallAccumulation.RunGenerates` | crates/quine-llm/src/openai_compat.rs:570-625 | where the provider sends no identifiers, each call with content gets a generated one of its own |
| `ToolCallAccumulation.GeneratedIdsDiffer` | crates/quine-llm/src/openai_compat.rs:570-573 | a generated identifier is the prefix and the number, and no two are the same |
| `ToolCallAccumulation.RunReach` | crates/quine-llm/src/openai_compat.rs:602-609 | with explicit indexes the list reaches exactly to the highest index seen |
| `ToolCallAccumulation.RunByIndex` | crates/quine-llm/src/openai_compat.rs:575-626 | with explicit indexes, in any interleaving, entry i has exactly the fragments of index i in order, its own last name, and its own last identifier if that is not empty |
| `ToolCallAccumulation.RunById` | crates/quine-llm/src/openai_compat.rs:576-601 | without indexes but with identifiers, and new calls allowed, entries are the distinct identifiers and each holds exactly its own fragments and last name |
| `ToolCallAccumulation.RunBareSeparate` | crates/quine-llm/src/openai_compat.rs:576-601 | with neither index nor identifier, and new calls allowed, every delta becomes a call of its own |
| `ToolCallAccumulation.RunBareMerged` | crates/quine-llm/src/openai_compat.rs:576-609 | with neither, and new calls not allowed, all deltas merge into one call with all fragments and the last name; it gets the first generated identifier exactly when there ever was content |
| `ToolCallAccumulation.RunIdentifiesByIndex` | crates/quine-llm/src/openai_compat.rs:610-625 | with explicit indexes, whether an entry has an identifier depends on its own deltas alone: the last one sent for it, unless that is empty and there is no content from then on |
| `ToolCallAccumulation.CompletionByIndex` | crates/quine-llm/src/openai_compat.rs:628-643 | after explicitly indexed deltas an entry is emitted exactly when it is identified and its last name is not reserved, in index order, with the arguments of its own fragments; an entry no delta names is never emitted |
| `ToolCallAccumulation.ReservedIsDropped` | crates/quine-llm/src/openai_compat.rs:632-633 | a call that was last named web_search or web_search_preview is never announced |
| `ToolCallAccumulation.ArgumentsAre` | crates/quine-llm/src/openai_compat.rs:634-635 | arguments that cannot be read are an empty object |
| `ToolCallAccumulation.NamelessCallIsEmitted` | crates/quine-llm/src/openai_compat.rs:628-643 | an identifier alone is enough: a call without name and arguments is emitted |
| `AnthropicToolCalls.ToolCallTracker.constructor` | crates/quine-llm/src/anthropic.rs:171-176 | no calls and no open blocks |
| `AnthropicToolCalls.ToolCallTracker.Start` | crates/quine-llm/src/anthropic.rs:178-186 | a new call at the end, to which the block now points |
| `AnthropicToolCalls.ToolCallTracker.Append` | crates/quine-llm/src/anthropic.rs:188-194 | a fragment goes to the call its block points to, and nowhere if there is none |
| `AnthropicToolCalls.ToolCallTracker.TakeCompleted` | crates/quine-llm/src/anthropic.rs:196-209 | one event for every call, in order |
| `AnthropicToolCalls.TrackerRebuildsCalls` | crates/quine-llm/src/anthropic.rs:170-194 | for every interleaving of starts and fragments, there is one call for every start, in order, with exactly the fragments of its block up to the next start of that block |
| `AnthropicToolCalls.StrayFragmentsAreDropped` | crates/quine-llm/src/anthropic.rs:188-194 | fragments for a block that was never started make no difference |
| `AnthropicStream.HandleSignal` | crates/quine-llm/src/anthropic.rs:394-440 | what each kind of stream event does to the tracker, the usage and the output |
| `AnthropicStream.FinishCalls` | crates/quine-llm/src/anthropic.rs:441-453 | the finished calls, then the end of the response with the usage |
| `AnthropicStream.DecodeStream` | crates/quine-llm/src/anthropic.rs:368-484 | however the text is cut into chunks, and whatever follows the stop, the loop ends and gives what decoding the text as a whole gives |
| `AnthropicStream.DecodeBlock` | crates/quine-llm/src/anthropic.rs:375-377 | the first separator in the buffer is the first one of the whole text, whatever arrives later |
| `AnthropicStream.DecodedMeans` | crates/quine-llm/src/anthropic.rs:394-484 | the response is its non-empty texts in order, then one call for every tool that is started, with the JSON said for its block up to the next start of that block (none that is readable counts as an empty object), then the last usage reported before the stop |
| `AnthropicStream.SignalsRead` | crates/quine-llm/src/anthropic.rs:375-393 | a block ends at the first empty line; what follows a stop, and a block without its empty line, is not read |
| `SessionTrees.SessionTree.constructor` | crates/quine-core/src/session_tree.rs:19-27 | an empty tree |
| `SessionTrees.SessionTree.Restore` | crates/quine-core/src/session_tree.rs:128-136 | parents, children and exit statuses as in the snapshot; no waits and no waiters |
| `SessionTrees.SessionTree.Snapshot` | crates/quine-core/src/session_tree.rs:120-126 | parents, children and exit statuses as they are |
| `SessionTrees.SessionTree.AddChild` | crates/quine-core/src/session_tree.rs:30-33 | the child gets the parent and is appended to the parent's children; the rest stays |
| `SessionTrees.SessionTree.ParentOf` | crates/quine-core/src/session_tree.rs:36-38 | the parent, if there is one |
| `SessionTrees.SessionTree.ChildrenOf` | crates/quine-core/src/session_tree.rs:41-46 | the children, none for an unknown session |
| `SessionTrees.SessionTree.WaitWouldCycle` | crates/quine-core/src/session_tree.rs:69-82 | ends on every graph, and answers yes exactly when the waiter can be reached from the dependency |
| `SessionTrees.SessionTree.RegisterActiveWait` | crates/quine-core/src/session_tree.rs:49-61 | refused exactly when the waiter can be reached from the dependency; otherwise the waiter's edge is replaced |
| `SessionTrees.SessionTree.ClearActiveWait` | crates/quine-core/src/session_tree.rs:64-66 | the waiter's edge is gone and nothing else changes |
| `SessionTrees.SessionTree.RecordExit` | crates/quine-core/src/session_tree.rs:85-95 | no wait edge from or to the session stays, every pending waiter is sent the status in order, and the status is recorded |
| `SessionTrees.SessionTree.RegisterWaiter` | crates/quine-core/src/session_tree.rs:106-118 | a waiter of an exited session is sent its status at once, any other is kept at the end of the list |
| `SuccessorGraphs.AddEdgeAcyclic` | crates/quine-core/src/session_tree.rs:49-82 | replacing or adding an edge in an acyclic graph keeps it acyclic exactly when the edge's target does not reach its source |
| `SessionRuns.WaitsStayAcyclic` | crates/quine-core/src/session_tree.rs:49-94 | after every sequence of operations no sessions wait for each other in a circle |
| `SessionRuns.RefusalIsNecessary` | crates/quine-core/src/session_tree.rs:49-61 | a wait is refused exactly when accepting it would close a circle |
| `SessionRuns.ExitedLeavesWaitGraph` | crates/quine-core/src/session_tree.rs:85-94 | an exited session does not appear among the active waits until a later wait names it |
| `SessionRuns.WaitsAreLast` | crates/quine-core/src/session_tree.rs:49-95 | in every run a session waits for exactly the last dependency that was accepted and neither cleared nor ended by an exit or a restore |
| `SessionRuns.AddChildKeepsForestIff` | crates/quine-core/src/session_tree.rs:30-33 | attaching a child to a forest gives a forest exactly when the child has no parent yet and is not above the new parent |
| `SessionRuns.RunsKeepForestIff` | crates/quine-core/src/session_tree.rs:30-33 | a run keeps parents and children mutually inverse, duplicate-free and acyclic all along, across snapshot and restore, exactly when every child it attaches is then such a child |
| `SessionRuns.RunsKeepForest` | crates/quine-core/src/session_tree.rs:30-33 | with fresh child identifiers every run does |
| `SessionRuns.TreeIsWhatWasAttached` | crates/quine-core/src/session_tree.rs:30-46 | in every run, across snapshot and restore, the children of a session are those attached to it, in that order, and its parent is the one it was attached to last |
| `SessionRuns.StaleChildMakesCycle` | crates/quine-core/src/session_tree.rs:30-33 | the shortest way to break it: two operations make a cycle on which the lineage walks do not end |
| `SessionRuns.ExitsAreLast` | crates/quine-core/src/session_tree.rs:85-95 | in every run, restores included, the recorded status is that of the last exit, and an exited session has no pending waiter |
| `SessionRuns.WaiterIsSentItsStatusOnce` | crates/quine-core/src/session_tree.rs:85-118 | until the next restore, and whatever came before its registration, each waiter is either pending once on a session with no exit, or was sent exactly one status: the one recorded at registration, which may be from before a restore, or else that of the first exit after it |
| `SessionRuns.RestoreDropsWaiter` | crates/quine-core/src/session_tree.rs:128-136 | a waiter registered before a restore is not pending after it, and the restored tree never sends it anything |
| `SuccessorGraphs.AcyclicIffWalksEnd` | crates/quine-harness/src/storage.rs:184-191 | all walks along parents end exactly when there is no cycle of parents |
| `SuccessorGraphs.EndsIffNoCycle` | crates/quine-harness/src/storage.rs:184-187 | the walk from a session ends exactly when no session on it is above itself |
| `Lineage.WalkToRoot` | crates/quine-harness/src/storage.rs:184-187 | the unguarded walk, wherever it ends: the root it ends at, and the number of steps |
| `Lineage.SnapshotLineage` | crates/quine-harness/src/storage.rs:180-205 | parent, root, depth and the sorted children of a session whose walk ends |
| `Lineage.SessionLineage` | crates/quine-harness/src/local.rs:329-349 | every listed session has the root and the depth of its walk |
| `Lineage.WalksAgree` | crates/quine-harness/src/storage.rs:180-205 | both walks give the same root and depth on the same parents |
| `Lineage.ChildIsOneDeeper` | crates/quine-harness/src/local.rs:329-349 | a child has the root of its parent and is one deeper |
| `Lineage.WalksEndInEveryRun` | crates/quine-core/src/session_tree.rs:30-46 | in every tree built by attaching only sessions without parent that are not above their new parent, both walks end |
| `TreeListings.ByLastActiveIsTotal` | crates/quine-cli/src/agent_ctl.rs:380-393 | the order of siblings, most recently active first and then by identifier, is total, so sorting by it is well defined |
| `TreeListings.SiblingsByActivity` | crates/quine-cli/src/agent_ctl.rs:373-393 | of two siblings the one active later comes first, of two active at the same time the one with the lesser identifier; a record that does not say counts as never active |
| `TreeListings.KidsByActivity` | crates/quine-cli/src/agent_ctl.rs:380-393 | so are the children listed under every session |
| `TreeListings.ListedUnder` | crates/quine-cli/src/agent_ctl.rs:477-491 | a record without an identifier is listed as unknown |
| `Sorting.TextLeIs` | crates/quine-cli/src/agent_ctl.rs:388-392 | texts are ordered by the first character that differs, and what has none left comes first |
| `TreeListings.KidsAreChildren` | crates/quine-cli/src/agent_ctl.rs:473-495 | with distinct identifiers, the children listed under a session are exactly the sessions whose record names it, once each and in order |
| `TreeListings.CollectSessions` | crates/quine-cli/src/agent_ctl.rs:473-491 | the records by identifier and the identifiers by parent |
| `TreeListings.SortChildren` | crates/quine-cli/src/agent_ctl.rs:493-495 | every list of children is sorted and no other list appears |
| `TreeListings.SortedRoots` | crates/quine-cli/src/agent_ctl.rs:497-503 | the sessions listed without a parent, or all sessions if there are none, in order |
| `TreeListings.PushTreeLines` | crates/quine-cli/src/agent_ctl.rs:512-558 | wherever the recursion comes to an end, the lines of the session and of everything below it are appended |
| `TreeListings.FormatTreeLines` | crates/quine-cli/src/agent_ctl.rs:463-510 | for every list from which the recursion comes to an end, duplicates and cycles beside it included: the lines of the roots in order, each with its subtree; a single line when there are no sessions |
| `TreeShapes.ListingEndsIff` | crates/quine-cli/src/agent_ctl.rs:463-558 | with distinct identifiers the listing comes to an end exactly when some session has no parent or no session is above itself |
| `TreeShapes.ListingIsTheTree` | crates/quine-cli/src/agent_ctl.rs:463-558 | with distinct identifiers and a session without parent: no session twice, indentation equal to depth, the sessions below a session exactly the deeper lines directly after it, siblings in order, and a session shown exactly when it has a topmost ancestor that is listed |
| `TreeShapes.ListingShowsAll` | crates/quine-cli/src/agent_ctl.rs:463-558 | when every parent is listed and no session is above itself, all of that holds and every session is shown |
| `Schedulers.GreatestIsEarliest` | crates/quine-core/src/scheduler.rs:162-169 | the greatest entry of the heap is the one with the earliest deadline, and among those the lowest sequence number |
| `Schedulers.TopIndex` | crates/quine-core/src/scheduler.rs:198-205 | the entry that is popped is greatest under the code's own order |
| `Schedulers.Scheduler.HandleSchedulerCommand` | crates/quine-core/src/scheduler.rs:255-294 | what each command does to the queue, the mailboxes and the closed flag |
| `Schedulers.Scheduler.DispatchScheduledAction` | crates/quine-core/src/scheduler.rs:296-331 | a recurring action is queued again at its own deadline plus the cadence, with a fresh number; the action is sent unless the receiver is gone, which is reported |
| `Schedulers.Scheduler.DrainDue` | crates/quine-core/src/scheduler.rs:195-207 | with positive cadences among what is due, the loop ends, with the queue, the sent actions and the flags of the recursive drain |
| `SchedulerDrain.DrainSendsWhatIsOwed` | crates/quine-core/src/scheduler.rs:195-207 | a drain at a fixed time sends exactly what every entry owes, leaves for every entry exactly what it should, and leaves nothing that is due |
| `SchedulerDrain.OwedTimes` | crates/quine-core/src/scheduler.rs:313-329 | a recurring entry owes one message at its deadline d, d+c, d+2c and so on up to now, and at no other time: there is no drift |
| `SchedulerDrain.OwedOnlyItself` | crates/quine-core/src/scheduler.rs:296-331 | an entry owes only its own action |
| `SchedulerDrain.OwedCount` | crates/quine-core/src/scheduler.rs:296-331 | the number of messages owed is floor((now-d)/c)+1 for a due recurring entry, one for a due one-shot and none otherwise |
| `SchedulerDrain.LeftIsNextTime` | crates/quine-core/src/scheduler.rs:313-329 | a due recurring entry leaves exactly one entry, at the first of its times after now |
| `SchedulerDrain.DrainEndsIffPositive` | crates/quine-core/src/scheduler.rs:195-207 | a drain ends exactly when no due entry has cadence zero |
| `SchedulerRuns.DispatchedKeysIncrease` | crates/quine-core/src/scheduler.rs:129-331 | over every run with a clock that does not go back, the keys (deadline, sequence) of the sent actions strictly increase across the whole run |
| `SchedulerRuns.NothingIsEarly` | crates/quine-core/src/scheduler.rs:195-207 | nothing is sent before its deadline |
| `SchedulerRuns.NothingAfterShutdown` | crates/quine-core/src/scheduler.rs:209-216 | after a shutdown is handled all the loop can do is return; nothing more is sent |
| `SchedulerRuns.MailboxesAreFifo` | crates/quine-core/src/scheduler.rs:262-285 | for every mailbox, what was sent is what was received followed by what is still there, in order |
| `SchedulerRuns.EveryReceiveIsAnswered` | crates/quine-core/src/scheduler.rs:278-287 | every receive is answered exactly once, in order, from the mailbox that was asked |
| `SchedulerRuns.ReceiveGetsTheNext` | crates/quine-core/src/scheduler.rs:278-287 | the answer is the first message sent there that was not received yet, and none exactly when all were |
| `SchedulerHistory.RunsAccount` | crates/quine-core/src/scheduler.rs:185-331 | over a whole run without shutdown there is one count for every schedule command such that what was sent is exactly the first so many times of every series (its delay after the command, then every cadence) and what is pending is exactly the next time of every series that is not over: nothing is lost, repeated or late by drift |
| `SchedulerRuns.SchedulerLoop` | crates/quine-core/src/scheduler.rs:185-253 | the loop as a whole: drain, wait, handle |
| `SchedulerRuns.LoopIsRun` | crates/quine-core/src/scheduler.rs:185-253 | whatever arrives and whenever, what the loop does is a run, so the run properties hold of it; it handles commands in the order of their arrival, and all of them as long as it listens |
| `SchedulerRuns.NothingIsOverdue` | crates/quine-core/src/scheduler.rs:194-207 | as long as the loop runs, nothing is pending that was due at its last reading of the clock |
| `SchedulerRuns.ClosedLoopReturns` | crates/quine-core/src/scheduler.rs:209-211 | a closed loop with nothing left to send returns |
| `Storage.CheckpointPathsDiffer` | crates/quine-harness/src/storage.rs:471-473 | checkpoints of different generations are different files |
| `Storage.NamesDiffer` | crates/quine-harness/src/storage.rs:467-482 | no checkpoint, temporary or manifest file shares its name with another |
| `Decimals.DecimalReads` | crates/quine-harness/src/storage.rs:471-473 | a generation in a file name is its decimal digits |
| `Storage.StorageManager.ReadManifest` | crates/quine-harness/src/storage.rs:435-444 | the manifest, none if the file is missing, an error if it is torn or is no manifest |
| `Storage.StorageManager.LoadLatestCheckpoint` | crates/quine-harness/src/storage.rs:397-409 | the checkpoint of the generation the manifest names; a missing or torn file is an error |
| `Storage.LoadingIs` | crates/quine-harness/src/storage.rs:397-444 | what a reader gets for every state of the two files: nothing without a manifest, an error for a torn manifest and for a missing or torn checkpoint |
| `Storage.StorageManager.WriteJsonAtomic` | crates/quine-harness/src/storage.rs:451-465 | the temporary file is created, written and renamed, in that order |
| `Storage.StorageManager.CommitCheckpoint` | crates/quine-harness/src/storage.rs:411-428 | the checkpoint of the next generation is written first and the manifest second; an unreadable manifest stops the commit with nothing changed |
| `StorageCrashes.CrashSafety` | crates/quine-harness/src/storage.rs:397-482 | after any commits, each stopped after any disk operation or completed, loading gives the checkpoint of the last commit whose manifest was renamed (none if there was none), and the visible generation is the number of such commits, stray files or not |
| `Checkpoints.MergeCheckpointUpdate` | crates/quine-harness/src/local.rs:162-184 | the loops that overwrite or append session by session, and the tree taken from the update |
| `Checkpoints.MergeIsOverride` | crates/quine-harness/src/local.rs:162-184 | under each identifier the merge holds the last update, or else what was stored; stored positions are stable and identifiers stay unique |
| `Checkpoints.MergeTakesTree` | crates/quine-harness/src/local.rs:168-169 | session tree and format version are those of the update, whatever was stored |
| `Checkpoints.MergeOfNothing` | crates/quine-harness/src/local.rs:166-167 | without a stored checkpoint the merge has the sessions of the update |
| `CheckpointMemory.EnrichCheckpoint` | crates/quine-harness/src/local.rs:202-314 | every session gets the further of the two cursors and an extraction of what is new |
| `CheckpointMemory.CursorNeverDecreases` | crates/quine-harness/src/local.rs:214-256 | for any report whatever, the cursor of an enriched session is not behind the stored one |
| `CheckpointMemory.CarriedIs` | crates/quine-harness/src/local.rs:216-226 | the stored memory is carried over exactly when its cursor is further |
| `CheckpointMemory.FailureKeepsCursor` | crates/quine-harness/src/local.rs:304-314 | a store that fails changes nothing and reads nothing, so the same messages are tried again |
| `CheckpointMemory.DisabledStaysDisabled` | crates/quine-harness/src/memory_store.rs:158-180 | a disabled memory stays as it is, with its cursor, and reads nothing |
| `CheckpointMemory.UnknownReadsNothing` | crates/quine-harness/src/memory_store.rs:132-149 | a session without memory state reads nothing and gets none |
| `CheckpointMemory.EnrichmentKeepsTheRest` | crates/quine-harness/src/local.rs:202-314 | enrichment changes nothing but the memory state |
| `CheckpointMemory.WindowsPartitionHistory` | crates/quine-harness/src/memory_store.rs:197-229 | while history only grows, the core reports no cursor ahead of the stored one and extractions succeed, the windows join to 0, 1, 2, ... up to the cursor: each message is processed exactly once |
| `CheckpointMemory.ReadsHistoryOnce` | crates/quine-harness/src/memory_store.rs:197-231 | under the same conditions the messages read over all checkpoints are the history up to the cursor, once and in order |
| `CheckpointMemory.CursorReachesEnd` | crates/quine-harness/src/memory_store.rs:281-302 | from the second such checkpoint on, the cursor covers the whole reported history |
| `CheckpointMemory.AddedAreProcessedIff` | crates/quine-harness/src/memory_store.rs:132-231 | messages added behind the first `kept` are all processed exactly when an extraction is possible and the cursor lies within those first ones |
| `CompactedMemory.AddedAfterCompactionIff` | crates/quine-core/src/engine.rs:2499-2501 | after a history was read to its end and compacted by any plan, the messages added to it are all read exactly when the kept tail starts no later than one behind the leading system message, that is, when the compaction did not shorten the history |
| `CompactedMemory.CompactionLosesAMessage` | crates/quine-core/src/engine.rs:2499-2501 | three messages are read, compacted to two by the summarizer's plan and followed by a new one, which is never read |
| `MemoryExtraction.ExtractAndPersistForSession` | crates/quine-harness/src/memory_store.rs:128-302 | one extraction: nothing without memory state, when disabled or without new messages; otherwise one pass over exactly the messages behind the cursor, all of them counted, and the cursor at the end |
| `MemoryExtraction.WindowIsRead` | crates/quine-harness/src/memory_store.rs:231-231 | the messages read at a checkpoint are exactly those of the window that the extraction passes over |
| `MemoryExtraction.ExtractionAccounts` | crates/quine-harness/src/memory_store.rs:197-302 | the counts of an extraction add up to the messages it reads, and the live records change by created minus tombstoned |
| `CheckpointCycles.LocalHarness.CommitSection` | crates/quine-harness/src/local.rs:352-442 | one locked section: load, enrich, merge unless it is a full request, commit; a failed load stops a request but not the fan-out loop |
| `CheckpointCycles.CyclesAreCrashSafe` | crates/quine-harness/src/local.rs:352-442 | after any sections, each crashed anywhere or completed, loading succeeds and gives what the completed sections alone produce |
| `CheckpointCycles.LoadedTreeIsLast` | crates/quine-harness/src/local.rs:352-442 | after any sections of any kind, what is loaded has the session tree and the format version the last completed section was told, and there is nothing to load exactly when none completed |
| `CheckpointCycles.UnreadableStore` | crates/quine-harness/src/local.rs:731-732 | should the stored checkpoint be unreadable, a request stops there while the fan-out loop goes on with nothing |
| `CheckpointCycles.NoSessionIsLost` | crates/quine-harness/src/local.rs:410-434 | along any run of merging sections, a session is stored exactly when a completed section reported it, as last reported apart from its memory |
| `CheckpointCycles.StoredCursorNeverDecreases` | crates/quine-harness/src/local.rs:352-442 | from one section to the next, full requests included, the stored cursor never goes back while the session stays stored |
| `CheckpointCycles.StaysStoredIff` | crates/quine-harness/src/local.rs:352-442 | a stored session stays stored through every section except a completed full request that does not report it |
| `CheckpointWindows.StoredIsReported` | crates/quine-harness/src/local.rs:410-434 | what merging sections store for a session is what enriching the reports of the completed ones one after another gives |
| `CheckpointWindows.SectionsExtractOnce` | crates/quine-harness/src/local.rs:410-434 | over merging sections whose history only grows, the completed ones extract every message up to the stored cursor exactly once; what the crashed ones extract comes on top, and nothing is skipped |
| `CheckpointWindows.CrashedWindowRunsAgain` | crates/quine-harness/src/local.rs:729-745 | a section that crashes while it commits leaves the stored session as it was, and what it extracted is extracted again, first, by the next section that is told at least as much |
| `CheckpointCycles.FullRequestDrops` | crates/quine-harness/src/local.rs:352-392 | a full request stores exactly the sessions the core reports and drops the others |
| `MemoryStores.DecisionForMessage` | crates/quine-harness/src/memory_store.rs:340-383 | which of create, update, tombstone or ignore a message asks for, and for which record |
| `MemoryRequests.RememberMarkers` | crates/quine-harness/src/memory_store.rs:513-523 | the markers remember this:, remember: and please remember: are tried in that order |
| `MemoryRequests.ForgetMarkers` | crates/quine-harness/src/memory_store.rs:525-535 | the markers forget this:, forget: and please forget: are tried in that order |
| `MemoryRequests.SaidIs` | crates/quine-harness/src/memory_store.rs:513-523 | a marker is read at its first place, behind any words, and what is behind it is trimmed |
| `MemoryRequests.NothingSaidIff` | crates/quine-harness/src/memory_store.rs:513-523 | a marker asks for nothing exactly when it is missing or only blanks follow its first place |
| `MemoryRequests.SpelledInAnyCase` | crates/quine-harness/src/memory_store.rs:537-545 | capitals make no difference to a marker |
| `MemoryRequests.PreferenceIs` | crates/quine-harness/src/memory_store.rs:547-555 | a text with my preference is, in any letter case, states what is behind its first colon |
| `MemoryRequests.PreferenceDecision` | crates/quine-harness/src/memory_store.rs:367-376 | a preference becomes a heuristic record, unless the fact is live already |
| `MemoryRequests.OthersAreIgnored` | crates/quine-harness/src/memory_store.rs:340-383 | only texts of the user are listened to, and of those only requests and preferences |
| `MemoryRequests.ExplicitIff` | crates/quine-harness/src/memory_store.rs:537-545 | a message counts as an explicit request exactly when it has one of the six markers with something behind it |
| `MemoryStores.ExtractWindow` | crates/quine-harness/src/memory_store.rs:231-290 | the fold over the window applies one decision to each message in order, and all of them are counted |
| `MemoryStores.PassAccounts` | crates/quine-harness/src/memory_store.rs:231-290 | created, updated, tombstoned and ignored add up to the length of the window, and the number of live records changes by created minus tombstoned |
| `MemoryRequests.NoScopeNoChange` | crates/quine-harness/src/memory_store.rs:231-290 | without a scope to write to, a pass changes nothing and ignores every message |
| `MemoryStores.PassKeepsCoherent` | crates/quine-harness/src/memory_store.rs:231-290 | every live record stays filed under the fact it states |
| `MemoryStores.DecisionIsDetermined` | crates/quine-harness/src/memory_store.rs:340-383 | where records are filed that way, the decision does not depend on the order in which they are looked through |
| `MemoryStores.RememberThenForget` | crates/quine-harness/src/memory_store.rs:513-535 | asking to remember a fact and then to forget it, in any wording with the same normal form, leaves the store without it and otherwise as it was |
| `MemoryRequests.RememberThenForgetInWords` | crates/quine-harness/src/memory_store.rs:513-535 | the same for texts that begin with remember: and forget: themselves |
| `MemoryStores.BuiltRecordStatesItsFact` | crates/quine-harness/src/memory_store.rs:557-577 | a new record is filed under the normal form of its own body |
| `MemoryStores.SameFactIffSameWords` | crates/quine-harness/src/memory_store.rs:579-595 | two texts are the same fact exactly when they have the same words in the same order, whatever the case, spacing and punctuation |
| `MemoryRequests.WordsRead` | crates/quine-harness/src/memory_store.rs:579-595 | a word is a run of letters and digits, in small letters, whatever separates it from the next |
| `MemoryRequests.NormalFormOf` | crates/quine-harness/src/memory_store.rs:579-595 | the words of a fact are joined by dashes |
| `Compaction.FindPreviousLiveSegmentStart` | crates/quine-core/src/compaction.rs:382-404 | the backward search for the start of the segment before a position: a user message, or the tool use in front of a run of results |
| `Compaction.FindLiveTailStart` | crates/quine-core/src/compaction.rs:362-380 | the start of the last k live segments, or nothing when an assistant text is met first |
| `LiveTails.LiveTailIs` | crates/quine-core/src/compaction.rs:358-404 | no segments are the end of the history; one more segment is a user's text, a tool use with its results, or stray results, and the tail before it; there is no segment exactly at the end of an empty history or of a text that is not the user's |
| `LiveTails.LastSegmentsAreLive` | crates/quine-core/src/compaction.rs:362-380 | the tail of k segments is exactly the last k segments, whole |
| `Compaction.FindProviderSafeTailStart` | crates/quine-core/src/compaction.rs:406-433 | the boundary repair, whose meaning is `RepairPicksGreatestSafe` |
| `CompactionRuns.SnapshotPlanExistsIff` | crates/quine-core/src/compaction.rs:435-464 | on a well-formed history there is a plan exactly when the summary reaches no further than the history, its position is the expected one, and no safe boundary lies between the live tail and it; the plan then keeps from the greatest safe boundary on, with the trimmed summary |
| `Compaction.ArchiveOldToolResults` | crates/quine-core/src/compaction.rs:250-296 | every unarchived tool result before the preserved tail is replaced by its rendering, everything else is kept, and archiving fails exactly when one of those results cannot be archived |
| `Compaction.RenderedIsMarked` | crates/quine-core/src/compaction.rs:298-322 | a rendered result carries the marker by which the next pass knows it |
| `LiveTails.ArchivingRewrites` | crates/quine-core/src/compaction.rs:250-322 | exactly the unmarked tool results before the preserved tail are rewritten, each to its tool's name, status, length, identifier and archive and the head and tail of its output; a result whose tool use is missing is named unknown |
| `LiveTails.ToolNameIs` | crates/quine-core/src/compaction.rs:466-476 | the name of a result's tool is the one given last to its identifier |
| `Compaction.ArchivingKeepsShape` | crates/quine-core/src/compaction.rs:250-296 | length, roles, identifiers and error flags are kept, everything from the preserved tail on is unchanged, and nothing before it still needs archiving |
| `Compaction.ArchivingTwiceIsOnce` | crates/quine-core/src/compaction.rs:250-296 | a second pass is the identity, wherever it would archive to |
| `CompactionRuns.RepairPicksGreatestSafe` | crates/quine-core/src/compaction.rs:406-433 | on a well-formed history the repair succeeds for every candidate within it and picks the greatest index at or before the candidate that is not a tool result |
| `CompactionRuns.LiveTailIsSafe` | crates/quine-core/src/compaction.rs:358-404 | the live tail, or the end of the history in its place, never starts inside a run of tool results |
| `CompactionRuns.SnapshotPlanKeepsUnsummarised` | crates/quine-core/src/compaction.rs:435-464 | the compacted history is the leading system message once, the summary, and the history from the plan's tail on; the tail starts no later than the message after the last summarised one and no later than the live segment |
| `CompactionRuns.LegacyPlanKeepsLiveTail` | crates/quine-core/src/compaction.rs:172-191 | the same shape with the live tail, and a safe boundary |
| `LiveTails.CompactedIs` | crates/quine-core/src/compaction.rs:141-159 | a compacted history is a leading system message, one message with the archive reference and the summary, and the tail, word for word |
| `LiveTails.LegacyKeepsSegment` | crates/quine-core/src/compaction.rs:172-191 | the summarizer's plan keeps the last segment whole, such as a running tool use with its results |
| `LiveTails.LegacyKeepsNothing` | crates/quine-core/src/compaction.rs:172-191 | after a text that is not the user's it keeps only the announcement |
| `CompactionRuns.CompactionKeepsWellFormed` | crates/quine-core/src/compaction.rs:141-159 | compacting at a safe boundary keeps every result behind the tool use that names it |
| `CompactionRuns.RunsStayWellFormed` | crates/quine-core/src/compaction.rs:141-464 | over every run of well-formed appends, archiving and compactions by either plan, every run of tool results stays directly behind the tool use that names its identifiers |
| `AnthropicMessages.ConvertMessages` | crates/quine-llm/src/anthropic.rs:212-294 | the loop that pushes messages and extends the last one in place; the system prompt is the last system text |
| `AnthropicMessages.PromptIsLast` | crates/quine-llm/src/anthropic.rs:212-224 | the system prompt is the text of the last system message that is a text, if there is one |
| `AnthropicMessages.OneConverts` | crates/quine-llm/src/anthropic.rs:216-290 | what each kind of message becomes |
| `AnthropicMessages.ConversionLosesNothingIff` | crates/quine-llm/src/anthropic.rs:212-294 | reading the output back gives all non-system messages in order exactly when each of them carries the content of its role |
| `AnthropicMessages.ResultsNeverAdjacent` | crates/quine-llm/src/anthropic.rs:266-290 | no two adjacent outputs are both messages of tool results, for every input |
| `AnthropicMessages.ConversionKeepsPairs` | crates/quine-llm/src/anthropic.rs:212-294 | for well-formed histories each message of tool results directly follows the assistant message whose tool uses name all its identifiers |
| `AnthropicMessages.ConvertedRunsKeepPairs` | crates/quine-llm/src/anthropic.rs:212-294 | that and the loss-free conversion hold for every history that appends, archiving and compactions can lead to |
| `TurnTagging.TurnTagger.Notify` | crates/quine-harness/src/server.rs:1810-1846 | a started turn becomes the session's active turn, its completion still carries the tag and ends it, and other events of the session carry the tag in between |
| `TurnTagging.NotifyAll` | crates/quine-harness/src/server.rs:1810-1879 | one subscriber's notifications, event by event, from a tagger of its own |
| `TurnTagging.EveryEventIsTagged` | crates/quine-harness/src/server.rs:1810-1867 | a subscriber gets every event once and in order; a start carries its own id, events of children and checkpoints none, and any other event the id of the turn its session has started and not completed |
| `TurnCollecting.TurnCollector.constructor` | crates/quine-cli/src/run.rs:248-254 | nothing is collected, and collecting starts at once only when no turn is expected |
| `TurnCollecting.TurnCollector.CompleteText` | crates/quine-cli/src/run.rs:294-308 | a finished text replaces the deltas before it; texts that are not blank are joined by line breaks |
| `TurnCollecting.TurnCollector.Interact` | crates/quine-cli/src/run.rs:330-366 | an interaction ends the wait with what there is, unless it is a permission that is approved automatically |
| `TurnCollecting.TurnCollector.Absorb` | crates/quine-cli/src/run.rs:282-390 | what the loop does with each kind of notification of its turn |
| `TurnCollecting.TurnCollector.Receive` | crates/quine-cli/src/run.rs:258-281 | other sessions and other turns are skipped, and the start of the turn clears what was collected |
| `TurnCollecting.CollectTurn` | crates/quine-cli/src/run.rs:256-408 | the loop over all notifications |
| `TurnCorrelation.TaggedCollectionIsSeen` | crates/quine-harness/src/server.rs:1810-1879 | for every interleaving in which the turn id is unique, the outcome is that of the collector on only this session's events from the start of the turn to its end, or to the start of another turn of the session |
| `TurnCorrelation.SeenIsTurnIff` | crates/quine-harness/src/server.rs:1814-1832 | that is the whole turn exactly when the session starts no other turn in it |
| `TurnCorrelation.TaggedCollectionIsTheTurn` | crates/quine-harness/src/server.rs:1810-1879 | with turns of the session that do not overlap this one, the outcome is that of the collector on the turn's own events |
| `TurnCorrelation.TurnIsWhole` | crates/quine-harness/src/server.rs:1848-1867 | a turn is everything its session reports between start and end, of whatever kind and with whatever other sessions report in between, and nothing else |
| `TurnCorrelation.OwnIsAll` | crates/quine-harness/src/server.rs:1848-1867 | of a turn that one session reports alone, nothing is left out |
| `TurnOutputs.ClientWaitsIff` | crates/quine-cli/src/run.rs:256-408 | the client waits for ever exactly when nothing it sees of its turn is an end, an error or an open question |
| `TurnOutputs.OverlapLosesTheEnd` | crates/quine-harness/src/server.rs:1814-1832 | for a turn that completes, with no error and no open question before, the client never gets an answer exactly when the session starts another turn in it; the turn's own events always give one |
| `TurnOutputs.ClientGetsItsTurn` | crates/quine-cli/src/run.rs:256-408 | whatever is interleaved, the client's answer is its own turn's finished texts, one per line, or else what was streamed, its tool calls in order and the figures of its end; it shows the first streamed text, each tool call and each question on the way |
| `TurnOutputs.ClientIsStopped` | crates/quine-cli/src/run.rs:330-373 | an error, or a question that is not approved automatically, ends the wait at once with what the turn has produced until then, whatever comes behind it |
| `TurnOutputs.InterleavedTurnIsAnswered` | crates/quine-cli/src/run.rs:256-408 | the same answer for a turn with any events of other sessions before, in between and after |
| `TurnOutputs.AnyTurnIsAnswered` | crates/quine-cli/src/run.rs:254-281 | a client that was told no turn takes the first completion of its session, with what the session reported since it last started a turn, whatever the tags and whatever other sessions do |
| `TurnOutputs.PermissionIff` | crates/quine-cli/src/interaction.rs:69-71 | a question counts as one for permission exactly when its label starts with permission: |

## Left out

- Transport: sockets, HTTP, channels, retries, timeouts and lag; messages arrive in order and none is lost.
- Encodings: JSON, YAML, UTF-8 and the lines inside a stream block are libraries, given as functions from text to values; a stored document is whole or torn, and text is a sequence of characters.
- Numbers: generations, sequence numbers, indexes and times are unbounded, without the wrap-around or saturation of `u64` and `usize`, except in the index arithmetic of a compaction plan, which saturates as the original does.
- Random and clock values: turn identifiers, session identifiers and time stamps are parameters; session identifiers are numbers, whose order stands for the order of their text.
- Heap: the scheduler's binary heap is a sequence from which a greatest entry under the code's own order is taken; its layout is not modelled.
- Scheduler replies: a reply channel that was dropped is ignored, as in the original; a receiver of actions that goes away is a limit on how many it accepts.
- Extraction and crashes: a section crashes between the steps of its commit, not in the middle of an extraction, whose own files are left out.
- Disk: creating, writing and renaming a file are the steps a crash can fall between; renames are atomic and happen in order; an operation that fails without a crash is a crash before it.
- Checkpoint format version: it is written but, as in the original, not checked when loading.
- Memory diagnostics, scope resolution, titles, keywords and the files of the memory records: only which records are live and the counts are modelled; whether writing is allowed is an arbitrary predicate, and a store that fails is a parameter.
- Session memory refresh: the snapshot a plan is made from is an arbitrary input.
- Summarizer prompts, thresholds and the archive's own files: the archive is a function that may fail.
- Preview text of archived results: cut by characters.
- Tree lines: indentation, identifier and highlight only; status, counts, dates and labels are left out. The records are looked up in sorted maps whose order the listing does not depend on.
- Tree listing without end: the method is given a bound on the levels it will reach; lists for which there is none make the original recurse without end, and `ListingEndsIff` says which these are.
- One subscriber: the server shares one map of active turns between connections; the claims are about a tagger of one's own.
- Automatic approval: the call that sends the approval is assumed to succeed; a failed call ends the client with an error.
- Notification parameters: missing fields of a malformed notification are not modelled; every notification has the fields its event gives it.
- OpenAI response stream: how its lines feed the reasoning splitter, the tag parser and the accumulator is not modelled, only those three.
- Anthropic response stream: a transport error in the middle of a stream is not modelled; usage is the count of output tokens.
- SessionTrees.SessionTree.RecordExit: whether the receiving side of a waiter still exists is not modelled; a send counts as a delivery.
- Checkpoint listing, session context snapshots, permission rules, tools, planner, command line, configuration and terminal output: they would add only easy members or are not part of these state machines.
