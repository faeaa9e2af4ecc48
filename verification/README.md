# Agent runtime model

A Dafny model of the parts of the agent runtime that edit transcripts, order events and keep
bounded memories, with proofs of what they promise over all inputs and all runs.
`dafny verify dfyconfig.toml` checks the whole project. One module per source file:

- `Purge` removes and rewrites messages and cascades to the other half of each tool-call/result
  pair. A specification without indexes or passes says which blocks survive; the algorithm (index
  maps, bounded fixpoint, deletion by descending index) is proved against it.
- `Mailbox` is the sub-agent mailbox as interleaved atomic steps: any number of `send` and `close`
  callers, a cancellable token, one receiver.
- `Attachments` is the content-addressed store: any number of concurrent ingests in any number of
  processes, with process death, reuse of process ids and loss of power between any two steps.
- `CallbackBridge` hides replayed stream events and pairs tool ends with their starts. The class
  `BridgeState` is proved against a function from one call to the events it causes.
- `LoopGuard` blanks comments and literals of source text and decides whether a position lies in a
  loop of its function, for every text, terminated and balanced or not.
- `RecentWindows` keeps the last distinct files read and media attached, and rebuilds the former
  from a transcript.
- `Capacity` is the guardrail controller: window statistics, decisions, cooldowns.
- `ShellTail` shows the last characters of a byte buffer holding UTF-8 (section 3 of RFC 3629), which
  `Utf8` defines.
- `VerdictLog` appends to a log that is cut back to its newest records. `VerdictRecords` says what is
  read from its bytes, and `VerdictViews` what a reader sees over runs in which any append may be torn.
- `CycleBriefing` prints a briefing between tags and extracts it again.
- `Texts`, `Sequences` and `Wrappers` hold what these share.

What the program takes from elsewhere is a parameter of the statements: the replacement an
operation makes of a text, the hash of attachments, which characters are white space or
alphanumeric, whether a header looks like a function or a loop, the stripping of hidden
characters, the JSON codec, the square root, the map from a slack profile to a risk band.

## What the proofs found

- Purge: pairs stay whole when call ids and result ids are each unique. With repeated ids they may
  not; `NeverSplitsIff` gives the exact condition on the history, and `RepeatedIdLeavesAnOrphan` a
  three-message history. The fixpoint needs two rounds at most, so its cap never stops it.
- Mailbox: the comment on `new` says that dropping the last sender cancels the token
  (crates/agent-runtime/src/mailbox.rs:205-208). It does not: `CancelledIff` shows that the token is
  cancelled exactly by a cancellation from outside or by a `close`, and `EndsUncancelled` is a run in
  which the senders go, `recv` returns None and the token is not cancelled.
- Shell tail: the `...` marker is missing from some tails that were cut (`CutWithoutMarker`);
  `TailIsLastChars` with `Marked` says exactly when it appears. The characters shown are always right.
- Capacity: one intervention per turn needs a host that intervenes on an observation of the same
  turn. After an error the host may decide on an older snapshot
  (crates/agent-runtime/src/engine/capacity_flow.rs:820-845); then the turn's own observation, or a
  turn start, forgets the intervention. `StaleSnapshotIntervenesTwice` is a run with a replan and a
  refresh in one turn; `MarkBlocksTurnIff` gives the exact condition.
- Read files: the comment on the rebuild says it behaves exactly like the live path
  (crates/agent-runtime/src/session.rs:428-434). The live path records each result with the arguments of
  its own call (crates/agent-runtime/src/engine/turn/batches.rs:1139), the rebuild with those of the last
  call of the transcript under its id. The two record the same exactly when these have the same arguments
  (`RebuildFollowsLiveIff`, `RebuildIsReplayIff`). That holds when read ids are unique and results follow
  their calls (`UsualTranscript`). It fails when a later call reuses an id (`ReusedIdDiffers`), when two
  calls are open under one id (`OpenCallsShareAnId`), and when a call comes to have the id of an earlier
  result of another tool (`EarlyResultDiffers`). A preview exceeds its limit iff the text does and the
  limit is below three (`SummaryFitsIff`).
- Callback bridge: a retry may say something in a block whose completion the host has already heard. When
  it does is `LateOverAttemptsIff`; `EmptyBlockIsRetried` is the case of an attempt that closed an empty
  block before it died (crates/agent-runtime/src/engine/turn/stream.rs:453-459).
- Verdict log: the comment on loading says that a torn last line must not hide the rest
  (crates/agent-runtime/src/evolution_log.rs:189-190). It can. A line torn inside a character leaves bytes
  that are not UTF-8, and then every later load gives nothing and no rotation cuts anything, for ever
  (`UnreadableForever`; `UnreadableAfterTear` is such a run, from any record with a character outside
  ASCII). A line torn elsewhere hides the record appended next, which runs on from it, and one torn just
  before its newline is then lost too (`TearCostsTwo`, `TornNewlineLosesTwo`), until a rotation cuts and so
  repairs the log (`RotationHeals`). `AppendReadsBackIff` says exactly when an appended record reads back,
  and `LogFollowsView` what is read back over any run.
- Cycle briefing: extraction returns the printed briefing iff it holds no close tag, in any letter
  case (`RoundTripIff`).

## Model

| member | source | states |
|---|---|---|
| Purge.NeverSplitsAPair | crates/agent-runtime/src/purge.rs:418-497 | with unique call ids and unique result ids, both halves of a pair survive a purge or neither does |
| Purge.PurgeKeepsPairsWhole | crates/agent-runtime/src/purge.rs:343-416 | the same over a whole run of any operation list, in terms of the ids found in the output |
| Purge.RemovesTheLeast | crates/agent-runtime/src/purge.rs:383-397 | with unique ids a block vanishes iff its message was named or its counterpart lies in a named message |
| Purge.VanishesIff | crates/agent-runtime/src/purge.rs:398-402 | a message vanishes iff it was named or none of its blocks survives |
| Purge.OutputHoldsSurvivors | crates/agent-runtime/src/purge.rs:389-409 | a pairing id occurs in the output iff one of its occurrences in the input survives |
| Purge.PurgeIsSelection | crates/agent-runtime/src/purge.rs:389-409 | the output is a selection of the history: increasing indices hit exactly the messages of which something survives, each with its role, and in each increasing positions hit exactly the surviving blocks, unchanged |
| Purge.HoldsIff | crates/agent-runtime/src/purge.rs:439-451 | an id is held on a side iff some tool call has it, or some tool result answers it |
| Purge.NeverSplitsIff | crates/agent-runtime/src/purge.rs:436-496 | for any history, repeated ids included: no operation list splits an id iff its shadowed calls and shadowed results lie in the same messages |
| Purge.SplitsIff | crates/agent-runtime/src/purge.rs:436-496 | exactly which sets of named messages split an id |
| Purge.NothingLeftIff | crates/agent-runtime/src/purge.rs:436-496 | one side of an id is left with nothing iff its shadowed occurrences and one half of its last pair were named |
| Purge.RepeatedIdLeavesAnOrphan | crates/agent-runtime/src/purge.rs:439-451 | a history with a repeated call id and a removal that leaves a call without its result |
| Purge.RewritingKeepsShape | crates/agent-runtime/src/purge.rs:363-379 | replacements change no message count, role, block count or pairing id |
| Purge.RewritesAreLocal | crates/agent-runtime/src/purge.rs:369-378 | each block is rewritten by the operations addressed to it, in order, whatever the others do |
| Purge.ReplacementIsText | crates/agent-runtime/src/purge.rs:499-517 | reading a replaced block gives the new text; the last replacement wins; other block kinds are untouched |
| Purge.ReplaceCountIs | crates/agent-runtime/src/purge.rs:369-378 | the replaced count by the operations' own ids and positions |
| Purge.ApplyOperations | crates/agent-runtime/src/purge.rs:354-381 | the first pass rewrites the addressed blocks, names the addressed messages and counts the replacements |
| Purge.SameShapeSameStripped | crates/agent-runtime/src/purge.rs:383-387 | what the cascade strips depends on the pairing ids alone |
| Purge.BuildIndexes | crates/agent-runtime/src/purge.rs:434-451 | the two maps hold the last position of every id on each side and nothing else |
| Purge.StripCounterparts | crates/agent-runtime/src/purge.rs:469-492 | one pass, in any iteration order, adds exactly the counterparts of gone blocks, and reports a change iff it added one |
| Purge.RoundClosure | crates/agent-runtime/src/purge.rs:464-496 | the first round reaches the closure and a later one adds nothing |
| Purge.CascadeToolPairRemovals | crates/agent-runtime/src/purge.rs:425-497 | the cascade strips exactly the specified blocks, in at most two rounds |
| Purge.RetainBlocks | crates/agent-runtime/src/purge.rs:391-396 | the retain loop keeps, in order, exactly the positions not dropped |
| Purge.StripBlocks | crates/agent-runtime/src/purge.rs:389-397 | every message loses exactly its stripped blocks and keeps its role and the order of the rest; named messages are left whole |
| Purge.Descending | crates/agent-runtime/src/purge.rs:403-404 | the indices of the set, each once, in descending order |
| Purge.DeleteDescending | crates/agent-runtime/src/purge.rs:406-409 | deleting by descending index is an order-preserving filter, one message shorter for each index |
| Purge.ExecutePurgeOperations | crates/agent-runtime/src/purge.rs:349-416 | the result is the specified transcript and such a selection of the rewritten history; input length is output length plus the removed count, and the replaced count is the number of replacements that address a block there is |
| Purge.Named | crates/agent-runtime/src/purge.rs:357-362 | an index is named iff it exists and some removal, by its 1-based saturated id, addresses it |
| Mailbox.StepKeepsInv | crates/agent-runtime/src/mailbox.rs:245-336 | every step of every sender, closer, the receiver and the environment keeps lock, numbering, closing and mail consistent |
| Mailbox.DeliversWithoutGaps | crates/agent-runtime/src/mailbox.rs:245-265 | in every interleaving the receiver gets 1, 2, 3, …; taken, pending and queued mail together are what was accepted, in order |
| Mailbox.AcceptedWereSent | crates/agent-runtime/src/mailbox.rs:258-260 | in every run each accepted envelope carries the message of a call of `send`, and no call is the origin of two |
| Mailbox.ReturnedIsOwn | crates/agent-runtime/src/mailbox.rs:245-265 | a send that returns a number returns that of the last accepted envelope, with the message of its own call |
| Mailbox.RefusedOnlyIfClosed | crates/agent-runtime/src/mailbox.rs:255-262 | in every run a send returns None only if the mailbox is closed or the receiver closed the channel |
| Mailbox.SendGoesThrough | crates/agent-runtime/src/mailbox.rs:245-265 | a send that gets the lock while both are open enqueues its message under the next number, moves the watermark and returns |
| Mailbox.CloseGoesThrough | crates/agent-runtime/src/mailbox.rs:280-292 | a close that gets the lock closes, cancels and returns, and touches no mail |
| Mailbox.DrainHandsOutAll | crates/agent-runtime/src/mailbox.rs:308-312 | a drain hands out everything accepted up to the moment it found the channel empty |
| Mailbox.HasPendingIff | crates/agent-runtime/src/mailbox.rs:302-306 | `has_pending` returns true iff something accepted was not handed out |
| Mailbox.RecvReturns | crates/agent-runtime/src/mailbox.rs:316-336 | in every run a `recv` that returns hands out the oldest envelope not taken, or ends the stream when all is |
| Mailbox.WatermarkIsLastAccepted | crates/agent-runtime/src/mailbox.rs:258-264 | whenever the publish lock is free the watermark is the last accepted number, and the sends that returned a number are exactly the accepted ones |
| Mailbox.NeverGoesBack | crates/agent-runtime/src/mailbox.rs:183-187 | over a run the watermark never decreases and deliveries only extend |
| Mailbox.CloseIsFinal | crates/agent-runtime/src/mailbox.rs:280-292 | once a close has returned nothing is ever accepted again and the token stays cancelled |
| Mailbox.EndIsFinal | crates/agent-runtime/src/mailbox.rs:314-336 | `recv` returns None only after all that was accepted was handed out, and after that nothing is accepted or delivered |
| Mailbox.CancelledIff | crates/agent-runtime/src/mailbox.rs:205-231 | in every run the token is cancelled iff it was cancelled from outside or by a `close`; dropping senders never does it, against the comment |
| Mailbox.EndsUncancelled | crates/agent-runtime/src/mailbox.rs:314-330 | a run from a new mailbox that ends the stream with the token not cancelled |
| Mailbox.CancelledRecvAnswers | crates/agent-runtime/src/mailbox.rs:316-328 | once cancelled, a `recv` returns by itself: the oldest envelope not taken, or None exactly when there is none |
| Mailbox.CancelledMailboxDrains | crates/agent-runtime/src/mailbox.rs:320-336 | a cancelled mailbox can always be emptied by `recv` calls alone, which then end the stream |
| Mailbox.SyncKeepsMail | crates/agent-runtime/src/mailbox.rs:296-312 | moving mail to the buffer and draining it keep the order of all accepted mail |
| Mailbox.ActionKeepsSequence | crates/agent-runtime/src/mailbox.rs:255-264 | each action under the publish lock keeps numbers, watermark and closing in step |
| Attachments.RenderInjective | crates/agent-runtime/src/attachments.rs:307-335 | distinct stored and temporary names print as distinct file names |
| Attachments.RenderIs | crates/agent-runtime/src/attachments.rs:307-335 | the two kinds of names, in one piece |
| Attachments.StepKeepsInv | crates/agent-runtime/src/attachments.rs:298-348 | every step, crash and power loss keeps each content-addressed name on complete durable contents |
| Attachments.StoredContentIsComplete | crates/agent-runtime/src/attachments.rs:324-341 | in every reachable state a file named by a hash holds bytes with that hash |
| Attachments.SuccessNamesItsData | crates/agent-runtime/src/attachments.rs:306-318 | a successful ingest returned the name made of the hash of the data it was begun with and of its extension, and that name holds bytes with that hash |
| Attachments.DeduplicatesIff | crates/agent-runtime/src/attachments.rs:307-318 | an ingest is deduplicated iff its name is in the store when it looks, and then changes nothing |
| Attachments.OpenFileIsOwn | crates/agent-runtime/src/attachments.rs:330-338 | while writing, an ingest has what it has written under its own temporary name |
| Attachments.RenameStoresTheData | crates/agent-runtime/src/attachments.rs:338-358 | a rename stores exactly the data, durably, and leaves no temporary name |
| Attachments.CleanupRemovesOwn | crates/agent-runtime/src/attachments.rs:342-348 | an ingest that failed takes its own temporary name away and no other |
| Attachments.CallsEnd | crates/agent-runtime/src/attachments.rs:309-358 | every call brings an ingest nearer to its end |
| Attachments.StoredContentStays | crates/agent-runtime/src/attachments.rs:336-348 | short of a power loss nothing ever leaves the store |
| Attachments.IngestCanAct | crates/agent-runtime/src/attachments.rs:330-341 | no ingest gets stuck: in every reachable state its next call is possible |
| Attachments.PowerLossKeepsDisk | crates/agent-runtime/src/attachments.rs:336-341 | syncing before the rename is enough: whatever directory state and contents a power loss leaves, stored names hold complete contents |
| Attachments.ActKeepsNonces | crates/agent-runtime/src/attachments.rs:326-335 | no two live ingests of one process share a nonce |
| Attachments.OthersUndisturbed | crates/agent-runtime/src/attachments.rs:327-329 | a call of one ingest leaves what every other ingest relies on |
| CallbackBridge.AnnouncedOnce | crates/agent-runtime/src/callback_bridge.rs:430-445 | over the bridge's life the host sees exactly the first announcement of each tool id, made at stream or execution time |
| CallbackBridge.RetriesAreHidden | crates/agent-runtime/src/callback_bridge.rs:563-622 | within a step the host hears exactly what was streamed, in order, less repeated starts and completions |
| CallbackBridge.ContentsAreKept | crates/agent-runtime/src/callback_bridge.rs:577-585 | leaving out repeats leaves out no content delta and keeps their order |
| CallbackBridge.LateContentIsHeardIff | crates/agent-runtime/src/callback_bridge.rs:132-138 | the host hears content of a block after its completion iff some was streamed after a completion of it |
| CallbackBridge.LateOverAttemptsIff | crates/agent-runtime/src/callback_bridge.rs:116-138 | over attempts each of which is silent in a block once it completed it: iff one attempt completed the block and a later one says something in it |
| CallbackBridge.EmptyBlockIsRetried | crates/agent-runtime/src/engine/turn/stream.rs:453-464 | an attempt that closes an empty block, retried with content: the host hears start, completion, content |
| CallbackBridge.RetriedStreamIsWellFormed | crates/agent-runtime/src/callback_bridge.rs:116-138 | any number of attempts, each starting blocks before speaking of them, reach the host with one start first, at most one completion, and exactly the content deltas of all attempts in order, late ones where they were late |
| CallbackBridge.StepStartsClean | crates/agent-runtime/src/callback_bridge.rs:690-703 | each step starts with clean tables, whatever happened before |
| CallbackBridge.EndCarriesItsStart | crates/agent-runtime/src/callback_bridge.rs:456-508 | for every list of calls an end with a matching start carries that start's id and replays its input, and one without says so |
| CallbackBridge.EachEndIsTold | crates/agent-runtime/src/callback_bridge.rs:500-508 | for every list of calls the host is told of one completion for each end, in order, with its tool and outcome, under the id of its matching start or as unpaired |
| CallbackBridge.NewsIsTold | crates/agent-runtime/src/callback_bridge.rs:510-534 | the host is told exactly of the refused mode switches, each by tool and mode, and of the steps, in order |
| CallbackBridge.EachToolRunsItsHook | crates/agent-runtime/src/callback_bridge.rs:447-549 | one hook runs for each start and each end, in the order of the calls: with name and input of the start, with outcome of the end and input of its matching start or null |
| CallbackBridge.BeforesAreStarts | crates/agent-runtime/src/callback_bridge.rs:447-452 | the hooks before tools are those of the starts, one for one and in order |
| CallbackBridge.OpenStartsAreOpen | crates/agent-runtime/src/callback_bridge.rs:139-145 | every entry of the pending stack is a start still open, at the depth its place says |
| CallbackBridge.OpenIsOnStack | crates/agent-runtime/src/callback_bridge.rs:139-145 | every start still open is on the pending stack, at its depth |
| CallbackBridge.AbortedStepsDoNotPair | crates/agent-runtime/src/callback_bridge.rs:695-702 | pairing in a step does not depend on anything before it |
| CallbackBridge.RefusalIff | crates/agent-runtime/src/callback_bridge.rs:392-406 | a mode switch is reported iff the tool is mode-gated and the refusal names plan mode in any letter case, and as the switch that tool makes |
| CallbackBridge.BridgeState.OnToolStart | crates/agent-runtime/src/callback_bridge.rs:424-453 | new state, events and hooks are those specified for a start |
| CallbackBridge.BridgeState.OnToolEnd | crates/agent-runtime/src/callback_bridge.rs:465-550 | new state, events and hooks are those specified for an end, paired or not |
| CallbackBridge.BridgeState.OnStreamDelta | crates/agent-runtime/src/callback_bridge.rs:562-639 | new state and events are those specified for a delta |
| CallbackBridge.BridgeState.OnLlmStart | crates/agent-runtime/src/callback_bridge.rs:673-705 | the step is announced and its tables are cleared |
| CallbackBridge.Drive | crates/agent-runtime/src/callback_bridge.rs:408-705 | a bridge driven by any calls sends exactly the specified trace if it is connected, and runs exactly the specified hooks of those installed |
| LoopGuard.StrippedKeepsOffsets | scripts/verify-single-turn-loop.py:62-70 | blanking keeps the length and every newline and changes characters only to spaces |
| LoopGuard.NothingLeft | scripts/verify-single-turn-loop.py:72-99 | the blanked text holds no comment and no literal at any position |
| LoopGuard.LineCommentIs | scripts/verify-single-turn-loop.py:73-77 | a line comment runs up to the newline that ends its line, or to the end |
| LoopGuard.BlockCommentIs | scripts/verify-single-turn-loop.py:78-82 | a block comment runs to just after the first closer that follows its opener, or to the end |
| LoopGuard.RawStringIs | scripts/verify-single-turn-loop.py:83-88 | a raw string runs to just after the first quote with as many hashes as opened it, or to the end |
| LoopGuard.StringIs | scripts/verify-single-turn-loop.py:89-94 | a string runs to just after the quote that closes it, or to the end |
| LoopGuard.CharLiteralIs | scripts/verify-single-turn-loop.py:95-97 | a character literal is one character or an escape pair between single quotes; any other single quote starts nothing |
| LoopGuard.StrippedIsStable | scripts/verify-single-turn-loop.py:62-100 | blanking twice is blanking once |
| LoopGuard.ClosesAtFirstUnescapedQuote | scripts/verify-single-turn-loop.py:89-94 | a string closes at the first quote that an even number of backslashes precedes |
| LoopGuard.After | scripts/verify-single-turn-loop.py:78-88 | a token ends just after the first closer from its contents on, or with the text |
| LoopGuard.BlankRange | scripts/verify-single-turn-loop.py:67-70 | exactly the range, as far as it exists, becomes spaces but for its newlines |
| LoopGuard.SkipString | scripts/verify-single-turn-loop.py:90-92 | the scan over escape pairs finds the specified closing quote |
| LoopGuard.NextToken | scripts/verify-single-turn-loop.py:73-99 | the branch taken at a position finds the token that starts there, or that none does |
| LoopGuard.BlankTokens | scripts/verify-single-turn-loop.py:72-100 | the in-place loop shows exactly the characters outside tokens |
| LoopGuard.StripCommentsAndStrings | scripts/verify-single-turn-loop.py:62-100 | the result is the specified blanked text |
| LoopGuard.BackScanIsStack | scripts/verify-single-turn-loop.py:122-142 | counting depth backwards gives the answer of a forward stack of open braces, balanced or not |
| LoopGuard.DecideIff | scripts/verify-single-turn-loop.py:135-141 | the answer is true iff the innermost enclosing header that is a function or a loop is a loop |
| LoopGuard.OpenMeansEncloses | scripts/verify-single-turn-loop.py:124-135 | the forward stack holds exactly the braces from which on openings always outnumber closings |
| LoopGuard.HeaderStart | scripts/verify-single-turn-loop.py:136-137 | a header starts right after the last semicolon or brace before it |
| LoopGuard.HeaderIs | scripts/verify-single-turn-loop.py:136-137 | a header is all that stands between its brace and the last semicolon or brace before it |
| LoopGuard.EnclosingLoop | scripts/verify-single-turn-loop.py:122-142 | the scan gives the decision over the enclosing braces |
| RecentWindows.LatestHolds | crates/agent-runtime/src/session.rs:392-394 | the specification holds exactly the paths ever recorded, each with the entry recorded last |
| RecentWindows.LatestIsSelection | crates/agent-runtime/src/session.rs:392-394 | the specification holds the last recording of each path, in the order of these recordings |
| RecentWindows.LatestIsDistinct | crates/agent-runtime/src/session.rs:371-372 | no two entries share a path and no path is lost |
| RecentWindows.LatestExtends | crates/agent-runtime/src/session.rs:415-422 | removing the old entry of a path and pushing the new one is what recording means |
| RecentWindows.WindowOfMore | crates/agent-runtime/src/session.rs:381-389 | trimming early loses nothing: recording on the trimmed queue gives the window of the whole history |
| RecentWindows.BatchesDoNotMatter | crates/agent-runtime/src/session.rs:373-390 | how recordings are split into batches does not change the queue |
| RecentWindows.RemoveExisting | crates/agent-runtime/src/session.rs:415-417 | removing the first entry of a path removes all there is of it |
| RecentWindows.TrimFront | crates/agent-runtime/src/session.rs:423-425 | popping from the front leaves the last entries |
| RecentWindows.RecentMediaQueue.RecordMediaAttachments | crates/agent-runtime/src/session.rs:373-390 | the queue is the last distinct paths of everything recorded, this batch included |
| RecentWindows.RecentReadFiles.RecordReadFileResult | crates/agent-runtime/src/session.rs:404-426 | the queue is the last distinct reads of everything recorded, each with its latest preview; a call without a path adds nothing |
| RecentWindows.SummaryFitsIff | crates/agent-runtime/src/session.rs:513-521 | a text within the limit is its own preview; of a longer one as much is kept as leaves room for the ellipsis, and the limit is respected iff there is that room |
| RecentWindows.RebuildFollowsLiveIff | crates/agent-runtime/src/session.rs:428-511 | two passes by id map record, item for item, what live recording did iff each result finds in the whole transcript the arguments of its own call |
| RecentWindows.RebuildIsReplayIff | crates/agent-runtime/src/session.rs:428-511 | where results follow their calls and no call without a path takes over an id, that is also exactly when the two agree on the whole |
| RecentWindows.LostReadTurnsUp | crates/agent-runtime/src/session.rs:408-410 | where a call without a path takes over an id, a read lost at one result can turn up at another, so that the whole agrees though no result does |
| RecentWindows.RebuildIsReplay | crates/agent-runtime/src/session.rs:436-511 | under that condition the rebuild of a transcript records what live recording did |
| RecentWindows.UsualTranscript | crates/agent-runtime/src/session.rs:428-434 | transcripts with unique read ids and results after their calls meet the condition |
| RecentWindows.EarlyResultDiffers | crates/agent-runtime/src/session.rs:442-479 | another tool's result before a read call with its id is rebuilt as a read, though nothing was recorded live |
| RecentWindows.ReusedIdDiffers | crates/agent-runtime/src/session.rs:442-479 | a call that reuses the id of an earlier result makes the rebuilt queue hold its path and the live queue the path that was read |
| RecentWindows.OpenCallsShareAnId | crates/agent-runtime/src/session.rs:442-479 | with two calls open under one id the rebuild has the second path twice, where both were recorded live |
| RecentWindows.CollectCalls | crates/agent-runtime/src/session.rs:442-457 | the first pass holds the arguments of every read call of an assistant, the last one for a repeated id |
| RecentWindows.RebuiltReadsAre | crates/agent-runtime/src/session.rs:442-509 | for every transcript, by its own fields: the unfailed results of user messages whose last call with their id has a path are rebuilt, one recording each and in order, and nothing else is |
| RecentWindows.EntriesAreRecorded | crates/agent-runtime/src/session.rs:459-509 | each entry of the rebuilt queue has path, arguments and preview from such a result and its call |
| RecentWindows.ItemAt | crates/agent-runtime/src/session.rs:444-464 | the transcript is gone through block by block, message after message |
| RecentWindows.JoinFromFront | crates/agent-runtime/src/session.rs:488-494 | text blocks are joined with newlines, absent ones passed over |
| RecentWindows.RebuildRecentReadFiles | crates/agent-runtime/src/session.rs:436-511 | the rebuilt queue is the window of those recordings, each entry of it is one, and it is the window of the reads recorded live where those agree |
| Capacity.OnePassVariance | crates/agent-runtime/src/capacity.rs:668-674 | mean square less squared mean is the mean squared deviation |
| Capacity.VarianceNonNegative | crates/agent-runtime/src/capacity.rs:672-673 | the variance is never negative, so clamping it changes nothing |
| Capacity.ProfileIsSound | crates/agent-runtime/src/capacity.rs:637-683 | final value last, ratio the share of values at or below zero, minimum attained and least, drop that of the last step if it was one |
| Capacity.VolatilityIsDeviation | crates/agent-runtime/src/capacity.rs:668-674 | the volatility is the nonnegative number whose square is the mean squared deviation of the steps |
| Capacity.Accumulate | crates/agent-runtime/src/capacity.rs:645-661 | the single pass computes minimum, violations, and sum and square sum of the steps |
| Capacity.VolatilityFrom | crates/agent-runtime/src/capacity.rs:668-674 | the volatility of the definition from the accumulators |
| Capacity.ComputeProfile | crates/agent-runtime/src/capacity.rs:637-683 | the single-pass routine computes the profile of the definitions |
| Capacity.PushWindow | crates/agent-runtime/src/capacity.rs:630-635 | the window is the last values, the new one included |
| Capacity.WindowIsLastObservations | crates/agent-runtime/src/capacity.rs:475-537 | in every run the three windows hold slack, tool count and reference count of the last accepted observations |
| Capacity.SnapshotIs | crates/agent-runtime/src/capacity.rs:475-567 | an accepted observation takes a snapshot of the window with it, severe iff some value in it is too low or too many are at or below zero; rejected ones change no window and no snapshot |
| Capacity.CooldownsHold | crates/agent-runtime/src/capacity.rs:361-407 | in every run, with decisions dropped and marks repeated, two refreshes, and two replans, are more than their cooldown apart |
| Capacity.OneInterventionPerTurn | crates/agent-runtime/src/capacity.rs:349-359 | in every run that intervenes only on observations of its own turn, with marks repeated or not, no turn has two interventions |
| Capacity.MarkBlocksTurnIff | crates/agent-runtime/src/capacity.rs:418-464 | whatever else happens in the turn, a marked intervention blocks the rest of it iff the last observation was of that turn or nothing could be decided anyway |
| Capacity.StaleSnapshotIntervenesTwice | crates/agent-runtime/src/capacity.rs:494-499 | a run with two interventions in one turn, the first on a snapshot of an earlier one |
| Capacity.CapacityController.Decide | crates/agent-runtime/src/capacity.rs:311-416 | action, reason and flag are those specified, and the state does not change |
| Capacity.CapacityController.Observe | crates/agent-runtime/src/capacity.rs:475-567 | state and snapshot are those specified, rejected observations included |
| Capacity.CapacityController.MarkTurnStart | crates/agent-runtime/src/capacity.rs:418-447 | the per-turn counters are reset iff the turn differs from the last observed one |
| Capacity.CapacityController.MarkInterventionApplied | crates/agent-runtime/src/capacity.rs:449-464 | the turn is blocked and the action's own memory is set, nothing else |
| Utf8.DecodeInvertsEncode | crates/agent-runtime/src/shell_manager.rs:2100 | lossy decoding gives back every encoded text |
| Utf8.EncodeIs | crates/agent-runtime/src/shell_manager.rs:2092-2100 | the encoded forms, by ranges of bytes and the bits they carry |
| Utf8.TornCharacterIsReplaced | crates/agent-runtime/src/shell_manager.rs:2100 | what is left of a character cut short decodes to one replacement, and what follows as if it stood alone |
| Utf8.StrayByteIsReplaced | crates/agent-runtime/src/shell_manager.rs:2094-2100 | a byte that starts no character is replaced by itself |
| Utf8.SnapFindsBoundary | crates/agent-runtime/src/shell_manager.rs:2094-2099 | skipping continuation bytes stops at the first character boundary, within three bytes |
| Utf8.ValidOfParts | crates/agent-runtime/src/evolution_log.rs:146-150 | text appended between characters makes valid bytes iff both parts are valid |
| Utf8.CutIsValidIff | crates/agent-runtime/src/evolution_log.rs:146-150 | cutting valid bytes leaves them valid iff the cut is between characters |
| ShellTail.WindowHoldsWholeChars | crates/agent-runtime/src/shell_manager.rs:2092-2100 | the window decodes to a suffix of the text, nothing replaced |
| ShellTail.WindowHoldsLastChars | crates/agent-runtime/src/shell_manager.rs:2092-2093 | the window always holds the last m characters |
| ShellTail.DecodedIff | crates/agent-runtime/src/shell_manager.rs:2092-2100 | a character is decoded iff it and all after it fit in the window |
| ShellTail.TailIsLastChars | crates/agent-runtime/src/shell_manager.rs:2089-2117 | exactly the last m characters are shown, with the marker iff one more fits in the window |
| ShellTail.CutWithoutMarker | crates/agent-runtime/src/shell_manager.rs:2104-2116 | a text that is cut without the marker |
| ShellTail.TailFromBuffer | crates/agent-runtime/src/shell_manager.rs:2089-2102 | the buffer's length and, for every valid buffer, its last characters |
| VerdictRecords.RenderReadsBack | crates/agent-runtime/src/evolution_log.rs:157-161 | a log written record by record reads back as those records |
| VerdictRecords.OtherLinesAreSkipped | crates/agent-runtime/src/evolution_log.rs:189-200 | blank lines and lines that are no record are passed over, and those after them are not |
| VerdictRecords.ReturnIsDropped | crates/agent-runtime/src/evolution_log.rs:195-196 | a return before the newline is no part of a line |
| VerdictLog.KeptIsUnique | crates/agent-runtime/src/evolution_log.rs:162-176 | the retention rule determines what is kept |
| VerdictLog.Retain | crates/agent-runtime/src/evolution_log.rs:162-182 | the longest end piece that fits in the budget is kept, in order, and always the newest record |
| VerdictLog.VerdictLogFile.RotateIfOversized | crates/agent-runtime/src/evolution_log.rs:139-187 | an oversized log becomes what the rule keeps of its parsable records; a failed rotation leaves it |
| VerdictLog.VerdictLogFile.AppendRecord | crates/agent-runtime/src/evolution_log.rs:131-133 | rotation, then one line at the end, or what a crash lets through of it |
| VerdictRecords.AppendReadsBackIff | crates/agent-runtime/src/evolution_log.rs:189-200 | for any contents, exactly when an appended record is loaded beside all that was loaded before: always at a line boundary of valid UTF-8, never where the bytes are not |
| VerdictRecords.TornNewlineLosesTwo | crates/agent-runtime/src/evolution_log.rs:189-200 | a line torn before its newline is loaded until the next append, then neither record is |
| VerdictLog.UnreadableForever | crates/agent-runtime/src/evolution_log.rs:146-156 | once the log is not UTF-8 every later load gives nothing and no append is ever cut, so it grows by all that is written |
| VerdictLog.UnreadableAfterTear | crates/agent-runtime/src/evolution_log.rs:189-200 | a run of a torn and a whole append after which a log ending at a line boundary loads as nothing |
| VerdictLog.TearIsCleanIff | crates/agent-runtime/src/evolution_log.rs:146-150 | an append leaves a valid log valid iff it is whole or torn between two characters |
| VerdictViews.LogFollowsView | crates/agent-runtime/src/evolution_log.rs:112-200 | in every run, appends torn anywhere and rotations failing, what is loaded is what a four-state view of the log's end says |
| VerdictViews.TakenIff | crates/agent-runtime/src/evolution_log.rs:112-134 | a record is added to those loaded iff the log ended at a boundary and all of it but the newline was written |
| VerdictViews.TearCostsTwo | crates/agent-runtime/src/evolution_log.rs:112-134 | a tear between characters costs the torn record and the next, and the log is whole again |
| VerdictLog.RotationHeals | crates/agent-runtime/src/evolution_log.rs:157-186 | a rotation that cuts leaves whole lines and exactly the kept records, whatever valid UTF-8 the log held |
| VerdictLog.LogHoldsNewest | crates/agent-runtime/src/evolution_log.rs:105-133 | in every run of whole appends from any valid contents at a line boundary, failed rotations included, the records loaded are the newest of all, in order |
| VerdictLog.AppendIsBounded | crates/agent-runtime/src/evolution_log.rs:131-187 | an append whose rotation works leaves at most max(cap, L) + L, from any contents but oversized ones that are not UTF-8, which it only lengthens |
| VerdictLog.LogIsBounded | crates/agent-runtime/src/evolution_log.rs:136-187 | in every such run the log has at most max(cap, L) + L after each append whose rotation works |
| VerdictLog.NothingDroppedWithinCap | crates/agent-runtime/src/evolution_log.rs:143-145 | from any contents, nothing is dropped while the log has not outgrown its cap |
| CycleBriefing.RoundTripIff | crates/agent-runtime/src/cycle_manager.rs:578-592 | none is printed iff the briefing is blank; extraction gives it back trimmed iff it holds no close tag in any letter case |
| CycleBriefing.WithoutOpenTag | crates/agent-runtime/src/cycle_manager.rs:301-320 | a text without an open tag, in any letter case, is returned trimmed |
| CycleBriefing.FromOpenTag | crates/agent-runtime/src/cycle_manager.rs:305-319 | otherwise what follows the first open tag is, up to the first close tag in it or to the end |
| CycleBriefing.ExtractedFromText | crates/agent-runtime/src/cycle_manager.rs:305-321 | of any printed briefing extraction returns all, or what stands before its first close tag |
| CycleBriefing.TagFound | crates/agent-runtime/src/cycle_manager.rs:312-316 | no tag match straddles the added newlines |
| CycleBriefing.PrintedParts | crates/agent-runtime/src/cycle_manager.rs:306-313 | case folding keeps offsets: the tag found in the folded text cuts the original at the same place |

## Left out

- Mailbox is a machine over atomic steps and not a class: its promises are about interleavings. `subscribe`, the wrap-around of the 64-bit counter and lock poisoning are not modelled; `recv_timeout` is a `recv` that may be abandoned while it waits.
- Attachments is a machine over file-system calls for the same reason. The checks before ingest (existence, size, extension), media types, creation of the directory and the reported byte count are not modelled; processes that share a process id at the same time, as on two machines over one network file system, are not either.
- Capacity.ComputeProfile: computes over exact reals, not floating point, with the square root as a parameter.
- Capacity: the entropy and prior formulas behind a slack value, the sigmoid, `normalize_model_prior_key` and overflow of turn plus cooldown.
- Purge: decoding of operations from JSON, the prompt and tool definition, and regular expressions (a replacement is any function on text). Counts do not saturate.
- CallbackBridge: each callback is one step; extension dispatch, its budgets, hook contexts, the text of status messages and log warnings are not modelled. A sent event is an event that reached the channel.
- LoopGuard: the header patterns are any two predicates; `blank_test_modules` and the file walk are not modelled, and nothing is claimed about how the token rules compare with Rust's.
- RecentWindows.RebuildIsReplayIff: assumes that results follow their calls and that no call without a path takes over the id of one with a path. LostReadTurnsUp shows that it needs the latter; RebuildFollowsLiveIff is exact without either.
- RecentWindows: previews are cut by characters of a `string`; sharing of the queue between threads is not modelled, nor the head and tail compaction that the live path runs on a result before it is recorded: the same text is taken to reach both paths.
- ShellTail: the rest of the shell manager, and the saturating product of limit and four.
- VerdictViews.LogFollowsView: assumes of the JSON codec that no torn line, alone or run together with others, parses as a record.
- VerdictLog: the lock, directory creation and records that fail to serialise are not modelled; that a printed record starts with a brace, holds no newline and reads back is assumed of the codec.
- CycleBriefing: the cap on a briefing, the other seed messages and the call to the model.
- Everything else in the repository: tools, providers, configuration and the hosts are not part of this model.
