# Agent Teams: verified model

A Dafny model of the parts of Agent Teams where state, time and arithmetic meet, with proofs of
what its code and documentation promise. Every operation follows the branches, constants and edge
cases of the code it models. A loop of the source that updates variables is a method with a loop
here, proved equal to a recursive function, and the properties are proved about that function;
iterator chains of the source (searching, splitting, filtering) are recursive functions only. Where
code and documentation disagree, the model follows the code, and a lemma says exactly when the
promise holds.

Check everything with `dafny verify dfyconfig.toml`.

## What is modelled

**The pane output stream** (`Utf8`, `PaneBuffers`, `Frames`, `DaemonStream`, `PollCore`, `PaneProtocol`,
`PaneTheorems`, `PaneReader`, `PaneGlyphs`). A daemon keeps a bounded window of what a pane wrote, fans
deltas out to bounded subscriptions and sends a snapshot on every attach; the app applies the base64
frames to a buffer that starts a new generation on every re-attach; the frontend polls with one absolute
cursor and appends to its terminal or resets it. `PaneProtocol` is the state machine of all of that,
with the pane's full byte stream beside it: the pane writes or exits, the reader attaches, the daemon
drains a queue or sends a keepalive, a frame is applied, the connection drops, the frontend polls, a
reply lands or is lost, the frontend reloads, in any order.
*Finding:* `StreamBuf::delta` answers a cursor older than the current generation with `gen_base` as
the start of the retained window even after that window has evicted bytes. The promise that the
terminal shows a stretch of the stream without duplicates therefore holds in every run in which no
poll meets `Misplaced`, a condition on the state before the poll: the cursor predates the generation
and the window has evicted. `ServedStretch` shows that a reply names the right position if and only
if its poll is not misplaced, and `MisplacedPollDuplicates` gives a run in which the terminal shows
bytes twice. A frontend that reloads starts over at cursor 0, and meets the same case exactly when the
app has re-attached before and its window has evicted since (`ReloadIsMisplacedIff`,
`ReloadDuplicates`). One re-attach and one poll repair any run, as long as the pane and the reader
live (`ReattachHeals`).
*Finding:* the base64 decoder documents `None` for misplaced padding, but counts padding quad by quad:
`"QQ==QQ=="` decodes to two bytes. `MisplacedPaddingIff` says exactly which malformed strings are let
through. The encoder never produces one, so frames are not affected.

**The tool-schema sanitizer** (`Json`, `Schema`, `SchemaMeaning`, `SchemaBudget`, `SchemaSanitize`,
`SchemaAlone`, `SchemaServed`, `SchemaReference`).
Local `$ref`s are replaced by their definitions under a shared budget of 256 replacements, over
definitions that may be cyclic, and numeric `format`s are stripped. A reference stands for its
definition alone, as in section 8.3 of JSON Schema draft-07; the code agrees, since it replaces the
whole object.
*Finding:* agent-teams-mcp/src/main.rs:196-197 promises a served schema that is fully self-contained, and
main.rs:210-211 says that a leftover reference is no worse than before, although `$defs` is gone by then.
The served schema means what the original means if and only if its references nest finitely and
unfolding them all is within the budget (`ServedMeansOriginal`). A schema of a recursive type is never
served with its meaning (`RecursiveTypeIsNotServed`); `SelfReferenceIsLeft` is one that is served with
nothing but a reference to a definition that is no longer there.

**Calendar arithmetic** (`Civil`): `civil_from_days` against the proleptic Gregorian calendar of
section 5.7 and appendix C of RFC 3339.

**The task log** (`TaskLog`, `TaskProtocol`, `TaskCap`, `TaskLives`, `TaskViews`). Several processes
append to one log: transitions under a lock, creates without one; any of them may crash at any step.
*Finding:* the cap on tasks is checked before an append that takes no lock, so `n` processes can reach
`MAX_TASKS + n - 1` tasks, and no more; both are proved.

**Layout** (`LayoutTree`, `LayoutReconcile`, `LayoutPlacement`, `LayoutGeometry`): split trees, their
reconciliation with the live panes, and pixel rectangles.
*Finding:* a comment at app/src/layout-geometry.js:15-16 says that the two sides and the gap always add
up to the axis. They do exactly when the axis is at least as long as the gap (`AxisSides`; an axis of
four pixels in `NarrowAxis`). Where it is not, a divider can lie in the middle of a pane
(`CrowdedSeamCrossesPane`).

**Small algorithms**: midpoint displacement in a buffer (`Powers`, `Lightning`), the capped chat
timeline (`BridgeChat`), the two chunked readers (`LineReader`, `HttpReader`), the force step (`Force`,
`ForceLaws`), short labels (`Labels`), and broadcasting one prompt (`PromptExtract`, `PromptAll`).
*Findings:* the header cap of the HTTP reader is one byte more than the constant, and for headers that
end within one read of it the outcome depends on how the reads are cut (`BorderlineDependsOnReads`; such a
response in `LongHeadersDependOnReads`).
Labels are cut to 14 characters after the look-up of claimed words, so a label can carry a number
although words of the title are free: exactly when the cut of the first free word is claimed
(`NumberedIff`; two nodes of one title in `LongWordIsNumbered`).
Answers to a broadcast prompt are extracted by rules that are wider than the documented ones for a pane
that does not show the prompt, and narrower when the prompt is shown with little after it
(`BeyondDesignIff`, `ShortOfDesignIff`; one pane each in `ClearedPaneAnswers` and
`PromptAtTheEndIsSilent`). And a pane can be credited with a block it showed before the prompt was sent,
not only when it was rewritten: an old echo of the same prompt is taken for the new one, and an earlier
block counts as new because only the newest is compared. `OldBlockReturnedIff` gives the exact condition,
`OldAnswersReturned` and `EarlierAnswerReturned` three such panes.

## Model

| member | source | states |
|---|---|---|
| `Utf8.HoldBackEndsAtBoundary` | app/src-tauri/src/lib.rs:2873-2898 | holding back the incomplete suffix of a slice that starts between code points ends the rest between code points, and no later cut would |
| `Utf8.IncompleteUtf8SuffixLen` | app/src-tauri/src/lib.rs:2873-2898 | the backward walk over at most three continuation bytes finds the length of the code point still in flight |
| `PaneBuffers.PushShows` | core/supervisor/src/lib.rs:659-674 | a bounded window stays the exact tail of everything pushed; it never outgrows one and a half times its cap, never moves back, and keeps at least `cap - 3` bytes when it compacts |
| `PaneBuffers.CutPointSkips` | core/supervisor/src/lib.rs:662-671 | compaction skips continuation bytes only, and stops at the first other byte or after three |
| `PaneBuffers.PushStartsAtBoundary` | core/supervisor/src/lib.rs:659-674 | compaction never cuts a code point of a well-formed stream |
| `PaneBuffers.DeltaIsStreamTail` | core/supervisor/src/lib.rs:711-717 | an offset inside the window gets exactly the stream from there; any other gets the whole window, starting elsewhere, if and only if |
| `PaneBuffers.PaneBuffer.Push` | core/supervisor/src/lib.rs:659-674 | the buffer in place: history grows by the chunk, and the window is the one the function on values gives |
| `PaneBuffers.PaneBuffer.Delta` | core/supervisor/src/lib.rs:711-717 | what is returned is the history from the offset that is claimed |
| `Frames.RoundTrip` | core/daemon/src/frames.rs:111-175 | decoding what was encoded gives every byte sequence back |
| `Frames.EncodedLength` | core/daemon/src/frames.rs:111-130 | four characters for every three bytes begun |
| `Frames.EncodedAlphabet` | core/daemon/src/frames.rs:111-130 | digits of the alphabet of section 4 of RFC 4648, then exactly the padding the length asks for |
| `Frames.QuadsSpellBytes` | core/daemon/src/frames.rs:107-130 | the places of every four characters in the alphabet are the three bytes they encode, read as one number, with zeros for missing ones (section 4 of RFC 4648) |
| `Frames.ReencodeIffCanonical` | core/daemon/src/frames.rs:137-175 | re-encoding a decoded string gives it back exactly when it is canonical in the sense of section 3.5 of RFC 4648 |
| `Frames.B64Encode` | core/daemon/src/frames.rs:111-130 | the encoder's loop over chunks of three |
| `Frames.B64Decode` | core/daemon/src/frames.rs:137-175 | the decoder's loop over chunks of four, giving up at the first bad one |
| `Frames.AcceptedIff` | core/daemon/src/frames.rs:137-175 | a string decodes if and only if its length is in fours and every quad is two to four digits filled up with padding |
| `Frames.MisplacedPaddingIff` | core/daemon/src/frames.rs:132-157 | all well-formed strings decode; a malformed one does if and only if it is well-formed quad by quad and has padding before the last quad |
| `Frames.PaddedTwice` | core/daemon/src/frames.rs:132-157 | `"QQ==QQ=="` is such a string, and decodes to two bytes |
| `DaemonStream.StreamBuf.Apply` | app/src-tauri/src/daemon_stream.rs:125-170 | one frame in place: new state and verdict are those of the function on values |
| `DaemonStream.StreamBuf.Delta` | app/src-tauri/src/daemon_stream.rs:176-184 | the bytes served to a cursor and the offset claimed for them |
| `DaemonStream.RefusedFramesChangeNothing` | app/src-tauri/src/daemon_stream.rs:120-170 | over any frames, the buffer is what the applied ones alone make it; those have payloads that decode and totals that follow each other, and all frames are applied if and only if all are like that |
| `DaemonStream.ReattachOutrunsCursors` | app/src-tauri/src/daemon_stream.rs:127-143 | over any frames, the generation base either stays or ends strictly above every offset handed out before |
| `PollCore.CursorNeverAhead` | app/src-tauri/src/lib.rs:2857-2865 | no reply ever names an offset past the end of the buffer |
| `PollCore.ResetOncePerReattach` | app/src/poll-core.js:28-38 | a cursor from before a re-attach is answered so that the terminal resets once; the next reply in that generation resets again only if the window has moved past the adopted cursor |
| `PaneProtocol.StepKeeps` | app/src-tauri/src/daemon_stream.rs:268-361 | every step of the protocol keeps the connection, buffer, generations and cursors consistent with the stream; every step but a misplaced poll keeps the terminal faithful |
| `PaneProtocol.ServedStretch` | app/src-tauri/src/daemon_stream.rs:172-184 | a poll serves a stretch of the stream up to the app's last whole code point, and its `next` denotes the end of that stretch if and only if the poll is not misplaced |
| `PaneProtocol.SnapshotView` | app/src-tauri/src/daemon_stream.rs:127-143 | a snapshot opens a generation beyond every offset in use, showing the stream from where the snapshot starts |
| `PaneProtocol.DeltaView` | app/src-tauri/src/daemon_stream.rs:144-158 | a contiguous delta extends the app's window by exactly the stretch of the stream it carries |
| `PaneProtocol.LinkGrows` | core/supervisor/src/subscribers.rs:155-172 | fan-out to a bounded queue keeps what is queued contiguous up to the stream's end, or drops the subscription |
| `PaneProtocol.AttachKeeps` | core/supervisor/src/subscribers.rs:220-252 | attaching takes the snapshot and registers the subscription at one point of the stream, so that deltas continue it |
| `PaneProtocol.DrainKeepsLink` | core/daemon/src/server.rs:693-760 | sending queued deltas, or the closing error frame, keeps what is on the wire contiguous |
| `PaneTheorems.TerminalShowsStream` | app/src/poll-core.js:13-38 | in every run without a misplaced poll, what the terminal received since its last reset is one contiguous stretch of the pane's stream that ends exactly where the cursor points |
| `PaneTheorems.ReattachHeals` | app/src-tauri/src/daemon_stream.rs:127-143 | after any run, whatever was polled when, while the pane and the reader live: one re-attach and one poll reset the terminal to the daemon's whole window, up to the last complete code point |
| `PaneTheorems.CatchesUp` | core/daemon/src/server.rs:693-760 | while a connection stays up, draining and delivering alone bring the app's buffer to the end of the stream, in a number of steps known beforehand, and change nothing for the frontend |
| `PaneTheorems.PollShowsAll` | app/src-tauri/src/lib.rs:2851-2871 | with the app at the stream's end, a poll that is not misplaced brings terminal and cursor to the stream's end, less the code point held back |
| `PaneTheorems.CaughtUpIsShown` | core/daemon/src/server.rs:693-760 | after any run without a misplaced poll, while the subscription lives: draining, delivering and one poll that is not misplaced show every byte the pane wrote, up to the code point held back |
| `PaneTheorems.MisplacedPollDuplicates` | app/src-tauri/src/daemon_stream.rs:177-181 | a concrete run with one misplaced poll ends with bytes on the terminal twice, in no stretch of the stream |
| `PaneTheorems.ReloadIsMisplacedIff` | app/src/poll-core.js:22-25 | the first poll after a reload is misplaced if and only if the app has re-attached and its window has evicted since |
| `PaneTheorems.ReloadDuplicates` | app/src/main.js:721-725 | a concrete run in which a reload and two polls put bytes on the terminal twice |
| `PaneReader.ReaderEndsOnlyWithPane` | app/src-tauri/src/daemon_stream.rs:159-167 | in every run the app's reader ends only once the pane has exited: no overflow, gap, undecodable frame or broken connection ends it, and it can attach again |
| `PaneReader.ExitEndsReader` | core/daemon/src/server.rs:722-755 | after the pane exits with its subscription up, draining and delivering alone end the reader, in a number of steps known beforehand, and everything written is applied first unless the queue had overflowed |
| `PaneReader.OverflowReconnects` | core/daemon/src/server.rs:722-755 | a subscription that overflowed while the pane lives ends in a connection that is down and a reader that attaches again |
| `PaneReader.ErrorFrames` | app/src-tauri/src/daemon_stream.rs:159-167 | an error frame changes nothing in the buffer and ends the connection; it ends the reader if and only if it says that the pane died |
| `PaneReader.SlowSubscriberIsDropped` | core/supervisor/src/subscribers.rs:150-172 | in every run the queue stays within its capacity; a chunk is queued while there is room, and without room the sender is lost |
| `PaneGlyphs.TerminalHoldsWholeCodePoints` | app/src-tauri/src/lib.rs:2851-2871 | if the pane writes well-formed UTF-8, the terminal's contents always begin and end between code points, across compaction, re-attach and held-back suffixes |
| `Schema.InlineRefsInValue` | agent-teams-mcp/src/main.rs:220-257 | the recursive rewrite with its loops and shared budget, terminating on (remaining budget, value size) for cyclic definitions as well |
| `SchemaMeaning.InliningPreservesMeaning` | agent-teams-mcp/src/main.rs:220-257 | for every value, definitions and budget, a path read through references has a reading before inlining if and only if it has the same one after |
| `SchemaMeaning.MeansIsAFunction` | agent-teams-mcp/src/main.rs:189-197 | a path has at most one reading |
| `SchemaBudget.CostIsConserved` | agent-teams-mcp/src/main.rs:220-257 | when references nest finitely, every replacement lowers the remaining unfolding cost by exactly the unit of budget it takes |
| `SchemaBudget.LeftoverMeansComplete` | agent-teams-mcp/src/main.rs:208-257 | for any definitions, cyclic ones included, budget is left over only when no local reference remains |
| `SchemaBudget.CompleteIffAffordable` | agent-teams-mcp/src/main.rs:198-257 | no local reference remains if and only if references nest finitely and unfolding them all costs no more than the budget, which then falls by exactly that cost |
| `SchemaBudget.AcyclicFits` | agent-teams-mcp/src/main.rs:198-216 | definitions that can be ranked, each referring only to lower ones, nest no deeper than the ranks |
| `SchemaBudget.FreeResultFits` | agent-teams-mcp/src/main.rs:220-257 | a cycle that is reached always leaves a reference behind |
| `SchemaSanitize.StripNumericFormats` | agent-teams-mcp/src/main.rs:162-187 | the stripping loops over members and items |
| `SchemaSanitize.StripFrees` | agent-teams-mcp/src/main.rs:162-187 | no numeric `format` survives, at any depth |
| `SchemaSanitize.StripRemovesOnlyFormats` | agent-teams-mcp/src/main.rs:162-187 | every path that does not meet a numeric `format` leads to what it led to before, stripped |
| `SchemaSanitize.ServedSchemaIsNumericFree` | agent-teams-mcp/src/main.rs:264-275 | the served schema has no numeric `format`, inlined bodies included |
| `SchemaAlone.StandsAloneIff` | agent-teams-mcp/src/main.rs:198-257 | for any value, definitions and budget, member names distinct: the result read with no definitions means on every path what the value means with its own, if and only if references nest finitely and unfolding them all is within the budget |
| `SchemaAlone.ServedSchemaStandsAlone` | agent-teams-mcp/src/main.rs:188-218 | the same of the served schema and the stripped one: the promised self-contained schema exactly when unfolding is affordable |
| `SchemaAlone.NestsForeverIff` | agent-teams-mcp/src/main.rs:208-212 | references nest forever if and only if they lead into definitions that refer to one another |
| `SchemaServed.LandStripped` | agent-teams-mcp/src/main.rs:162-187 | stripping commutes with following a path through references: a path that meets a numeric `format` leads nowhere, any other to what it led to, stripped |
| `SchemaServed.ServedMeansOriginal` | agent-teams-mcp/src/main.rs:259-275 | the served schema says of every path exactly what the original says with its definitions, numeric formats ignored, if and only if unfolding is affordable |
| `SchemaServed.ServedMeansOriginalUntouched` | agent-teams-mcp/src/main.rs:259-275 | on a path that meets no numeric `format`, and ends at no object with one, it says just what the original says: read with the definitions always, read without them when unfolding is affordable |
| `SchemaServed.RecursiveTypeIsNotServed` | agent-teams-mcp/src/main.rs:208-212 | a schema that refers to definitions that refer to one another is never served with its meaning |
| `SchemaServed.SelfReferenceIsLeft` | agent-teams-mcp/src/main.rs:208-218 | a definition that is only a reference to itself: the schema served holds the reference and no definition |
| `SchemaReference.NamedDefinitionIsMeant` | agent-teams-mcp/src/main.rs:228-243 | an object whose `$ref` is `#/$defs/` and a name, whatever else it holds, means on every path what the definition of that name means, and while budget is left is replaced by that definition, inlined with one unit less |
| `SchemaReference.NothingElseIsReplaced` | agent-teams-mcp/src/main.rs:228-257 | without such a definition, or without budget, a value stays as it is and only its parts are inlined, in order, each with the budget the one before it left |
| `SchemaReference.NothingElseIsFollowed` | agent-teams-mcp/src/main.rs:228-257 | and a path into it means what the rest of the path means from there |
| `SchemaReference.BudgetIsReached` | agent-teams-mcp/src/main.rs:208-216 | a schema of `n` references is served with its meaning if and only if `n` is at most 256 |
| `SchemaReference.FormatStrippedIff` | agent-teams-mcp/src/main.rs:162-172 | a format is stripped if and only if it names an integer of either sign and any width, or a floating-point number |
| `Civil.CivilSuccessor` | app/src-tauri/src/insforge_emit.rs:398-409 | for every integer, the date is valid and the next day number gives the calendar's next day |
| `Civil.CivilEpoch` | app/src-tauri/src/insforge_emit.rs:394-397 | day 0 is 1 January 1970 |
| `Civil.DayNumberInverts` | app/src-tauri/src/insforge_emit.rs:398-409 | counting years and months from the epoch to the date of day `z` gives `z` |
| `Civil.CivilInverts` | app/src-tauri/src/insforge_emit.rs:398-409 | every valid date is the date of the day its count names, so day numbers and dates correspond one to one |
| `Civil.YearOfEraIsExact` | app/src-tauri/src/insforge_emit.rs:401-403 | the closed form picks the year of the 400-year era whose days contain the given one |
| `Civil.IsoFieldsNameTheSecond` | app/src-tauri/src/insforge_emit.rs:384-392 | the printed fields are a valid UTC time and name exactly the second they came from |
| `TaskLog.FoldIsLastLine` | core/task/src/lib.rs:418-426 | a task's stage is the `to` of its last line |
| `TaskLog.DoneIsTerminal` | core/task/src/lib.rs:301-315 | in a legal life nothing follows `done` and no stage follows itself |
| `TaskLog.GenesisIsStable` | agent-teams-mcp/src/task.rs:148-155 | a task's owner never changes by later lines |
| `TaskProtocol.StepKeepsInv` | agent-teams-mcp/src/task.rs:574-659 | every step of every process, crashes included, keeps the invariant: who holds the lock still sees all lines of its task, and pending creates are within the cap |
| `TaskProtocol.TasksLiveLegally` | agent-teams-mcp/src/task.rs:574-659 | under every interleaving, each task's lines are a genesis line and a connected path of valid transitions within the cap, written by one author when processes are pinned to their panes |
| `TaskProtocol.TaskCountBounded` | agent-teams-mcp/src/task.rs:533-561 | `n` processes never exceed `MAX_TASKS + n - 1` tasks |
| `TaskCap.TaskCountBoundIsReached` | agent-teams-mcp/src/task.rs:543-556 | and some interleaving reaches exactly that many |
| `TaskLives.StagesFollowTheGraph` | core/task/src/lib.rs:285-314 | under every interleaving, the stages of a task are a path in the documented graph, stage by stage, from its genesis line on, of at most 64 lines |
| `TaskLives.EveryLifeIsLived` | agent-teams-mcp/src/task.rs:534-658 | conversely, every such path of at most 64 lines is lived: at any time with room for a task, an idle process can create one and take it along that path, appending nothing else |
| `TaskLives.TransitionIff` | agent-teams-mcp/src/task.rs:574-658 | a transition appends its line if and only if the task exists and is visible, the scope names its creator, less than 64 lines are there and the stage may follow the last; otherwise nothing is appended |
| `TaskLives.LogStaysSmall` | core/task/src/lib.rs:480-520 | in every run at most 10000 tasks and one for every process but one, and no title longer than 4096 |
| `TaskViews.ListViews` | agent-teams-mcp/src/task.rs:291-326 | the one-pass list with its two maps gives the rows that reading task by task gives |
| `TaskViews.FoldLog` | agent-teams-mcp/src/task.rs:293-304 | one pass over the log finds every task's last stage and first genesis line |
| `TaskLog.ListTaskIds` | core/task/src/lib.rs:560-569 | one pass lists the ids with a genesis line, in order of first appearance |
| `TaskViews.ListRefinesReads` | agent-teams-mcp/src/task.rs:291-345 | on any log: an id is listed if and only if a read finds it; listed ids are distinct if and only if the store's are; then every row is what reading its id returns |
| `TaskViews.StoreWinsOnOverlap` | agent-teams-mcp/src/task.rs:305-311 | a task in both is shown once, from the store, at the stage of the log's last line |
| `TaskViews.ListIsInOrder` | agent-teams-mcp/src/task.rs:305-328 | the store's tasks come first, as they are stored, then those of the log alone in the order of their first genesis lines |
| `TaskViews.StoreViewTells` | agent-teams-mcp/src/task.rs:236-254 | a task of the store is shown field by field as recorded, with the stage of its last log line |
| `TaskViews.LogViewTells` | agent-teams-mcp/src/task.rs:256-280 | a task of the log alone is shown with the title, time and author's workspace of its first genesis line and the stage of its last line |
| `LayoutTree.FindParentOf` | app/src/layout-tree.js:34-42 | a parent is found exactly when the pane is in the tree, and it is a split |
| `LayoutTree.PruneKeepsLive` | app/src/layout-tree.js:135-142 | pruning keeps exactly the live leaves, in order |
| `LayoutTree.PruneOfLive` | app/src/layout-tree.js:135-142 | a tree of live leaves is not changed at all |
| `LayoutTree.SplitInserts` | app/src/layout-tree.js:45-57 | splitting a leaf puts the new pane right beside it, on the side asked for, and moves no other |
| `LayoutTree.RemoveDropsLeaf` | app/src/layout-tree.js:62-68 | removing drops that pane and nothing else |
| `LayoutTree.MoveKeepsLeaves` | app/src/layout-tree.js:71-77 | moving puts the pane beside its target, loses and repeats none and keeps the order of the others; without the target in the tree nothing changes |
| `LayoutReconcile.ReconcileTree` | app/src/layout-tree.js:119-131 | the loop over the missing panes with its set of panes present, including from no tree and when the focused pane is itself new |
| `LayoutReconcile.ReconcileShowsLive` | app/src/layout-tree.js:119-142 | for every tree, the panes shown are exactly the live ones and survivors keep their order; panes are distinct if and only if the survivors are and no missing pane is listed twice |
| `LayoutReconcile.ReconcileIsIdempotent` | app/src/layout-tree.js:119-142 | for every tree, reconciling again, with any focus, changes nothing |
| `LayoutReconcile.ReopenRestores` | app/src/layout-tree.js:147-165 | reopening a stored tree gives the tree pruned of panes without an index, the others renamed by theirs |
| `LayoutReconcile.RoundTrip` | app/src/layout-tree.js:147-165 | when every id is the one its index rebuilds, storing and reopening is exact |
| `LayoutPlacement.InsertPlaces` | app/src/layout-tree.js:124-129 | a missing pane stands right after the focused pane, or last if that is not shown, as the second half of an even split with it, of the other direction than the split that held it (vertical if none did), and removing it again gives back the tree as it was |
| `LayoutPlacement.ReconcileOrder` | app/src/layout-tree.js:119-131 | where all panes stand after reconciling: survivors in order, missing ones right after the focus with the last listed first, or at the end as listed, also when the focus is itself missing |
| `LayoutPlacement.ParentHolds` | app/src/layout-tree.js:34-42 | the parent found is a split of the tree with that leaf as a child |
| `LayoutPlacement.OneHolder` | app/src/layout-tree.js:34-42 | and the only one, in a tree with distinct leaves |
| `LayoutPlacement.LeafIsHeld` | app/src/layout-tree.js:34-42 | every leaf is held by some split, unless it is the whole tree |
| `LayoutPlacement.SplitPairs` | app/src/layout-tree.js:44-57 | the new pane shares an even split of the given direction with the old one, on the side asked for, and removing it gives the tree back |
| `LayoutPlacement.RemovePrunes` | app/src/layout-tree.js:59-68 | removing a pane is pruning to all the others: its sibling takes the split's place and every other split stays |
| `LayoutPlacement.MovePairs` | app/src/layout-tree.js:70-77 | a moved pane shares an even split of the given direction with its target, and all else is as when it is removed |
| `LayoutGeometry.AxisSides` | app/src/layout-geometry.js:17-24 | sides are never negative, reach the minimum whenever there is room, and add up with the gap if and only if the gap fits |
| `LayoutGeometry.NarrowAxis` | app/src/layout-geometry.js:15-24 | an axis of four pixels: sides and gap make up six |
| `LayoutGeometry.RatioIsKept` | app/src/layout-geometry.js:15-24 | the first side gets its ratio of what the gutter leaves, to the nearest pixel, as far as both sides may have it |
| `LayoutGeometry.ChildrenLieInOrder` | app/src/layout-geometry.js:27-42 | across a vertical divider the children stand side by side, across a horizontal one on top of each other, the first one first, with a gutter of 6 between them, to the ends of the box, at least 160 across or 90 down if both can |
| `LayoutGeometry.RectsFollowTree` | app/src/layout-geometry.js:27-42 | the rectangles are those of the tree's panes, in order |
| `LayoutGeometry.FirstLiesBeforeSecond` | app/src/layout-geometry.js:27-42 | where all gaps fit, every pane of the first child lies left of, or above, every pane of the second |
| `LayoutGeometry.RectsInside` | app/src/layout-geometry.js:27-42 | every pane with area lies in the box, and every pane does where all gaps fit |
| `LayoutGeometry.RectsApart` | app/src/layout-geometry.js:27-42 | panes with area are pairwise a full gap apart, for every tree and ratio |
| `LayoutGeometry.SeamsClearPanes` | app/src/layout-geometry.js:46-67 | where all gaps fit, no divider comes within half a gap of any pane |
| `LayoutGeometry.CrowdedSeamCrossesPane` | app/src/layout-geometry.js:17-67 | where they do not, one tree in a box of a hundred pixels has a divider in the middle of a pane |
| `LayoutGeometry.PanesAndGuttersFillBox` | app/src/layout-geometry.js:27-60 | where all gaps fit, areas of panes and gutters add up to the box |
| `LayoutGeometry.CollectSplits` | app/src/layout-geometry.js:46-60 | appends the splits of the tree to the caller's list, parents first |
| `Lightning.JagOffsets1D` | app/src/lightning-core.js:98-120 | the loops over strides leave in the buffer, whatever it held before, the curve that displaces every midpoint of the one before, and nothing beyond it is written |
| `Lightning.NextStations` | app/src/lightning-core.js:98-120 | old stations stay, and every interval gets a midpoint |
| `Lightning.MidpointsAreDisplaced` | app/src/lightning-core.js:98-120 | each midpoint is its neighbours' mean, pushed by its own random number, drawn left to right, times the power of the decay |
| `Lightning.EndsPinned` | app/src/lightning-core.js:94-106 | both ends stay at 0 |
| `Lightning.OffsetsBounded` | app/src/lightning-core.js:98-120 | for a non-negative decay and random numbers in [0, 1), offsets stay within the sum of the powers of the decay |
| `BridgeChat.CapTurnsLoop` | app/src/bridge-chat-core.js:24-37 | the backward scan and the forward pass that trims |
| `BridgeChat.TrimNoRepeats` | app/src/bridge-chat-core.js:24-37 | deleting turns brings no two repeating turns together |
| `BridgeChat.TimelineStaysGood` | app/src/bridge-chat-core.js:70-124 | after any events: at most 200 turns, strictly increasing keys, no two adjacent status turns or turns of one in-flight phase, and the latest plan and prd since the last reset are there |
| `BridgeChat.EventIsSaid` | app/src/bridge-chat-core.js:70-124 | goals, notes, errors, plans, dispatches and prds are added at the end with what they say, word for word, under the next key; of 200 turns only the first that is not the latest plan or prd goes |
| `BridgeChat.PhaseIsShown` | app/src/bridge-chat-core.js:76-83 | planning and collecting are shown in the words given or else in fixed ones, in place of the last turn if that is of the same phase; another phase is only noted |
| `BridgeChat.StatusIsLatest` | app/src/bridge-chat-core.js:91-98 | after any events, every pane's state is what it last said since the last reset, and a status turn that comes last shows all of them |
| `LineReader.LineBuffer.ReadLines` | app/src-tauri/src/daemon_stream.rs:388-417 | one read in place: the drain loop, the cap and the two ways a read brings nothing |
| `LineReader.FramingConserves` | app/src-tauri/src/daemon_stream.rs:400-405 | lines and pending bytes are all the bytes read; every line ends at its only newline |
| `LineReader.FramingComposes` | app/src-tauri/src/daemon_stream.rs:400-405 | framing in two parts is framing once |
| `LineReader.ChunkingIsInvisible` | app/src-tauri/src/daemon_stream.rs:388-417 | while the connection is up, lines out and bytes pending depend on the bytes alone |
| `LineReader.CappedLinesSurvive` | app/src-tauri/src/daemon_stream.rs:394-399 | lines within the cap never break the connection, however they are chunked |
| `HttpReader.ReadResponse` | agent-teams-mcp/src/phase_b/http.rs:297-362 | the two read loops, on any socket, give the outcome of the bytes and of how they are cut; a response that is returned took exactly its own bytes off the socket, or what the read took that brought the end of its headers, less than one read more than those |
| `HttpReader.ReadHeaders` | agent-teams-mcp/src/phase_b/http.rs:297-317 | the header loop keeps every byte it read and stops at the first blank line, with less than one read past it |
| `HttpReader.ContentLength` | agent-teams-mcp/src/phase_b/http.rs:331-339 | the loop over the header lines keeps the last length named |
| `HttpReader.FindInPrefix` | agent-teams-mcp/src/phase_b/http.rs:365-372 | a search in what has arrived finds the first match exactly once it has arrived whole |
| `HttpReader.ChunkingIsInvisible` | agent-teams-mcp/src/phase_b/http.rs:297-362 | unless the headers end within a read of the cap, the outcome does not depend on how reads are cut |
| `HttpReader.BorderlineDependsOnReads` | agent-teams-mcp/src/phase_b/http.rs:302-317 | and if they do, it does: byte by byte the reader gives up, in full reads it goes on |
| `HttpReader.LongHeadersDependOnReads` | agent-teams-mcp/src/phase_b/http.rs:302-317 | there are such headers: as many plain bytes as the cap less two, and a blank line |
| `HttpReader.SentResponseIsRead` | agent-teams-mcp/src/phase_b/http.rs:319-362 | a response as sent, headers within the cap, is read back with its status and exactly its `Content-Length` body, however reads are cut (section 6.3 of RFC 9112); a longer body than the cap is refused |
| `HttpReader.WrittenResponseIsRead` | agent-teams-mcp/src/phase_b/http.rs:319-362 | so is one written out: version, number and reason, any header lines, `content-length` in letters of either case with the number in digits and white space around it, and a body |
| `Force.InteractionConserves` | app/src/force-core.js:103-139 | for any positions and links, repulsion and springs keep the total velocity, and the angular momentum as well |
| `Force.FreeStepDamps` | app/src/force-core.js:95-164 | without groups or pins a step scales total velocity and angular momentum by exactly the damping |
| `Force.GroupsAreTheOnlyDrive` | app/src/force-core.js:141-164 | with groups and without pins, the total velocity is damped after the anchors have added exactly their pulls |
| `Force.CentreFollowsVelocity` | app/src/force-core.js:151-164 | the sum of positions moves by `f` times the new total velocity, in every step |
| `Force.PinnedRests` | app/src/force-core.js:153-163 | a pinned node does not move and ends at rest; any other moves by `f` times its new velocity |
| `Force.PinHolds` | app/src/force-core.js:169-185 | a pinned node stays where it is over any number of steps |
| `Force.SettlingScales` | app/src/force-core.js:180-185 | settling offline without groups or pins, every frame scales the total velocity by one factor |
| `Force.SettlingDecays` | app/src/force-core.js:180-185 | without groups or pins and at the source's damping, the total velocity has at least halved after every nine frames |
| `Force.ForceSim.StepForceSim` | app/src/force-core.js:95-164 | the nested loops over the velocity and position arrays, in place |
| `ForceLaws.NearNodesArePushedApart` | app/src/force-core.js:103-121 | nodes closer than 120 are pushed apart along the line between them, each by 0.3 for every unit they are too close; others exert nothing; nodes in one place part along the given axis |
| `ForceLaws.LinksSpringBack` | app/src/force-core.js:126-139 | a link pulls its ends together when longer than 200 and pushes them apart when shorter, each by 0.01 for every unit; a link that names no node or one node twice does nothing |
| `ForceLaws.ShortestLinkIsSlack` | app/src/force-core.js:130-138 | a link between two nodes in one place does nothing |
| `ForceLaws.StepIsSumOfForces` | app/src/force-core.js:95-164 | for any number of nodes and links, the velocity of a free node is what it was and what every other node, every link and its group add, each as if alone, all of that damped; it moves with it for the fraction of a frame |
| `ForceLaws.TwoNodes` | app/src/force-core.js:95-164 | a whole step of two nodes: before damping their relative velocity gains twice the shove away from each other, less twice the tug of a link |
| `Force.FractionOfFrame` | app/src/force-core.js:98-101 | a step takes the time given as a fraction of a frame, at most a whole one and at least a millisecond; a missing time is a whole frame |
| `Force.ForceSim.SettleForceSim` | app/src/force-core.js:183-185 | the loop of whole frames |
| `Force.ForceSim.PinNode` | app/src/force-core.js:169-174 | pins and places one node; an index that names none is ignored |
| `Force.ForceSim.ReleaseNode` | app/src/force-core.js:175-178 | releases one node and nothing else |
| `Labels.CandidatesAreWholeWords` | app/src/graph-core.js:27-46 | the candidate words are exactly the whole words of the cleaned title with two characters, a letter or digit among them: each once for every place where it stands, in the order of the places, so the first one is the first word of the title |
| `Labels.SuffixInjective` | app/src/graph-core.js:61-64 | different numbers give different labels |
| `Labels.SuffixSearchIsShort` | app/src/graph-core.js:61-65 | the search for a free number ends within as many tries as there are claimed labels |
| `Labels.LabelsDiffer` | app/src/graph-core.js:50-70 | no two labels are the same, for any list of titles |
| `Labels.LabelsArePrefixStable` | app/src/graph-core.js:27-31 | earlier labels do not depend on later nodes |
| `Labels.AssignShortLabels` | app/src/graph-core.js:50-70 | the loop over the records in place: different records end with different labels, even if one is listed twice |
| `Labels.PickIsFirstFree` | app/src/graph-core.js:54-59 | while a word is unclaimed, the word picked is the first unclaimed one that is no stopword, or else the first unclaimed one |
| `Labels.NumberedIff` | app/src/graph-core.js:27-31 | while a word is unclaimed, the label carries a number if and only if the 14-character cut of that word is claimed, which takes a longer word |
| `Labels.AllClaimedNumberedIff` | app/src/graph-core.js:54-65 | with every word claimed, which word the label is made from, and exactly when it is numbered |
| `Labels.LabelIsCutAndNumbered` | app/src/graph-core.js:60-65 | a label is the first 14 characters of the word picked; if they are claimed, with the least number from 2 on that is free |
| `Labels.LongWordIsNumbered` | app/src/graph-core.js:50-70 | two nodes with one title of a long and a short word: the second label is the long word's cut and a 2, while the short word is free |
| `PromptExtract.AnswersAreShown` | agent-teams-mcp/src/prompt_all.rs:188-260 | an answer is a stretch of what the pane shows, of eight characters or more, after the newest echo of the prompt if there is one, and never from an unchanged pane |
| `PromptExtract.UserEndsBlock` | agent-teams-mcp/src/prompt_all.rs:262-281 | an assistant's block ends at the next user's turn, for any text around it |
| `PromptExtract.ReadyIff` | agent-teams-mcp/src/prompt_all.rs:178-260 | exactly when there is an answer, by echo, baseline and length |
| `PromptExtract.BeyondDesignIff` | agent-teams-mcp/src/prompt_all.rs:181-186 | there is an answer outside the documented rule exactly for a pane without the prompt whose newest block is not new, and that either no longer starts with its baseline and shows eight characters, or has hardly grown and now ends in a block the baseline showed further up |
| `PromptExtract.ClearedPaneAnswers` | agent-teams-mcp/src/prompt_all.rs:245-247 | one pane of the first kind: cleared, and credited with the eight characters it shows |
| `PromptExtract.ShortOfDesignIff` | agent-teams-mcp/src/prompt_all.rs:181-218 | and no answer although the rule asks for one exactly when the prompt is shown with less than eight characters after it |
| `PromptExtract.PromptAtTheEndIsSilent` | agent-teams-mcp/src/prompt_all.rs:201-218 | one such pane: grown by a line that ends in the prompt |
| `PromptExtract.OldBlockReturnedIff` | agent-teams-mcp/src/prompt_all.rs:188-260 | the answer is a block the pane showed before the prompt was sent, under whatever marker, if and only if an echo, the newest block or the text that counts is that block, case by case |
| `PromptExtract.OldEchoReturnsOldAnswer` | agent-teams-mcp/src/prompt_all.rs:201-218 | every pane that still shows an earlier exchange with the same prompt, and has only blanks more since, is credited with the old answer |
| `PromptExtract.RewriteReturnsOldAnswer` | agent-teams-mcp/src/prompt_all.rs:237-249 | so is every pane whose front has changed, without the prompt |
| `PromptExtract.LostBlockReturnsEarlier` | agent-teams-mcp/src/prompt_all.rs:222-230 | so is every pane that showed two answers and now, without the prompt, the first alone: it gets the first, outside the documented rule |
| `PromptExtract.OldAnswersReturned` | agent-teams-mcp/src/prompt_all.rs:188-260 | one pane of each of the first two kinds, character by character |
| `PromptExtract.EarlierAnswerReturned` | agent-teams-mcp/src/prompt_all.rs:222-230 | and one of the third |
| `PromptAll.AnsweredAtFirstAgreement` | agent-teams-mcp/src/prompt_all.rs:442-474 | counter and candidate come to this: a pane is answered at the first two polls in a row that extract the same text |
| `PromptAll.FinishedStays` | agent-teams-mcp/src/prompt_all.rs:434-499 | a finished pane is never changed again, by polls or by the deadline |
| `PromptAll.OutcomeExplained` | agent-teams-mcp/src/prompt_all.rs:367-500 | an answer not marked partial was extracted identically by the last two polls of its pane; a partial one by the last poll, with no two in a row alike; the rest timed out or were never sent |
| `PromptAll.OutcomeIs` | agent-teams-mcp/src/prompt_all.rs:367-500 | every outcome, field by field: the answer of the first agreeing polls with the harness and source seen, a partial answer, a timeout, or the reason the send failed |
| `PromptAll.OneRowPerTarget` | agent-teams-mcp/src/prompt_all.rs:503-527 | for every id there are as many rows, answers and errors together, as targets, and both lists are sorted |
| `PromptAll.SortKeeps` | agent-teams-mcp/src/prompt_all.rs:519-521 | sorting keeps the rows of every id, in their order |
| `PromptAll.PaneTrack.Poll` | agent-teams-mcp/src/prompt_all.rs:442-474 | one poll of one track, in place |
| `PromptAll.PaneTrack.Close` | agent-teams-mcp/src/prompt_all.rs:476-498 | the deadline: a candidate becomes a partial answer, nothing a timeout |
| `PromptAll.Finish` | agent-teams-mcp/src/prompt_all.rs:503-527 | the sifting loop, for tracks in any state |
| `PromptAll.Run` | agent-teams-mcp/src/prompt_all.rs:367-501 | start, poll and close loops together give every target's own outcome, whether polling stops early or at the deadline |

## Left out

- Sockets, threads, files, clocks, timeouts and randomness: their outcomes are inputs or steps in any order. A lock is a field that one process holds; locks inside the supervisor make fan-out and subscription single steps.
- The reconnect loop's backoff, its stop flag and the attach handshake: attaching and dropping are steps that may happen whenever the code could take them.
- Several panes and several subscribers of one pane: each pane has its own stream and buffers, and subscriptions do not share a queue.
- A pane that is killed and spawned again under the same id: the model follows one incarnation.
- Retention sizes: `RETAIN_CAP` and the queue's 256 are parameters, so the results hold for any (at least four bytes).
- Conversion of bytes to text with replacement characters: lines, deltas and headers are byte sequences.
- 64-bit wrap-around of offsets, totals and day numbers: integers are unbounded; `civil_from_days` is only called with a number of seconds divided by 86400.
- Parsing and printing of JSON: a value is a tree, and object members are a sequence of name and value.
- Rewriting a JSON value through a mutable reference: `SchemaSanitize.StripNumericFormats` and `Schema.InlineRefsInValue` take a value and return the new one; nothing else refers to the parts being rewritten.
- SchemaServed.ServedMeansOriginalUntouched: read without definitions, a single path is compared only when unfolding is affordable; for all paths together `ServedMeansOriginal` is exact.
- Titles, descriptions and timestamps of tasks beyond what the views show; the length limit on titles counts characters of the title as bytes.
- Freshness of minted task ids: a create step is enabled only with an id new to the log.
- The rule that names a task's tenant: it is a function parameter of the views.
- Writers of the task log other than the sidecars.
- Floating point: layout, lightning and forces are over exact real numbers; `hypot`, the overlap axis (a hash, a sine and a cosine) and the damping power are parameters. That `hypot` is zero only at the origin is assumed where angular momentum is stated, and nowhere else; that one frame damps by 0.92 where settling is said to halve.
- `createForceSim`: placement jitter and group anchors are inputs. Nodes are taken to be different objects, so their coordinates are two arrays.
- Ratio dragging, `buildDefaultTree` and `buildBalancedTree`: they would add easy members.
- `paneDue`, `queueSignature` and the batching of polls: a poll may happen at any time.
- Unicode white space in HTTP status lines and header names: only ASCII white space separates and is trimmed.
- Lower-casing of titles: a parameter of the label functions.
- The text of the timeout and no-targets details, selecting the target panes, clamping the timeout and elapsed time; `PromptAll.Run` starts from the selected targets.
- Glow, yaw, colours, branches and segment packing of the lightning, WebGL and the DOM.
- The rest of the repository: tool registration, prompts, authentication, row building, settings and the user interface.
