# docs.plus: models and proofs

A Dafny model of the parts of docs.plus where several replicas, timers or edits meet, with
proofs about every run or every input of them. Run `dafny verify dfyconfig.toml` here.

## What is modelled

**Persistence.** `YjsUpdate` abstracts a Yjs update to items with their content and a delete
set. `VersionLedger` is the version table as a state machine: replicas flush, read the locked
head (possibly stale by the time they insert), merge, insert one version up, collide on the
(document, version) key, retry once, drop, or fail, while loads rebuild old schemas, time
passes, and retention thins old rows. `DocumentRows` is the same in imperative form, each
method tied to a step. `GhostBackfill` is the one-off rewrite of stored rows, beside other
writers.

**Presence.** `DocumentOccupancy` is the scored set in Redis with its lazy prune and key TTL,
against a plain log of touches. `OccupancyExtension` is the hooks that decide the Last left
stamp.

**Editor.** `IndentDocument` is a document as tokens cut at its textblocks, `IndentCommands` and
`OutdentCommand` the two commands, `IndentRoundTrip` what one does to the other.

**Queues and provenance.** `PgmqConsumer` is the poll loop with its backoff, start and stop;
`QueueDelivery` the life of a message from lease to acknowledgement; `ClientAuthors` the
first-claim binding of client ids; `RetentionLease` the lease that spreads the retention pass.

**Tools and caches.** `TriggerRewriter` (with its patterns in `SqlPatterns`) makes SQL triggers
idempotent; `OwnDrops` says when the drops are the right ones, and `TriggerRuns` runs it where
they are not. `FloatingPopover` is the single-popover life cycle; `Changelog` adds and cuts out
changelog entries; `RevertCooldown` and `TokenCache` are bounded maps against unbounded ones;
`BlockText` is a tree walk on an explicit stack; `DocumentId` derives draft ids. `JsText` and
`Prelude` are shared definitions.

Redis, Postgres, pgmq and BullMQ are atomic steps on abstract state with explicit choices of
fault. Time is an integer that never goes back.

## Where the code and what is said of it differ

- The retention comment (hocuspocus.worker.ts:101-103) caps any fleet at two passes per
  interval. That holds exactly for intervals under 2000 ms and multiples of 2000 ms
  (`TwoPassesPerInterval`); 3,999 ms admits four. Its claim that a tick never blocks on the
  previous lease holds exactly from 1000 ms on (`OwnLeaseBlocksExactlyWhen`).
- `close` on a popover that was created but never shown leaves it alive outside the controller,
  and a later popover can be visible beside it (`TwoVisible`). Destroying a never-shown current
  popover leaves the controller pointing at it (`DestroyFreesExactlyWhen`).
- A second `start` of a queue consumer during its first poll is not refused, because no timer
  has been armed yet (`StartedTwice`).
- The drop test of the trigger rewriter has no boundary after the table name and does not look
  for comments, so a drop on `docs_old` or a commented one stands in for one on `docs`
  (`LongerTableNameCounts`, `CommentedDropCounts`). A trigger has a drop of its own exactly when
  the test saw no look-alike alone (`OwnDropExactlyWhen`). The rewriter's own output can hold
  one, when two triggers share a name and one table's name starts the other's; the condition on
  the input (`EveryTriggerHasItsOwnDrop`) excludes that too. An own drop among those lines need
  not stand after the last creation: a trigger created twice in a row is dropped once
  (`CreatedTwiceDroppedOnce`).
- A second run of the rewriter adds nothing where every table is found (`SecondRunAddsNothing`).
  Where one is not, it can take the table of the drop added for the next trigger, and add a drop
  on the wrong table (`SecondRunAddsAWrongDrop`).
- Indent puts its characters once per range that meets a line, so once per line only if no two
  ranges share one (`OnceExactlyWhen`). Outdent strips each line once only if no indented line is
  met by two ranges (`StripsOnceExactlyWhen`); else it deletes text (`SharedLineLosesText`). One
  does not undo the other when a range ends at the start of a line another one meets
  (`IndentThenOutdent`, `TouchingRangeLosesText`). The selections the editor ships never do any of these.
- Retention deletes rows without regard to running transactions. That is safe exactly as long
  as no running transaction has read the predecessor of a deleted row
  (`ThinningIsSafeExactlyWhen`), and its window of days against transactions of seconds ensures
  it (`RetentionSparesHeldBases`).
- Presence tolerates 35,001 ms of silence, not one millisecond more (`SilenceBoundIsTight`).
- A `+` in a version is left unescaped in the changelog patterns, so such a version never takes
  its own header (`TakesItselfExactlyWhen`): the check fails after generation, a second
  generation adds the entry again, and the slice is not found. It may take another's: the
  pattern of 1.0.1+1 takes the header of 1.0.11, so adding an entry for the one changes the slice
  of the other (`SliceUnchangedExactlyWhen`, `AnotherVersionsSliceChanges`).

## Model

| member | source | states |
|---|---|---|
| `YjsUpdate.MergeIsJoin` | apps/hocuspocus.server/src/config/hocuspocus.config.ts:290-301 | Merging contains both sides and deletes what either deleted. |
| `YjsUpdate.MergeVisible` | apps/hocuspocus.server/src/config/hocuspocus.config.ts:290-301 | A reader of a merge sees an item exactly when some side holds it and no side deleted it, with its own content. |
| `YjsUpdate.CompactIsSafe` | apps/hocuspocus.server/scripts/backfill-strip-ghosts.ts:45-54 | Compaction is idempotent, keeps what a reader sees, keeps what the update covers, and leaves no deleted item holding text. |
| `YjsUpdate.StripIsSafe` | apps/hocuspocus.server/src/lib/snapshotMetadata.ts:8-15 | Stripping a snapshot hides only the transient metadata keys and leaves no ghost. |
| `YjsUpdate.StripHidesExactly` | apps/hocuspocus.server/src/lib/snapshotMetadata.ts:8-15 | A reader of a stripped snapshot misses exactly the commit message and the draft flag. |
| `YjsUpdate.StripBeforeMergeGhosts` | apps/hocuspocus.server/src/config/hocuspocus.config.ts:290-301 | Exactly which deleted items still hold text when the two sides are stripped before they are merged. |
| `YjsUpdate.StripBeforeMergeLeaksDeletedText` | apps/hocuspocus.server/src/config/hocuspocus.config.ts:290-301 | A head and a state for which stripping first leaves deleted text in the row and merging first does not. |
| `YjsUpdate.AppendIsSafe` | apps/hocuspocus.server/src/config/hocuspocus.config.ts:290-301 | Merging raw and stripping the result leaves no ghost and shows the union. |
| `YjsUpdate.StoredShowsTheUnion` | apps/hocuspocus.server/src/config/hocuspocus.config.ts:290-301 | For every history of saves, the row left shows exactly what some save held and none deleted, and holds no deleted text. |
| `YjsUpdate.HiddenOnlyByDeletion` | apps/hocuspocus.server/src/config/hocuspocus.config.ts:290-301 | Along every history of saves, an item leaves the row only because some save deleted it, or because it is transient metadata. |
| `VersionLedger.StepKeepsInv` | apps/hocuspocus.server/src/config/hocuspocus.config.ts:280-351 | Every step of every replica (stale locked reads, collisions, the retry, drops, failures, migrations, retention, the passing of time) keeps the ledger's invariant. |
| `VersionLedger.RunKeepsInv` | apps/hocuspocus.server/src/config/hocuspocus.config.ts:280-351 | So does every run. |
| `VersionLedger.SaveLandsOnTheNewestRow` | apps/hocuspocus.server/src/config/hocuspocus.config.ts:280-351 | A save past the unique key is one above the row it merged, which is still the newest, and contains it and the writer's state; a save that collides was overtaken, and a flush is dropped only after two rows have landed since its state was taken. |
| `VersionLedger.HeadOnlyGrows` | apps/hocuspocus.server/src/config/hocuspocus.config.ts:280-351 | Over every run the newest row contains every row inserted since the last schema rebuild, that rebuild too, and all that each save among them carried. |
| `VersionLedger.HeadShowsEverySave` | apps/hocuspocus.server/src/config/hocuspocus.config.ts:280-351 | After any interleaving from an empty table whose edits and rebuilds are authentic, a reader of the newest row sees exactly the last rebuild and every save since, and a saved row holds no ghosts. |
| `VersionLedger.FlushIsSavedOrOvertaken` | apps/hocuspocus.server/src/config/hocuspocus.config.ts:264-347 | Over every run, a save that lands inserts its room's state as the task's last flush found it; a flush is given up only after two rows have landed since that event. |
| `VersionLedger.DroppedFlushIsCarried` | apps/hocuspocus.server/src/config/hocuspocus.config.ts:328-347 | Every row the room saves after a flush dropped at its second collision contains the dropped state. |
| `VersionLedger.OneRebuildPerBase` | apps/hocuspocus.server/src/config/hocuspocus.config.ts:46-92 | Whatever replicas load one old-schema base at once, at most one rebuild of it is ever inserted, directly above it. |
| `VersionLedger.LoadsServeStoredBytes` | apps/hocuspocus.server/src/config/hocuspocus.config.ts:56-92 | A load ends with the bytes of a stored row: its own rebuild, the row that overtook it, the winner of a collision, or the row it loaded when it fails. |
| `VersionLedger.RebuildsAreTheLoadsOwn` | apps/hocuspocus.server/src/config/hocuspocus.config.ts:46-92 | Over every run, each rebuilt row holds what the last load of the task that inserted it had computed, on the row that was newest when that load began. |
| `VersionLedger.LoadIsServedItsRebuild` | apps/hocuspocus.server/src/config/hocuspocus.config.ts:56-92 | The insert that ends a load inserts and serves exactly that load's rebuild if no row has been inserted since it began, and neither otherwise. |
| `VersionLedger.UndisturbedLoad` | apps/hocuspocus.server/src/config/hocuspocus.config.ts:156-189 | Nobody else acting, a load of a document that has a row ends so, and its rebuild is the newest row. |
| `VersionLedger.FailedLoadServesWhatItLoaded` | apps/hocuspocus.server/src/config/hocuspocus.config.ts:178-189 | A load that fails is served the row that was newest when it began. |
| `VersionLedger.RetentionSparesHeldBases` | apps/hocuspocus.server/src/lib/retention.ts:62-81 | In every sound state, a row older than the retention days follows no version that a transaction still running has read. |
| `VersionLedger.ThinningIsSafeExactlyWhen` | apps/hocuspocus.server/src/lib/retention.ts:62-81 | Deleting an old row keeps the ledger's invariant exactly when no transaction still running has read the row before it. |
| `VersionLedger.RetentionTakesOneRow` | apps/hocuspocus.server/src/lib/retention.ts:62-81 | Retention takes away that row and no other, and the newest one stays what it was. |
| `VersionLedger.OldRowsCanGo` | apps/hocuspocus.server/src/lib/retention.ts:62-81 | Any row but the newest can be taken once it is old enough. |
| `VersionLedger.UnguardedThinningBuriesASave` | apps/hocuspocus.server/src/lib/retention.ts:62-81 | Were one deleted then, a delayed save would pass the unique key below the newest row, where no reader sees it. |
| `DocumentRows.Documents.ApplyUpdate` | apps/hocuspocus.server/src/config/hocuspocus.config.ts:200-202 | An edit grows the room's live state as the ledger's step says, keeping the invariant. |
| `DocumentRows.Documents.BeginFallback` | apps/hocuspocus.server/src/config/hocuspocus.config.ts:264-280 | A flush takes the room's state. |
| `DocumentRows.Documents.LockHeadForSave` | apps/hocuspocus.server/src/config/hocuspocus.config.ts:280-289 | The locked read takes the newest row there is now. |
| `DocumentRows.Documents.InsertMerged` | apps/hocuspocus.server/src/config/hocuspocus.config.ts:294-351 | The insert lands, collides and retries once, or drops the flush, as the ledger's step says. |
| `DocumentRows.Documents.FetchOldSchema` | apps/hocuspocus.server/src/config/hocuspocus.config.ts:146-179 | A load takes the newest row as its base. |
| `DocumentRows.Documents.LockHeadForMigration` | apps/hocuspocus.server/src/config/hocuspocus.config.ts:56-67 | A newer head is served instead of rebuilding. |
| `DocumentRows.Documents.PersistMigratedSnapshot` | apps/hocuspocus.server/src/config/hocuspocus.config.ts:69-91 | The rebuild is inserted and served, or collides. |
| `DocumentRows.Documents.ServeWinner` | apps/hocuspocus.server/src/config/hocuspocus.config.ts:82-90 | The winner of a collision is served. |
| `GhostBackfill.FindCandidates` | apps/hocuspocus.server/scripts/backfill-strip-ghosts.ts:135-151 | The scan keeps exactly the rows whose rewrite changes them and shrinks them or erases deleted text. |
| `GhostBackfill.CandidatesAreGuarded` | apps/hocuspocus.server/scripts/backfill-strip-ghosts.ts:135-151 | Each candidate is a scanned row with its own compaction, and no row worth rewriting is missed. |
| `GhostBackfill.CandidateExactlyWhen` | apps/hocuspocus.server/scripts/backfill-strip-ghosts.ts:135-151 | A scanned row is rewritten exactly when that changes it and makes it smaller or erases deleted text. |
| `GhostBackfill.PerRowSafetyAlwaysHolds` | apps/hocuspocus.server/scripts/backfill-strip-ghosts.ts:181-196 | The per-row safety checks hold of every candidate, and every row carrying deleted text is one, so, re-encoding being deterministic, those checks never refuse a run. |
| `GhostBackfill.Corpus.Apply` | apps/hocuspocus.server/scripts/backfill-strip-ghosts.ts:210-240 | The loop leaves the rows, counts and halt of the specified fold, whatever others do before each update and each re-read. |
| `GhostBackfill.ApplyOnlyCompacts` | apps/hocuspocus.server/scripts/backfill-strip-ghosts.ts:210-240 | Wherever the loop stops, each row is what the other writers left, at most compacted. |
| `GhostBackfill.ReadersCannotTell` | apps/hocuspocus.server/scripts/backfill-strip-ghosts.ts:210-240 | So every surviving row shows what it would have shown without the backfill. |
| `GhostBackfill.HaltMeansInterference` | apps/hocuspocus.server/scripts/backfill-strip-ghosts.ts:226-239 | The halt on a diverging re-read happens only when another writer touched that row in between. |
| `GhostBackfill.FirstTurn` | apps/hocuspocus.server/scripts/backfill-strip-ghosts.ts:210-240 | A candidate is skipped unless its row still holds what was scanned, and the loop halts exactly when the row then reads back as anything else. |
| `GhostBackfill.QuietRun` | apps/hocuspocus.server/scripts/backfill-strip-ghosts.ts:210-240 | Undisturbed, every candidate is written, none is skipped, and no other row changes. |
| `GhostBackfill.OnePassIsEnough` | apps/hocuspocus.server/scripts/backfill-strip-ghosts.ts:135-240 | Undisturbed, one pass erases every ghost and a second pass finds no candidate. |
| `DocumentOccupancy.MemberNamesReadBack` | apps/hocuspocus.server/src/lib/documentOccupancy.ts:34-45 | The user id is read back from a member name exactly when it is not empty and holds no colon; the socket id may hold any. |
| `DocumentOccupancy.OccupantUserIds` | apps/hocuspocus.server/src/lib/documentOccupancy.ts:37-45 | The loop collects exactly the user ids of the members. |
| `DocumentOccupancy.CallKeepsAgreement` | apps/hocuspocus.server/src/lib/documentOccupancy.ts:107-186 | One touch, release or read, pruning or expiring on the way, keeps the shared set in agreement with the log of calls. |
| `DocumentOccupancy.SetAgreesWithLog` | apps/hocuspocus.server/src/lib/documentOccupancy.ts:107-186 | So over every run of calls with monotone time. |
| `DocumentOccupancy.AnswersMatchTheLog` | apps/hocuspocus.server/src/lib/documentOccupancy.ts:60-72 | Every answer is that of a never-pruned log of last touches within 45 s and not released: no earlier prune and no key expiry changes one. |
| `DocumentOccupancy.OccupancySet.TouchOccupant` | apps/hocuspocus.server/src/lib/documentOccupancy.ts:107-120 | A touch is logged and keeps the set in step with the log. |
| `DocumentOccupancy.OccupancySet.PruneAndListMembers` | apps/hocuspocus.server/src/lib/documentOccupancy.ts:60-72 | Lists exactly the members touched within 45 s and not released. |
| `DocumentOccupancy.OccupancySet.ReleaseOccupant` | apps/hocuspocus.server/src/lib/documentOccupancy.ts:133-153 | Says gone exactly when no other live member of the user is in the log. |
| `DocumentOccupancy.OccupancySet.ReadOccupantUserIds` | apps/hocuspocus.server/src/lib/documentOccupancy.ts:164-186 | Returns exactly the users present in the log. |
| `DocumentOccupancy.OccupancySet.Expire` | apps/hocuspocus.server/src/lib/documentOccupancy.ts:28-29 | Losing the key at the end of its TTL changes no score that any later instant can see. |
| `OccupancyExtension.StepKeepsInv` | apps/hocuspocus.server/src/extensions/document-occupancy.extension.ts:110-150 | Every hook keeps each open socket's member in the log at its last touch, less than 10 s behind what was last heard. |
| `OccupancyExtension.ConnectedExactlyWhen` | apps/hocuspocus.server/src/extensions/document-occupancy.extension.ts:45-61 | A connection is recorded and touched exactly for a browser, no bot, server or service, with a signed-in user who is not anonymous; else nothing changes. |
| `OccupancyExtension.OnlyOccupantsAreStamped` | apps/hocuspocus.server/src/extensions/document-occupancy.extension.ts:45-61 | Over every run, each stamp names the user of such a connection. |
| `OccupancyExtension.OpenSocketsArePresent` | apps/hocuspocus.server/src/extensions/document-occupancy.extension.ts:127-141 | An open socket silent for at most 35,001 ms is present, though its touches are throttled. |
| `OccupancyExtension.CloseJudgesPresenceExactly` | apps/hocuspocus.server/src/extensions/document-occupancy.extension.ts:99-108 | A close stamps exactly when it is that user's last socket on the document, with that socket's own last-heard time. |
| `OccupancyExtension.StampsAreIdeal` | apps/hocuspocus.server/src/extensions/document-occupancy.extension.ts:99-150 | Over every run within that bound the stamps are those of exact knowledge of who is open: one per departure, in any closing order. |
| `OccupancyExtension.SilenceBoundIsTight` | apps/hocuspocus.server/src/extensions/document-occupancy.extension.ts:127-150 | All runs in which no open socket is silent beyond a bound have the right stamps exactly when the bound is at most 35,001 ms; beyond it, a run of four events stamps a person whose other tab is open. |
| `OccupancyExtension.DocumentOccupancyExtension.Connected` | apps/hocuspocus.server/src/extensions/document-occupancy.extension.ts:112-123 | Plants the marker and touches, as the step says. |
| `OccupancyExtension.DocumentOccupancyExtension.BeforeHandleMessage` | apps/hocuspocus.server/src/extensions/document-occupancy.extension.ts:127-141 | Refreshes what was heard, and the set at most once per 10 s. |
| `OccupancyExtension.DocumentOccupancyExtension.OnDisconnect` | apps/hocuspocus.server/src/extensions/document-occupancy.extension.ts:143-150 | Releases and stamps as the step says. |
| `IndentDocument.FullTextIsAllCharacters` | extensions/extension-indent/src/indent.ts:128-134 | As much text as positions means every position is a character. |
| `IndentDocument.WithInPlace` | extensions/extension-indent/src/indent.ts:218-228 | Replacing a line's content leaves every token before and after it. |
| `IndentDocument.LinesAreOrdered` | extensions/extension-indent/src/indent.ts:142-179 | Textblocks follow one another without overlap inside the document. |
| `IndentCommands.IndentContextAtPos` | extensions/extension-indent/src/indent.ts:64-74 | The loop finds the innermost textblock open at the position, with its parent. |
| `IndentCommands.FrameDecidesContext` | extensions/extension-indent/src/indent.ts:64-74 | A line's context depends only on the block boundaries before it. |
| `IndentCommands.ContextExactly` | extensions/extension-indent/src/indent.ts:64-74 | There is a context exactly when some textblock opened before the position is not closed; it is the innermost one's name with that of the block just around it, or doc. |
| `IndentCommands.EnclosedContext` | extensions/extension-indent/src/indent.ts:64-74 | In a textblock that stands in some block after balanced siblings: that textblock and that block. |
| `IndentCommands.TopLevelContext` | extensions/extension-indent/src/indent.ts:64-74 | In a textblock that nothing encloses: that textblock and doc. |
| `IndentCommands.MetCounts` | extensions/extension-indent/src/indent.ts:154-175 | A line is listed once for every range that meets it with at least one selected position. |
| `IndentCommands.LinesInRange` | extensions/extension-indent/src/indent.ts:154-175 | The walk lists the lines one range meets, or gives up exactly when one of them is disallowed. |
| `IndentCommands.MultilineLinesIfAllowed` | extensions/extension-indent/src/indent.ts:142-179 | The same over all ranges. |
| `IndentCommands.SortedStarts` | extensions/extension-indent/src/indent.ts:223 | Sorting positions is taking the positions of the sorted lines. |
| `IndentCommands.InsertAllIsIndented` | extensions/extension-indent/src/indent.ts:222-226 | Back to front, the positions computed before any edit put the text at each line's start. |
| `IndentCommands.IndentedSelection` | extensions/extension-indent/src/indent.ts:218-228 | Each line gets one copy for every range that meets it, before all it held, and nothing else changes. |
| `IndentCommands.OnceExactlyWhen` | extensions/extension-indent/src/indent.ts:218-228 | Every met line gets the indent exactly once, exactly when no two ranges meet one line. |
| `IndentCommands.Indent` | extensions/extension-indent/src/indent.ts:200-231 | The command acts exactly when it may, and leaves exactly the indented document or the caret insertion. |
| `OutdentCommand.SkipZeroWidthLeaves` | extensions/extension-indent/src/indent.ts:128-134 | The hop passes leaf nodes only and stops at the first other token. |
| `OutdentCommand.HopStaysOnLine` | extensions/extension-indent/src/indent.ts:128-134 | From a line's start the hop ends on that line, after its leading leaves. |
| `OutdentCommand.WindowEqualsText` | extensions/extension-indent/src/indent.ts:252-263 | Text of length L read from L positions is the indent exactly when all L positions are its characters on that line. |
| `OutdentCommand.TextStartsToo` | extensions/extension-indent/src/indent.ts:285-287 | The check on the line's whole text never refuses what the window test takes. |
| `OutdentCommand.Deletions` | extensions/extension-indent/src/indent.ts:284-287 | The pipeline keeps exactly the lines that start indented after their leading leaves, with the window to delete. |
| `OutdentCommand.DeleteAllIsStripped` | extensions/extension-indent/src/indent.ts:292-296 | Back to front, no deletion moves the window of a later one. |
| `OutdentCommand.StrippedLines` | extensions/extension-indent/src/indent.ts:284-296 | The listed lines lose one indent after their leading leaves; every other token stays. |
| `OutdentCommand.FindsTrailing` | extensions/extension-indent/src/indent.ts:252-256 | At a caret: exactly when the characters before it are the indent. |
| `OutdentCommand.FindsLeading` | extensions/extension-indent/src/indent.ts:257-263 | At a line start: exactly when the line's first characters are the indent. |
| `OutdentCommand.CaretStripsExactly` | extensions/extension-indent/src/indent.ts:252-274 | At a caret the characters before it go if they are the indent; else, at a line's start, the first ones if they are; else none. |
| `OutdentCommand.OutdentAtCursor` | extensions/extension-indent/src/indent.ts:242-276 | Deletes exactly those characters or does nothing. |
| `OutdentCommand.StripsOnceExactlyWhen` | extensions/extension-indent/src/indent.ts:281-297 | Deleting every window strips each line to strip once, exactly when no such line is met by two ranges. |
| `OutdentCommand.Outdent` | extensions/extension-indent/src/indent.ts:233-301 | The command acts exactly when it may; over any selection it leaves exactly the document with each such line stripped once if and only if no such line is met by two ranges. |
| `IndentRoundTrip.OutdentUndoesIndentExactlyWhen` | extensions/extension-indent/src/indent.ts:218-297 | Outdent over the ranges as the editor kept them gives the document back exactly when no range ended at the start of a line another one met. |
| `IndentRoundTrip.MappedMeets` | extensions/extension-indent/src/indent.ts:218-228 | A range mapped through the insertions meets the lines it met, those it ended at when text went in there, and no others. |
| `IndentRoundTrip.IndentThenOutdent` | extensions/extension-indent/src/indent.ts:200-301 | Tab, then Shift-Tab with the selection the editor kept, of any number of ranges: outdent acts, and gives the document back exactly under that condition. |
| `IndentRoundTrip.OneRangeTouchesNothing` | extensions/extension-indent/src/indent.ts:142-179 | A selection of one range always meets it. |
| `IndentRoundTrip.CaretIndentThenOutdent` | extensions/extension-indent/src/indent.ts:200-276 | The same at a caret. |
| `IndentRoundTrip.InsertInLine` | extensions/extension-indent/src/indent.ts:209-215 | Tab at a caret changes that line and nothing else. |
| `IndentRoundTrip.SharedLineLosesText` | extensions/extension-indent/src/indent.ts:281-297 | With two ranges on one indented line the command acts and deletes text that is not indentation. |
| `IndentRoundTrip.SharedLineIndentedTwice` | extensions/extension-indent/src/indent.ts:218-228 | On the same selection indent puts its characters in twice. |
| `IndentRoundTrip.TouchingRangeLosesText` | extensions/extension-indent/src/indent.ts:200-301 | With a range that ends where the next range's line starts, outdent after indent acts and does not give the document back. |
| `IndentRoundTrip.ListItemIsLeftAlone` | extensions/extension-indent/src/indent.ts:59-74 | Unless the rules name list items, neither command touches a paragraph in one, at a caret or over its line. |
| `IndentRoundTrip.SwitchedOff` | extensions/extension-indent/src/indent.ts:200-242 | Switched off, or with nothing to put in, neither command does anything. |
| `PgmqConsumer.DelaysGrow` | apps/hocuspocus.server/src/lib/pgmqConsumer.ts:75-83 | Every delay lies between the base and the cap and never falls as polls stay empty; none empty, it is the base. |
| `PgmqConsumer.DelayDoubles` | apps/hocuspocus.server/src/lib/pgmqConsumer.ts:75-83 | Each empty poll doubles the delay, ten times at most, until the cap. |
| `PgmqConsumer.CapIsReachedExactlyWhen` | apps/hocuspocus.server/src/lib/pgmqConsumer.ts:75-83 | The tenth doubling reaches the cap exactly when the base is at least 10 ms. |
| `PgmqConsumer.BackoffOnlyGrows` | apps/hocuspocus.server/src/lib/pgmqConsumer.ts:85-93 | After a poll that found messages the base delay is armed; no step arms a shorter delay than was due before it. |
| `PgmqConsumer.OnePollAtATime` | apps/hocuspocus.server/src/lib/pgmqConsumer.ts:185-213 | However often it is started and stopped, at most one poll reads at a time and every armed delay is in bounds. |
| `PgmqConsumer.OneChainExactlyWhen` | apps/hocuspocus.server/src/lib/pgmqConsumer.ts:215-243 | A step keeps to one chain of polls and timers exactly when it is not a start accepted during a poll. |
| `PgmqConsumer.OneChainThroughout` | apps/hocuspocus.server/src/lib/pgmqConsumer.ts:215-243 | The same over whole runs. |
| `PgmqConsumer.StartedOnce` | apps/hocuspocus.server/src/lib/pgmqConsumer.ts:215-235 | With one start there is one chain, whatever follows. |
| `PgmqConsumer.LoopGoesOn` | apps/hocuspocus.server/src/lib/pgmqConsumer.ts:85-93 | Started once and left running, there is always one poll in flight or one armed timer: with k firings k+1 polls have begun, each poll that finished has armed one timer, and its delay is that of the polls in a row that found nothing. |
| `PgmqConsumer.StartedAgain` | apps/hocuspocus.server/src/lib/pgmqConsumer.ts:215-243 | Stopped between two polls and started again, it polls at once and goes on so. |
| `PgmqConsumer.StartedTwice` | apps/hocuspocus.server/src/lib/pgmqConsumer.ts:216-220 | A second start before the first poll has come back is accepted and forks the loop. |
| `PgmqConsumer.StoppedStaysStopped` | apps/hocuspocus.server/src/lib/pgmqConsumer.ts:237-243 | After stop no poll starts and no timer is armed until the next start. |
| `PgmqConsumer.StopSilences` | apps/hocuspocus.server/src/lib/pgmqConsumer.ts:237-243 | Stopping the one chain leaves no timer. |
| `PgmqConsumer.Consumer.Start` | apps/hocuspocus.server/src/lib/pgmqConsumer.ts:216-235 | Refused while the handle is set or the client is missing; otherwise polls at once. |
| `PgmqConsumer.Consumer.TimerFires` | apps/hocuspocus.server/src/lib/pgmqConsumer.ts:90-93 | Polls, or re-arms while a poll is in flight. |
| `PgmqConsumer.Consumer.ReadReturns` | apps/hocuspocus.server/src/lib/pgmqConsumer.ts:191-197 | An empty read backs off; a full one resets the count. |
| `PgmqConsumer.Consumer.HandlersSettle` | apps/hocuspocus.server/src/lib/pgmqConsumer.ts:199-212 | The poll ends and the next is armed. |
| `PgmqConsumer.Consumer.Stop` | apps/hocuspocus.server/src/lib/pgmqConsumer.ts:237-243 | Disarms the timer the handle names. |
| `QueueDelivery.StepKeepsInv` | apps/hocuspocus.server/src/lib/pgmqConsumer.ts:164-183 | Every step of delivery, with redelivery, lost replies and crashes, keeps: what is sent is queued or has its job. |
| `QueueDelivery.NoMessageRemovedBeforeItsJob` | apps/hocuspocus.server/src/lib/pgmqConsumer.ts:164-183 | In every run, a message no longer queued has had its job accepted. |
| `QueueDelivery.AcknowledgedIsGone` | apps/hocuspocus.server/src/lib/pgmqConsumer.ts:164-183 | An acknowledgement the queue took removes its message for good and no other; one it did not take removes none. |
| `QueueDelivery.Delivered` | apps/hocuspocus.server/src/lib/pgmqConsumer.ts:164-183 | Nothing going wrong, a waiting message is leased, made a job and removed. |
| `QueueDelivery.LeaseIsExclusive` | apps/hocuspocus.server/src/lib/pgmqConsumer.ts:123-148 | A leased message is not leased again before its lease ends. |
| `QueueDelivery.CrashedDoesNoMore` | apps/hocuspocus.server/src/lib/pgmqConsumer.ts:164-183 | A handler that crashed or has tried its acknowledgement does nothing more. |
| `QueueDelivery.OneJobPerStableId` | apps/hocuspocus.server/src/lib/push/pgmqConsumer.ts:32-66 | A job id gets at most one job more than the times the job queue forgot it; never forgotten, at most one. |
| `QueueDelivery.NewJobExactlyWhen` | apps/hocuspocus.server/src/lib/push/pgmqConsumer.ts:45-48 | An accepted enqueue makes a new job exactly when the message has no stable id the job queue still holds. |
| `QueueDelivery.ForgottenIsNew` | apps/hocuspocus.server/src/lib/push/pgmqConsumer.ts:45-48 | An id the job queue has forgotten gets a new job. |
| `QueueDelivery.UnstableIdsDuplicate` | apps/hocuspocus.server/src/lib/push/pgmqConsumer.ts:45-48 | Without a stable id, one failed acknowledgement makes two jobs of one message. |
| `ClientAuthors.BindingNeverChanges` | apps/hocuspocus.server/src/lib/client-authors.ts:86-96 | Over every interleaving of processes a stored binding never changes. |
| `ClientAuthors.EveryBindingIsJustified` | apps/hocuspocus.server/src/lib/client-authors.ts:42-101 | A stored binding names an id that its user's socket had announced and that an update from that socket carried, in that document. |
| `ClientAuthors.BoundIsKeptPlusInFlight` | apps/hocuspocus.server/src/lib/client-authors.ts:32-34 | In every room of every run, bound is what succeeded plus what is in flight, batches are disjoint, and what succeeded is stored. |
| `ClientAuthors.FailureReopensOnlyItsOwn` | apps/hocuspocus.server/src/lib/client-authors.ts:97-98 | A failed batch re-opens its own ids and no others. |
| `ClientAuthors.WantedIsPending` | apps/hocuspocus.server/src/lib/client-authors.ts:78-84 | The loop's batch is exactly the announced, unbound authors, each once. |
| `ClientAuthors.PendingExactly` | apps/hocuspocus.server/src/lib/client-authors.ts:44-88 | An id is recorded exactly when the change has a socket, a user with an id, no draft and a parsed update, and the id is announced, an author of the update, and not yet bound. |
| `ClientAuthors.ClaimsAreRecorded` | apps/hocuspocus.server/src/lib/client-authors.ts:78-101 | Whatever happens in between, such an id is in the table once its batch has landed: under that user, or as it was before. |
| `ClientAuthors.ClientAuthorRoom.RecordClientAuthors` | apps/hocuspocus.server/src/lib/client-authors.ts:42-84 | Returns exactly the ids to bind and adds them to the bound set; the early exits lose none. |
| `ClientAuthors.ClientAuthorRoom.WriteFailed` | apps/hocuspocus.server/src/lib/client-authors.ts:97-98 | Takes exactly the batch's ids out of the bound set. |
| `RetentionLease.RedisKey.WithRedisLease` | apps/hocuspocus.server/src/lib/redisLease.ts:13-42 | Runs, skips or runs unleased, and leaves the key as the fleet's history says. |
| `RetentionLease.PassesAreSpaced` | apps/hocuspocus.server/src/lib/redisLease.ts:23-41 | Leased passes of the whole fleet start at least one lifetime apart. |
| `RetentionLease.OutcomeExactlyWhen` | apps/hocuspocus.server/src/lib/redisLease.ts:13-42 | An attempt runs unleased exactly when Redis fails, and runs leased exactly when it does not and every leased pass before started a lifetime ago. |
| `RetentionLease.ShortPassesNeverOverlap` | apps/hocuspocus.server/src/lib/redisLease.ts:8-12 | Passes no longer than the lifetime never run side by side. |
| `RetentionLease.AtMostCeil` | apps/hocuspocus.server/src/hocuspocus.worker.ts:101-110 | A half-open window holds at most ceil(window/lifetime) of them. |
| `RetentionLease.BoundIsExact` | apps/hocuspocus.server/src/hocuspocus.worker.ts:101-110 | That bound is reached by some fleet: the most passes in any interval is exactly ceil(interval/lifetime). |
| `RetentionLease.TwoPassesPerInterval` | apps/hocuspocus.server/src/hocuspocus.worker.ts:101-103 | At most two passes per interval, for every run, exactly when the interval is under 2000 ms or a multiple of it. |
| `RetentionLease.FourAreEnough` | apps/hocuspocus.server/src/hocuspocus.worker.ts:101-110 | Four are always enough, and 3,999 ms needs four. |
| `RetentionLease.OwnLeaseBlocksExactlyWhen` | apps/hocuspocus.server/src/hocuspocus.worker.ts:106-110 | In some run of replicas each an interval apart a tick is skipped because of its own last lease, exactly when the interval is under 1000 ms. |
| `RetentionLease.SkippedByAnother` | apps/hocuspocus.server/src/hocuspocus.worker.ts:106-126 | So with an interval of at least a second, a skipped tick was beaten by another replica. |
| `SqlPatterns.ParseOnTableByExec` | packages/supabase/generate-functions-parity-migration.ts:44-54 | The match loop returns the first table after an ON that is not ON TRIGGER. |
| `SqlPatterns.OpensExactlyWhen` | packages/supabase/generate-functions-parity-migration.ts:64-78 | A line opens a comment that goes on exactly when no closing mark follows its first opening one, and closes one exactly when it holds a closing mark. |
| `SqlPatterns.CodeIsBeforeTheMark` | packages/supabase/generate-functions-parity-migration.ts:40-42 | What stands before the first line-comment mark is the code. |
| `SqlPatterns.ExecutesExactlyWhen` | packages/supabase/generate-functions-parity-migration.ts:98-101 | The end of a statement is found exactly where execute is followed by function or procedure. |
| `SqlPatterns.DropIsRecognised` | packages/supabase/generate-functions-parity-migration.ts:112-115 | The inserted statement matches the drop pattern for its trigger and table. |
| `TriggerRewriter.OnlyInserts` | packages/supabase/generate-functions-parity-migration.ts:56-128 | Taking the added lines out gives the input back. |
| `TriggerRewriter.LookAheadExactlyWhen` | packages/supabase/generate-functions-parity-migration.ts:86-103 | The table is that of the first of twelve lines to name one, with no other create or comment statement and no end of this one before; none exactly when there is no such line. |
| `TriggerRewriter.CommentIsCopied` | packages/supabase/generate-functions-parity-migration.ts:64-78 | From a line that opens a comment to the first that closes it, lines are copied, whatever they say. |
| `TriggerRewriter.EveryTriggerHasItsDrop` | packages/supabase/generate-functions-parity-migration.ts:109-118 | Every trigger reached with a table found has a matching drop in the five output lines before it. |
| `TriggerRewriter.SecondRunAddsNothing` | packages/supabase/generate-functions-parity-migration.ts:56-128 | Where every trigger reached resolves, a second run leaves the output unchanged. |
| `OwnDrops.DropsExactlyWhen` | packages/supabase/generate-functions-parity-migration.ts:111-116 | On a finished statement the drop test asks for the trigger's name and a table whose name starts with the one looked for, whatever the case. |
| `OwnDrops.FoundWithinFive` | packages/supabase/generate-functions-parity-migration.ts:111-116 | A drop with at most four lines after it is found. |
| `OwnDrops.OwnDropExactlyWhen` | packages/supabase/generate-functions-parity-migration.ts:111-118 | A trigger reached outside comments has a drop of its own, outside comments and on just its table, in the five lines before it exactly when the lines the test looked at did not hold a look-alike alone. |
| `OwnDrops.EveryTriggerHasItsOwnDrop` | packages/supabase/generate-functions-parity-migration.ts:56-128 | When no input line holds a look-alike, no two triggers of one name are on tables of which one's name starts the other's, and none stands in a comment, every trigger reached has its own drop. |
| `OwnDrops.LongerTableNameCounts` | packages/supabase/generate-functions-parity-migration.ts:111-115 | A drop on a table whose name goes on is a look-alike. |
| `OwnDrops.CommentedDropCounts` | packages/supabase/generate-functions-parity-migration.ts:111-115 | So is a drop that is commented out. |
| `OwnDrops.EveryMatchIsALookAlike` | packages/supabase/generate-functions-parity-migration.ts:111-118 | Where the test saw look-alikes alone, whatever it matched and is finished on its line either goes on past the table name or is in part a comment. |
| `OwnDrops.LookAlikeIsTaken` | packages/supabase/generate-functions-parity-migration.ts:111-118 | After a line with a look-alike alone, the trigger is written with no drop of its own before it. |
| `TriggerRuns.OldTableIsTaken` | packages/supabase/generate-functions-parity-migration.ts:56-128 | So it is for a drop on docs_old and a trigger on docs, run on the two lines. |
| `TriggerRuns.OnOnlyTable` | packages/supabase/generate-functions-parity-migration.ts:37-54 | ONLY before the table name is passed over. |
| `TriggerRuns.TriggerIsPassedOver` | packages/supabase/generate-functions-parity-migration.ts:44-54 | ON TRIGGER names no table; the next ON does. |
| `TriggerRuns.CreatedTwiceDroppedOnce` | packages/supabase/generate-functions-parity-migration.ts:109-118 | A trigger created on two lines in a row is dropped once, before the first. |
| `TriggerRuns.CreatedAgain` | packages/supabase/generate-functions-parity-migration.ts:56-128 | The run on two such lines. |
| `TriggerRuns.SecondRunAddsAWrongDrop` | packages/supabase/generate-functions-parity-migration.ts:86-118 | After a trigger whose table is not found, the drop added for the next one gives it that table on the second run, which adds a drop there. |
| `TriggerRuns.TwoRunsOnTwoLines` | packages/supabase/generate-functions-parity-migration.ts:56-128 | Both runs on two such lines. |
| `TriggerRewriter.LookForTable` | packages/supabase/generate-functions-parity-migration.ts:86-102 | The inner loop finds the table and the statement's extent that the specification finds. |
| `TriggerRewriter.MakeTriggersIdempotent` | packages/supabase/generate-functions-parity-migration.ts:56-128 | The outer loop writes exactly the specified output. |
| `FloatingPopover.NeverVisibleAgain` | packages/floating-popover/src/createPopover.ts:263-327 | A popover hidden, closed, evicted or destroyed by some step is visible in no later state of any run. |
| `FloatingPopover.EvictedReleaseIsHarmless` | packages/floating-popover/src/controller.ts:57-62 | Ending an evicted popover leaves its successor current. |
| `FloatingPopover.DestroyFreesExactlyWhen` | packages/floating-popover/src/createPopover.ts:322-328 | Destroying the current popover frees the controller exactly when it had been shown and kept its release. |
| `FloatingPopover.StepKeepsInvExactlyWhen` | packages/floating-popover/src/controller.ts:51-70 | Every living popover stays the current one across a step exactly when the step is not a close of a never-shown one. |
| `FloatingPopover.LivingIsCurrentThroughout` | packages/floating-popover/src/controller.ts:51-70 | The same over whole runs. |
| `FloatingPopover.AtMostOneVisible` | packages/floating-popover/src/controller.ts:51-70 | In such runs at most one popover is visible. |
| `FloatingPopover.TwoVisible` | packages/floating-popover/src/controller.ts:64-70 | Close on a never-shown popover, and two can be visible at once. |
| `FloatingPopover.PopoverController.Adopt` | packages/floating-popover/src/controller.ts:52-63 | The new popover is current and the previous one destroyed. |
| `FloatingPopover.PopoverController.CloseCurrent` | packages/floating-popover/src/controller.ts:64-70 | The controller is idle and the popover hidden. |
| `FloatingPopover.Popover.constructor` | packages/floating-popover/src/createPopover.ts:349-353 | Creation adopts, then keeps the release function. |
| `FloatingPopover.Popover.Hide` | packages/floating-popover/src/createPopover.ts:263-283 | Only a visible popover is hidden, ended and released. |
| `FloatingPopover.Popover.Show` | packages/floating-popover/src/createPopover.ts:285-288 | Only a popover neither visible nor ended is shown. |
| `FloatingPopover.Popover.Destroy` | packages/floating-popover/src/createPopover.ts:322-328 | Ended either way. |
| `Changelog.TakesItselfExactlyWhen` | scripts/release-family.ts:188-189 | The pattern made from a version takes that version's own header exactly when it has no plus. |
| `Changelog.PlainTakesNoOther` | scripts/release-family.ts:188-189 | The pattern of a version without a plus takes no other version's header. |
| `Changelog.GeneratedHasEntry` | scripts/release-family.ts:388-424 | After generating an entry the check finds one exactly when it did before or the version has no plus. |
| `Changelog.GeneratedSlice` | scripts/release-family.ts:507-518 | The slice cut out for the version just added is the generated text exactly when it has no plus. |
| `Changelog.OtherSlicesUnchanged` | scripts/release-family.ts:507-518 | The slice of every version is what it was, if an entry was there or its pattern does not take the new header. |
| `Changelog.SliceUnchangedExactlyWhen` | scripts/release-family.ts:507-518 | For any two versions, the slice of one is what it was before generating for the other exactly when an entry was there, its pattern does not take the new header, or it read as the new text already. |
| `Changelog.AnotherVersionsSliceChanges` | scripts/release-family.ts:507-518 | Generating for 1.0.11 gives 1.0.1+1, which had no notes, the new entry as its notes. |
| `Changelog.SecondGenerationChangesNothing` | scripts/release-family.ts:388-424 | A second generation changes nothing exactly when the entry was there at first or the version has no plus. |
| `Changelog.EachGetsItsEntry` | scripts/release-family.ts:398-424 | Over the family, each no-op package's file gets its entry and no other file changes. |
| `Changelog.GenerationPassesTheCheck` | scripts/release-family.ts:186-210 | Over the family, the check finds a no-op package's entry after generation exactly when it did before or the version has no plus. |
| `Changelog.ReleaseFamily.GenerateNoopChangelogEntries` | scripts/release-family.ts:388-424 | The loop leaves the files of the specified fold. |
| `Changelog.ReleaseFamily.CheckChangelogEntries` | scripts/release-family.ts:186-210 | Reports exactly the packages without a file or an entry. |
| `RevertCooldown.Cooldown.LocalCoolingDown` | apps/hocuspocus.server/src/lib/revertCooldown.ts:37-48 | Same verdict as a map never swept; after an insert the map holds at most 10,000 keys or as many as documents allowed within the cooldown. |
| `RevertCooldown.Cooldown.Sweep` | apps/hocuspocus.server/src/lib/revertCooldown.ts:41-45 | Removes exactly the expired entries. |
| `RevertCooldown.AllowedRevertsAreSpaced` | apps/hocuspocus.server/src/lib/revertCooldown.ts:37-48 | Allowed reverts of one document are at least 2000 ms apart. |
| `RevertCooldown.RefusedExactlyWhen` | apps/hocuspocus.server/src/lib/revertCooldown.ts:37-48 | A revert is refused exactly when one of that document was allowed less than 2000 ms before. |
| `TokenCache.CacheIsLastOnes` | apps/hocuspocus.server/src/lib/auth.ts:76-87 | Over every run the cache is the thousand tokens stored last, each with its last entry, in that order. |
| `TokenCache.OnlyTheFirstIsDropped` | apps/hocuspocus.server/src/lib/auth.ts:76-87 | A store drops an entry of another token exactly when its own was absent, the cache was full, and that entry was first in line. |
| `TokenCache.HitIsAVerification` | apps/hocuspocus.server/src/lib/auth.ts:93-135 | A hit repeats a real verification of that token, at most 60 s old when good and 30 s when bad; an unavailable one is never repeated. |
| `TokenCache.RepliesMean` | apps/hocuspocus.server/src/lib/auth.ts:117-147 | A user is kept for 60 s, a refusal for 30 s; an error that is retryable, without status, 429 or 5xx is unavailable and not kept, nor is an answer without user or error. |
| `TokenCache.Cache.Set` | apps/hocuspocus.server/src/lib/auth.ts:76-87 | Delete, drop the oldest when full, append. |
| `TokenCache.HitExactlyWhen` | apps/hocuspocus.server/src/lib/auth.ts:93-135 | Over every run, a lookup hits exactly when the last answer about that token still lives and the token is among the thousand answered last, and then gives that answer. |
| `TokenCache.Cache.Ask` | apps/hocuspocus.server/src/lib/auth.ts:97-102 | The same of the live cache: a hit, exactly then, with the outcome of that token's last answered verification. |
| `TokenCache.Cache.Conclude` | apps/hocuspocus.server/src/lib/auth.ts:117-147 | Each reply gives its outcome, and only answers are kept. |
| `BlockText.BlockText` | apps/hocuspocus.server/src/lib/blockText.ts:8-33 | The walk on an explicit stack ends for every tree and gives the lines of the recursive walk. |
| `BlockText.Visit` | apps/hocuspocus.server/src/lib/blockText.ts:12-28 | One visit trades a node for its line and its children, in document order. |
| `BlockText.OneLineEach` | apps/hocuspocus.server/src/lib/blockText.ts:18-24 | One line for each node with a text child. |
| `BlockText.TextRunJoins` | apps/hocuspocus.server/src/lib/blockText.ts:18-24 | A line is its node's child texts one after another, in order. |
| `BlockText.LinesAre` | apps/hocuspocus.server/src/lib/blockText.ts:12-28 | A node's own line comes first, then its children's in order. |
| `BlockText.JoinIs` | apps/hocuspocus.server/src/lib/blockText.ts:31 | The lines are joined in order with the separator between. |
| `DocumentId.DeriveDocumentId` | apps/hocuspocus.server/src/lib/documentId.ts:19-32 | Nineteen base-62 digits, lowest first, of the digest modulo 62^19. |
| `DocumentId.FirstWeighsMost` | apps/hocuspocus.server/src/lib/documentId.ts:19-26 | The digest is read with its first byte highest. |
| `DocumentId.LettersAreDigits` | apps/hocuspocus.server/src/lib/documentId.ts:6 | The sixty-two digits and letters stand for one digit of the id each, and nothing else does. |
| `DocumentId.LettersInOrder` | apps/hocuspocus.server/src/lib/documentId.ts:6 | The digits come first, then the small letters, then the capitals. |
| `DocumentId.SameIdExactlyWhen` | apps/hocuspocus.server/src/lib/documentId.ts:25-31 | Two ids are the same exactly when the digests agree modulo the number of ids. |
| `DocumentId.HashInputsDiffer` | apps/hocuspocus.server/src/lib/documentId.ts:20 | Different slugs or epochs always hash different text. |

## Left out

- `store`: draft and sealed-room exits, the one-shot commit label, contributors, and the enqueue that precedes the fallback.
- Yjs byte encoding and block structure: an item here has an identity and a content, and merging is union with the older content kept.
- VersionLedger.HeadOnlyGrows: claims nothing across a schema rebuild, because a rebuild replaces the head by new item identities.
- VersionLedger.HeadShowsEverySave: takes a rebuild to be authentic, with new identities for what it holds, and says nothing of what came before it.
- VersionLedger.RetentionSparesHeldBases: takes a transaction to last at most 5 s, the default of the database client, which the code does not change; a row's stamp to be no earlier than the start of its transaction; and any row to be old enough to delete; the rows a person named, which retention keeps, are not told apart.
- VersionLedger.DroppedFlushIsCarried: assumes, as the debouncer ensures, that a room has one flush running at a time.
- Permanent deletion of a document and its rows.
- The backfill's comparator controls at lines 108-133, which also refuse a table whose rows all look the same; its MD5 guard is equality of bytes.
- Redis faults and timeouts of the occupancy calls. A release lost to one can suppress a later stamp for up to 45 s, so stamps are claimed for fault-free runs only.
- OccupancyExtension.StampsAreIdeal: assumes fresh socket ids, user ids without a colon, and no open socket silent for longer than 35,001 ms.
- `leafText` of node specifications: leaves contribute no text here. List, table and keyboard delegation of the Tab key, and how the editor maps selections other than through insertions.
- OutdentCommand.Outdent: where two ranges meet one line, what is deleted is given as tokens; a second window that crosses a block boundary is a structural edit in the editor library, which tokens do not capture.
- The `for` loop that copies a trigger statement line by line is one concatenation here, as is each `map` and `filter` over lines.
- Digest messages, `deterministicJobId` and the handlers' status updates: only messages with one row id, or none, are delivered.
- QueueDelivery.OneJobPerStableId: counts ids the job queue forgot, because completed jobs are eventually removed there.
- Redis keys are taken to be gone from the last millisecond of their lifetime on.
- The unleased arm of the lease runs without bound while Redis fails; only leased passes are counted.
- TriggerRewriter.SecondRunAddsNothing: gives a sufficient condition; where a table is not found there is an example, and no exact condition.
- OwnDrops.EveryTriggerHasItsOwnDrop: quoted text and function bodies count as code, and a drop not finished on its line as a look-alike.
- Version strings with two `+` in a row or one at the start.
- Listeners, callbacks, positioning, timers and DOM of the popover, and re-entrance from its callbacks.
- npm and git lookups of the release script, the other preflight checks, and the publish loop.
- The Redis arm of the revert cooldown, whose allowed reverts the map never sees.
- SHA-256: the digest is a parameter, and distinct inputs are shown to be distinct before it.
- The worker's error-window counter, metrics, logging, HTTP and admin code.
