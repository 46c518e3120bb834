# Verified models of the session document, its room, and the device around it

This project models the parts of the repository that move a chat's state between an agent, a
shared document, a durable room and a viewer, and proves what those parts promise. Everything is
Dafny; `dafny verify dfyconfig.toml` checks it.

**The transcript pipeline** (`crates/doc`). `Parts` is the fold of agent events into message parts,
`FoldMeaning` says what the folded parts mean in terms of the event history alone. `Schema` is the
stored document: parts and their stored form, and the segment writer that writes only what changed
since its last tick. `Splitting` and `SplitEntries` cap the size of an entry, `Continuations` undoes
the cap when reading. `TranscriptDelta` is what a delta frame says, `DeltaMethods` the loops that
compute and apply one in place, `DeltaRoundTrip` and `DeltaTheorems` what sender and viewer can rely
on. `Evolution` says which changes of a document a frame delivers, and `Pipeline` runs all stages
together under any schedule of events, ticks, turns, remote merges and publications.

**The session room** (`edge/src/session-room.ts`, `edge/src/blobs.ts`). `RoomCodec` holds the row
and fragment formats, `Blobs` the chunked blob store. `Room` describes every handler as a function
on one state: memory, live storage, what storage rolls back to when the object is killed, and the
disaster copy outside it. `RoomSafety` proves the invariant handler by handler, `RoomTheorems` states
the guarantees over all runs. `SessionRoom` is the object itself, a class with the source's fields
whose methods and loops are proved to do what `Room` says. A document is the set of operations it has
absorbed; importing is union; "has seen at least as much" is the version-vector order.

**The device** (`crates/engine`, `edge/src/device-room.ts`). `Commands`, `CommandDrain` and
`CommandTheorems` are the durable command ledger and its executor under crashes that roll the document
back but not the processed ledger. `DocLru` is the bounded set of open documents, `Journal` the
append-only run journal under a process that may die at any character, `Nudges` the nudge queue and
the choice of the live host, `Base64` the token payload decoder.

Each algorithm that the source runs step by step is a method with its loop, proved equal to a
specification function; the properties are lemmas about that function. Several guarantees are false as
one might first state them. Each of those comes with the condition under which it holds and with a
lemma giving inputs on which it fails: a delta over reordered entries, an append into a repeated part
id, a question whose part's name a tool call has taken, a tool that becomes unresolved, an entry merged
before the live one, an update too long for its length field, a duplicated fragment, a batch rejected
midway, a log over its budget because a due fold was killed, a backup torn from its bookkeeping by a
kill, two drains at once, and chat ids that become one file name.

Where code and comments disagree the code is followed: `drain_commands` ignores the answer of
`mark_processed` (`TwoDrainsExecuteTwice`), and the monotone gate of the nightly backup compares with
the stored bookkeeping rather than with the copy (`TornBackupRegresses`).

## Model

| member | source | states |
|---|---|---|
| Parts.Accumulator.FoldEvent | crates/doc/src/parts.rs:88-192 | the in-place fold of one event equals the fold function |
| Parts.Accumulator.ResolveOpenInputs | crates/engine/src/sessions.rs:1403-1407 | the end of a run resolves every open question and changes nothing else |
| Parts.ToolIndex | crates/doc/src/parts.rs:107-114 | the first tool part with an id, if any |
| Parts.FoldKeepsWellFolded | crates/doc/src/parts.rs:88-192 | a text part at index i is always called t{i}, a tool in error is resolved, an input is named after its request |
| Parts.FoldGrows | crates/doc/src/parts.rs:88-192 | between turn boundaries a fold only appends parts, lengthens text and sets resolved |
| Parts.FoldAllKeeps | crates/doc/src/parts.rs:88-192 | both properties over whole runs of events |
| Parts.BoundaryResets | crates/doc/src/parts.rs:81-94 | replay is safe: a run with a turn boundary folds to the same parts from any accumulator |
| Parts.TextIdInjective | crates/doc/src/parts.rs:96-101 | different positions give different text part names |
| Parts.RenderKeeps | crates/doc/src/parts.rs:194-225 | the privacy rewrite is idempotent and preserves growth and naming |
| Parts.RenderAlikeExactly | crates/doc/src/parts.rs:194-225 | two calls render alike iff they agree on everything public (kind, path, url, server, tool, name), and no rendered call carries content, old or new text, prompt or input |
| Parts.RenderedParts | crates/doc/src/parts.rs:194-225 | rendering a turn changes only the private content of its tool calls |
| Parts.ClosedParts | crates/engine/src/sessions.rs:1403-1407 | closing leaves no question open and changes nothing else |
| FoldMeaning.TextIsTheDeltas | crates/doc/src/parts.rs:88-106 | the text of the folded parts is the text deltas since the last turn boundary, none lost, repeated or moved |
| FoldMeaning.PartsInOrder | crates/doc/src/parts.rs:81-192 | since the last turn boundary there is one part for each event that puts one, in the order of these events and under their name, and the text in front of a part is exactly what was said before its event |
| FoldMeaning.PartsAlternate | crates/doc/src/parts.rs:95-104 | no two neighbouring parts are text |
| FoldMeaning.PartNamesDiffer | crates/doc/src/parts.rs:88-192 | no two tools share an id and no two other parts share a name |
| FoldMeaning.ToolsAreTheirHistory | crates/doc/src/parts.rs:107-138 | since the last turn boundary, a tool shows iff it was called, in one part, with its latest call, resolved iff a result came after its first call, in error as the latest such result says |
| FoldMeaning.QuestionsTellTheirAnswer | crates/doc/src/parts.rs:139-165 | since the last turn boundary, a question shows iff it was requested with no earlier tool call of its part's name, in one part with the words of the first request, resolved iff it was answered after that |
| FoldMeaning.UnborrowedQuestionsShow | crates/doc/src/parts.rs:139-165 | so without a tool call of its part's name a question shows iff it was requested |
| FoldMeaning.BorrowedNameHidesQuestion | crates/doc/src/parts.rs:139-152 | a run on which a tool call with the name of a question's part hides the question |
| FoldMeaning.ErrorsAreTheFailures | crates/doc/src/parts.rs:166-192 | since the last turn boundary, the error parts are the failures in order, except that the end of a run does not repeat a failure behind which nothing was put |
| DeltaMethods.TryTextAppend | crates/doc/src/transcript_delta.rs:78-110 | an append is found iff exactly one text part grew and nothing else changed |
| DeltaMethods.IndexById | crates/doc/src/transcript_delta.rs:120-124 | the map from id to the last entry with that id |
| DeltaMethods.CollectRemoved | crates/doc/src/transcript_delta.rs:127-131 | the ids of the previous list that the next one lacks, in order |
| DeltaMethods.DiffTranscript | crates/doc/src/transcript_delta.rs:116-169 | the loops compute the specified frame, reset fallback included |
| DeltaMethods.Viewer.RetainExcept | crates/doc/src/transcript_delta.rs:194-198 | removal keeps every other entry in order |
| DeltaMethods.Viewer.ApplyUpsertInPlace | crates/doc/src/transcript_delta.rs:199-214 | remove, find the anchor, insert behind it, or report the missing anchor |
| DeltaMethods.Viewer.ApplyAppendInPlace | crates/doc/src/transcript_delta.rs:215-239 | the three append errors, or the lengthened part |
| DeltaMethods.Viewer.ApplyFrame | crates/doc/src/transcript_delta.rs:180-249 | the in-place application is the specified one, with the same error |
| DeltaTheorems.RoundTripExactly | crates/doc/src/transcript_delta.rs:116-249 | applying the diff yields exactly the next transcript iff it is a reset, or the entries left in place keep their order and every append hits its part |
| DeltaTheorems.RoundTripInOrder | crates/doc/src/transcript_delta.rs:116-249 | with unique ids and shared entries in the same relative order the round trip is always exact |
| DeltaTheorems.SentExactly | crates/doc/src/transcript_delta.rs:126-160 | an entry is sent whole iff it is not what the viewer already has behind the same predecessor, up to one grown text |
| DeltaTheorems.ResetsExactly | crates/doc/src/transcript_delta.rs:161-169 | a frame resends the whole list iff it has more than four entries and at least half of them are new, and otherwise sends just the new ones |
| DeltaTheorems.UpsertRefusedExactly | crates/doc/src/transcript_delta.rs:199-214 | a viewer refuses an upsert iff it is to stand behind itself or behind an entry it does not have |
| DeltaTheorems.AppendRefusedExactly | crates/doc/src/transcript_delta.rs:215-239 | a viewer refuses an append iff the entry is missing or refuses it, and otherwise changes that entry alone |
| DeltaTheorems.AppendToExactly | crates/doc/src/transcript_delta.rs:219-239 | an entry refuses an append iff it has no such text or would come out at another length than announced |
| DeltaTheorems.RemovedInOrder | crates/doc/src/transcript_delta.rs:127-131 | removals are listed in the order of the previous list |
| DeltaTheorems.NeverDesyncs | crates/doc/src/transcript_delta.rs:180-249 | the frame is applied without error and leaves a permutation of the sender's entries iff it is a reset or its appends hit, whatever the order |
| DeltaTheorems.UniqueTextIdsHit | crates/doc/src/transcript_delta.rs:215-239 | appends hit when no entry repeats a text part id |
| DeltaTheorems.SharedOrderKeeps | crates/doc/src/transcript_delta.rs:112-115 | same relative order of shared entries implies the order condition of the exact round trip |
| DeltaTheorems.EmptyDeltaIffEqual | crates/doc/src/transcript_delta.rs:66-72 | a frame is suppressed iff nothing changed |
| DeltaTheorems.ReorderingGoesUnnoticed | crates/doc/src/transcript_delta.rs:240-247 | swapping two halves leaves the wrong order and passes the count check |
| DeltaTheorems.ShadowedAppendGoesUnnoticed | crates/doc/src/transcript_delta.rs:215-239 | with a repeated part id an append lands in the wrong part and passes the length check |
| DeltaRoundTrip.UpsertStep | crates/doc/src/transcript_delta.rs:199-214 | an upsert replaces its own entry and keeps every other one |
| DeltaRoundTrip.UpsertOrder | crates/doc/src/transcript_delta.rs:199-214 | an upsert behind a settled anchor extends the settled order |
| DeltaRoundTrip.PlaceAll | crates/doc/src/transcript_delta.rs:133-160 | all upserts of a diff find their anchors and settle exactly the sent and kept entries |
| DeltaRoundTrip.AppendAll | crates/doc/src/transcript_delta.rs:215-239 | all appends act entry by entry, and fail as a whole iff one of them fails |
| DeltaRoundTrip.OrderExact | crates/doc/src/transcript_delta.rs:126-160 | the copy has the sender's order iff the kept entries do |
| Continuations.JoinContinuationEntries | crates/doc/src/schema.rs:541-564 | the loop over an output list and a root index is the index-free join |
| Continuations.JoinConserves | crates/doc/src/schema.rs:541-564 | no part is lost or duplicated by the join |
| Continuations.JoinIdempotent | crates/doc/src/schema.rs:541-564 | joining twice is joining once |
| Continuations.NothingToJoin | crates/doc/src/schema.rs:542-544 | the early return agrees with the general path |
| Continuations.JoinedSnocMore | crates/doc/src/schema.rs:549-552 | a continuation of a known root extends that root in place |
| Continuations.JoinedSnocNew | crates/doc/src/schema.rs:552-561 | roots and orphans surface as their own rows |
| Continuations.MaterializeTail | crates/doc/src/schema.rs:754-773 | the tail is the suffix of the joined list of the requested length |
| Schema.ReadBackExactly | crates/doc/src/schema.rs:77-155 | a part reads back as written iff it is readable, and reading back always yields a readable one |
| Schema.EntryReadsBackExactly | crates/doc/src/schema.rs:189-199 | a written entry reads back as it was iff each of its parts is readable |
| Schema.ReadKeepsFields | crates/doc/src/schema.rs:511-537 | a read keeps id, role, time, device, status and root of every stored entry, and its parts by number and name |
| Schema.IncompletePartsRead | crates/doc/src/schema.rs:120-153 | a stored part that lacks something reads under its name and kind with nothing in its place; a tool without its call reads as empty text |
| Schema.UpdateFieldsExactly | crates/doc/src/schema.rs:711-736 | a field update equals a fresh write iff kind and name stay and no resolution is taken back |
| Schema.SyncIsDirectWrite | crates/doc/src/schema.rs:635-691 | one sync of a grown segment leaves what a direct write would, inserting only the new text |
| Schema.WriterAgrees | crates/doc/src/schema.rs:566-691 | over any run of syncs of growing folds the document holds the last fold and each text byte was inserted once |
| Schema.SyncExactly | crates/doc/src/schema.rs:635-736 | a sync never fails and leaves a direct write of the fold iff no part is gone and each keeps its stored name and kind and its resolution |
| Schema.SyncFailsExactly | crates/doc/src/schema.rs:635-691 | whatever others made of the entry, a sync fails iff a changed part is gone or a growing text has none, and it fails at the first such part |
| Schema.WriterAgreesExactly | crates/doc/src/schema.rs:566-736 | over any run of folds, the document is the direct write of the fold after every sync iff this holds between successive folds |
| Schema.UnresolvingIsLost | crates/doc/src/schema.rs:711-736 | without monotone resolution the document keeps a stale marker |
| Schema.SessionDoc.PushMessage | crates/doc/src/schema.rs:189-199 | a complete entry is appended with all parts in stored form |
| Schema.SegmentWriter.Begin | crates/doc/src/schema.rs:587-616 | the live entry is pushed empty, and its index captured |
| Schema.SegmentWriter.Sync | crates/doc/src/schema.rs:635-691 | the loop does what the specified sync does to the entry at the captured index, and to no other |
| Schema.SegmentWriter.SyncOne | crates/doc/src/schema.rs:639-686 | one part of the sync, with its errors |
| Schema.SegmentWriter.Finish | crates/doc/src/schema.rs:694-700 | final sync, then the terminal status on the same entry |
| Evolution.FrameDelivers | crates/engine/src/rpc.rs:986-1012 | any change that writes entries further and merges new ones in reaches the viewer exactly |
| Pipeline.StepKeepsInv | crates/engine/src/sessions.rs:1011-1051 | no step of events, ticks, turn ends, merges and publications fails, and each keeps viewer and document in agreement |
| Pipeline.RunKeepsInv | crates/engine/src/sessions.rs:1011-1051 | the same over whole runs |
| Pipeline.RunTells | crates/engine/src/sessions.rs:1301-1430 | in every reachable world the document's entries but the live one are those of the story of the run, told without writer, timer or frames |
| Pipeline.EndToEnd | crates/engine/src/sessions.rs:1011-1032 | after any run over any number of turns, a tick and a publication, the viewer holds the joined document, and its entries are the initial and merged ones and one direct write of all events of each turn that said anything |
| Pipeline.EndToEndFinished | crates/engine/src/sessions.rs:1301-1430 | the same when a steer or the end of the run closes the turn, with its status, and open questions resolved at the end of the run |
| Pipeline.DocumentIsPrivate | crates/engine/src/sessions.rs:1011-1051 | in every reachable world, every entry of the document was there before, was merged in, or is free of contents, replaced text, prompts and tool inputs |
| Pipeline.TurnEntryReads | crates/doc/src/schema.rs:528-536 | a written turn reads back as an assistant message of its own, with its id, time, device and status |
| Pipeline.WellFoldedReads | crates/doc/src/schema.rs:77-153 | a reader sees a turn as it was folded, part by part, but for the private content of calls and the name of questions |
| Pipeline.StepKeepsPlaces | crates/doc/src/schema.rs:594-616 | no step but a merge moves or changes an entry other than the live one, and a turn begins behind all others |
| Pipeline.TickAfterMerge | crates/doc/src/schema.rs:594-691 | after a merge at any position the next tick brings the live entry up to date iff the merge was behind it or nothing was new; otherwise it fails or leaves the live entry as it was, because the index is captured once |
| Splitting.FindCut | crates/doc/src/parts.rs:254-261 | the backing-off loop finds the cut of the specification |
| Splitting.CutProgress | crates/doc/src/parts.rs:254-261 | on UTF-8 text the forward-progress guard is never taken |
| Splitting.EncodedIsUtf8 | crates/doc/src/parts.rs:248-261 | every text in the encoding of section 3 of RFC 3629 has the shape the splitter relies on |
| Splitting.PiecesSpell | crates/doc/src/parts.rs:248-272 | the pieces are non-empty, within the limit, valid UTF-8, and spell the text |
| Splitting.PiecesAreNamed | crates/doc/src/parts.rs:262-270 | the pieces of a text have different names, the first that of the text |
| Splitting.PiecesAreFull | crates/doc/src/parts.rs:254-261 | no piece but the last is more than three bytes below the limit |
| Splitting.WeightCounts | crates/doc/src/parts.rs:274-279 | a chunk weighs its text and error bytes and the JSON of its calls and questions |
| Splitting.SplitParts | crates/doc/src/parts.rs:237-283 | the loops compute the specified chunks |
| Splitting.SplitIsBounded | crates/doc/src/parts.rs:237-283 | flattened chunks are the parts with oversized texts expanded; each chunk fits, or is weightless parts before one oversized part that is not text; a new chunk starts only when needed |
| Splitting.ExpandedIsLossless | crates/doc/src/parts.rs:248-272 | expansion keeps all text and all other parts |
| Splitting.ExpandedIsStable | crates/doc/src/parts.rs:246-279 | without oversized text nothing is rewritten |
| SplitEntries.SplitThenJoin | crates/doc/src/parts.rs:228-288 | entries split with continuation ids join back into one entry with the same text and parts |
| SplitEntries.StoredSplitJoins | crates/doc/src/parts.rs:228-288 | entries split, stored, read back and joined are one entry again, if its parts are readable |
| SplitEntries.PushSplit | crates/doc/src/schema.rs:189-199 | entries pushed one after the other are stored behind what was there, in order |
| SplitEntries.EntriesKeepFields | edge/src/session-doc/messages.ts:182-195 | every entry of a split carries the author, time, device and status of the original, and all but the first name it as their root |
| SplitEntries.ContinuationIdsDiffer | crates/doc/src/parts.rs:227-230 | continuation ids differ from the root and from each other |
| RoomCodec.CombinePendingUpdates | edge/src/session-room.ts:767-788 | the loop writes length-prefixed updates one after the other |
| RoomCodec.SplitCombinedUpdates | edge/src/session-room.ts:790-804 | the loop reads a row as specified, stopping at a cut-off update |
| RoomCodec.SplitCombineExactly | edge/src/session-room.ts:767-804 | splitting undoes combining iff every update is shorter than 2^32 bytes |
| RoomCodec.RowLayout | edge/src/session-room.ts:767-788 | a row is, update by update, a four-byte length with the most significant byte first, and the update |
| RoomCodec.SplitPrefix | edge/src/session-room.ts:790-804 | of a row cut off anywhere, exactly the complete updates are read |
| RoomCodec.SendFragments | edge/src/session-room.ts:940-961 | the fragments in index order |
| RoomCodec.Reassembler.Handle | edge/src/session-room.ts:565-610 | header, fragment and close as the specified step on the batch table, holes from an index past the end included |
| RoomCodec.RefusedExactly | edge/src/session-room.ts:565-600 | a fragment is answered as of an unknown batch iff its batch is not open, a header refused iff it announces more fragments than an array holds; neither changes anything |
| RoomCodec.FragmentsReassembleExactly | edge/src/session-room.ts:565-610 | as many genuine fragments as a batch has, in any order and interleaved with other traffic, complete it exactly at the last one, and it then holds the whole update iff no fragment came twice |
| RoomCodec.FragmentsReassemble | edge/src/session-room.ts:565-610 | so fragments delivered once each give the original update |
| RoomCodec.DuplicateCompletesEarly | edge/src/session-room.ts:599-602 | a delivery in which a duplicated fragment completes a batch early with a hole |
| Blobs.BlobStore.Put | edge/src/blobs.ts:29-35 | the blob is stored in full chunks and one last chunk, replacing what was there |
| Blobs.BlobStore.Get | edge/src/blobs.ts:36-48 | the concatenated rows, or nothing if there are none |
| Blobs.ChunkingIsUnique | edge/src/blobs.ts:29-35 | there is one way to chunk given bytes |
| Blobs.PutThenGet | edge/src/blobs.ts:29-51 | get after put returns the bytes, empty included; other names are untouched; deleted names are gone |
| RoomSafety.UpsertsSuffice | edge/src/session-room.ts:191-209 | upserting only the changed keys leaves the table equal to the whole cache |
| RoomSafety.ColdStartFacts | edge/src/session-room.ts:614-687 | what a cold start leaves in memory and in committed storage |
| RoomSafety.DropsAfterAttempts | edge/src/session-room.ts:623-624 | a cold start decides by the attempts that committed storage remembers |
| RoomSafety.EnsureDocKeeps | edge/src/session-room.ts:614-687 | a cold start keeps the invariant, materializes exactly the stored log and leaves it in place, or empties both if it breaks the wedge |
| RoomSafety.ColdStartDiesKeeps | edge/src/session-room.ts:623-636 | a death between the two syncs costs one counted attempt and nothing else |
| RoomSafety.DeliverKeeps | edge/src/session-room.ts:496-520 | a batch is imported in order and buffered whole or not at all; storage is not touched |
| RoomSafety.FlushKeeps | edge/src/session-room.ts:726-765 | a flush keeps the invariant and moves exactly the buffer into storage, as one row or folded with the document |
| RoomSafety.FlushDiesKeeps | edge/src/session-room.ts:748-764 | a kill between the sync of the row and that of the fold keeps the row and puts the fold off |
| RoomSafety.FoldKeeps | edge/src/session-room.ts:804-812 | a log fold stores exactly the document |
| RoomSafety.AlarmKeeps | edge/src/session-room.ts:814-890 | the alarm keeps the invariant and moves the backup only forwards |
| RoomSafety.AlarmDiesKeeps | edge/src/session-room.ts:876-887 | a death after the put keeps the invariant |
| RoomTheorems.StepKeeps | edge/src/session-room.ts:614-890 | every step keeps the invariant and moves the backup only as allowed |
| RoomTheorems.StepIsStepped | edge/src/session-room.ts:614-890 | what each step and each kill does to the rows of the log, to the counted attempts, to what failed batches left in the document, and to what storage holds |
| RoomTheorems.DocumentIsLog | edge/src/session-room.ts:543-563 | in every reachable room the cached document is snapshot, log and buffer plus what failed batches imported, and equals the log iff the log covers that |
| RoomTheorems.WholeBatchesAreTheLog | edge/src/session-room.ts:507-516 | while every batch is accepted whole the cached document equals snapshot, log and buffer |
| RoomTheorems.RejectionShows | edge/src/session-room.ts:507-516 | after the first failed batch it does iff the operations of the accepted prefix are already in the log |
| RoomTheorems.HousekeepingKeepsDocument | edge/src/session-room.ts:726-890 | flush, fold, trim, backup and cold replay leave the document unchanged unless the cold start breaks a wedge |
| RoomTheorems.HibernationIsInvisible | edge/src/session-room.ts:614-687 | flushing, sleeping and waking gives the same document iff the flush folds or the log covers what failed batches imported |
| RoomTheorems.FlushedUpdatesSurvive | edge/src/session-room.ts:726-765 | once flushed, an update survives every run of steps and kills that does not drop the log |
| RoomTheorems.LogStaysWithinBudget | edge/src/session-room.ts:743-764 | a reachable log is within both budgets iff no fold that came due has died since it last was, and over them by no more than the rows whose folds died |
| RoomTheorems.FinishedFoldsKeepBudget | edge/src/session-room.ts:750-764 | without kills inside a flush both budgets hold in every reachable room |
| RoomTheorems.WedgeBreakIsSafe | edge/src/session-room.ts:616-636 | of all steps but a reset, a cold start after enough replay deaths with no completed replay between empties the stored log, and every other one keeps all its operations |
| RoomTheorems.WedgeBreakIsLive | edge/src/session-room.ts:616-636 | if every replay dies, the first cold start past the limit empties the room, and not before |
| RoomTheorems.OtherDeathsAreHarmless | edge/src/session-room.ts:662-675 | over any run of steps and of kills other than in a replay, storage loses no operation |
| RoomTheorems.DeathsAreCounted | edge/src/session-room.ts:623-675 | the committed replayAttempts value is the number of replay deaths since the last completed replay |
| RoomTheorems.CoversExactly | edge/src/session-room.ts:854-887 | from any room, no run with finished alarms ever takes the copy back iff the bookkeeping covers the copy, provided some update carries just what the bookkeeping knows |
| RoomTheorems.BackupNeverRegresses | edge/src/session-room.ts:854-887 | each backup has seen all that any earlier one had, across drops, resets and kills, as long as the bookkeeping covers the copy |
| RoomTheorems.FinishedAlarmsNeverRegress | edge/src/session-room.ts:854-887 | the bookkeeping covers the copy, and so no backup goes backwards, over all runs in which no kill separates the two |
| RoomTheorems.AlarmPutsOrTriesAgain | edge/src/session-room.ts:854-890 | an alarm either puts the document, remembers its version, clears the flag and so covers the copy again, or changes none of the three and is tried again |
| RoomTheorems.AlarmPutsExactly | edge/src/session-room.ts:814-890 | an alarm puts a backup iff something is new, the room has a name, no drop waits for its first update, and every operation the bookkeeping knows is seen |
| RoomTheorems.JoinTakesTheFirstName | edge/src/session-room.ts:429-432 | a room takes the first name it is joined under and keeps it |
| RoomTheorems.DeliveryMarks | edge/src/session-room.ts:543-563 | a batch marks tail and backup as out of date and lifts the pause iff it has an update that is not empty |
| RoomTheorems.BackupCoversBookkeeping | edge/src/session-room.ts:876-887 | over all runs the copy includes what committed storage says was backed up |
| RoomTheorems.NoPutWhileHollow | edge/src/session-room.ts:692-709 | no backup is put between a drop and the next recorded update |
| RoomTheorems.RejectedBatchIsForgotten | edge/src/session-room.ts:507-515 | what a failed batch imported is shown and then lost by the next kill |
| RoomTheorems.TornBackupRegresses | edge/src/session-room.ts:866-887 | from any room about to back up: a kill between put and bookkeeping, a reset and an update that covers only the old bookkeeping make the copy go backwards |
| RoomTheorems.TornRunRegresses | edge/src/session-room.ts:866-887 | a run of a new room that does it: the copy is the first update, then the second, whatever they are |
| SessionRoom.SessionRoom.constructor | edge/src/session-room.ts:97-163 | waking after a kill: storage as committed, memory empty |
| SessionRoom.SessionRoom.LoadMeta | edge/src/session-room.ts:165-173 | the cache becomes the table, once |
| SessionRoom.SessionRoom.SetMeta | edge/src/session-room.ts:180-189 | cached only, and only if the value changes |
| SessionRoom.SessionRoom.FlushMeta | edge/src/session-room.ts:191-209 | one upsert per changed key, then a sync |
| SessionRoom.SessionRoom.DropLog | edge/src/session-room.ts:692-709 | log, snapshot and buffer are gone and the backup is paused |
| SessionRoom.SessionRoom.Replay | edge/src/session-room.ts:638-661 | the replay loops import exactly snapshot, rows and buffer |
| SessionRoom.SessionRoom.EnsureDoc | edge/src/session-room.ts:614-687 | the method is the specified cold start |
| SessionRoom.SessionRoom.RecordLoroUpdates | edge/src/session-room.ts:543-563 | non-empty updates are buffered and marked; a batch without any changes nothing |
| SessionRoom.SessionRoom.ApplyUpdates | edge/src/session-room.ts:496-520 | import in order, then record; nothing is recorded after a rejection |
| SessionRoom.SessionRoom.Flush | edge/src/session-room.ts:726-765 | the method is the specified flush |
| SessionRoom.SessionRoom.FoldLog | edge/src/session-room.ts:804-812 | the method is the specified fold |
| SessionRoom.SessionRoom.Alarm | edge/src/session-room.ts:814-890 | the method is the specified alarm |
| SessionRoom.SessionRoom.ResetLog | edge/src/session-room.ts:347-350 | the method is the specified reset |
| SessionRoom.SessionRoom.HandleJoin | edge/src/session-room.ts:429-432 | the chat id is kept from the first join, and the document materialized |
| Commands.OneOfAKindSurvives | crates/doc/src/commands.rs:148-163 | of the waiting steers, and of the waiting interrupts, exactly the latest has no newer one |
| Commands.InterruptNeedsItsTurn | crates/doc/src/commands.rs:164-173 | the latest interrupt executes iff the turn it names is still the last or unknown, and is superseded otherwise |
| Commands.VerdictExactly | crates/doc/src/commands.rs:139-175 | the verdict on every kind of command, told from its times and the commands that wait |
| Commands.LateExactly | crates/doc/src/commands.rs:100-103 | a command is expired iff its stated time has come, or without one a day has passed |
| Commands.EqualTimesCoexist | crates/doc/src/commands.rs:148-163 | commands issued at the same time do not replace each other |
| Commands.DefaultLifetime | crates/doc/src/commands.rs:100-103 | without a stated expiry an entry lives a day, unless the 64-bit sum wraps |
| CommandDrain.DocHost.DrainCommands | crates/engine/src/doc_host.rs:670-736 | the loop terminates and does what the specified drain does |
| CommandDrain.DocHost.ResolveCommand | crates/doc/src/schema.rs:292-322 | the first entry with the id gets status and resolution |
| CommandTheorems.ResolvesTheFirst | crates/doc/src/schema.rs:292-322 | the first entry with the id, and no other, takes the status and the resolution if there is one |
| CommandDrain.DocHost.FindReady | crates/engine/src/doc_host.rs:688-699 | the first pending entry that is neither skipped nor processed |
| CommandDrain.AttendLessens | crates/engine/src/doc_host.rs:679-736 | every pass uses up one ready entry, so a drain without arrivals ends |
| CommandDrain.NothingIsSkipped | crates/engine/src/doc_host.rs:718-720 | the branch for processed entries is unreachable |
| CommandTheorems.DrainUsesUpTheReady | crates/engine/src/doc_host.rs:670-736 | after a drain nothing is ready and everything that was is marked |
| CommandTheorems.DrainExecutesTheWinners | crates/engine/src/doc_host.rs:679-736 | with steers in issue order, a drain executes in document order every run, every answer and only the last steer |
| CommandTheorems.DrainExecutesOnlyTheJustified | crates/engine/src/doc_host.rs:700-736 | every execution of a drain was of a ready command, before the time it states or within a day, with no newer steer or interrupt of its kind waiting, and of an interrupt only while its turn was the last or unknown |
| CommandTheorems.DrainDecidesEveryFate | crates/engine/src/doc_host.rs:718-735 | runs and answers get the status and resolution of their outcome, the last steer its own, all earlier steers end superseded, and no other field changes |
| CommandTheorems.LateNeverActs | crates/engine/src/doc_host.rs:700-736 | over a whole drain a ready command whose time is over in every pass is not executed and ends expired |
| CommandTheorems.DrainSaysWhatItExecutes | crates/engine/src/doc_host.rs:722-735 | a drain adds to the transcript exactly what its executions say, in their order |
| CommandTheorems.StaleInterruptNeverActs | crates/engine/src/doc_host.rs:700-736 | over a whole drain an interrupt whose turn is over, and stays over, is not executed and ends superseded or expired |
| CommandTheorems.OwedOnceExactly | crates/engine/src/doc_host.rs:700-736 | whatever marks, executions, halts, changes and crashes follow, nothing executes twice iff no drain owes a command that was executed and no two owe the same one |
| CommandTheorems.ChooseExactly | crates/engine/src/doc_host.rs:688-711 | a pick keeps that condition iff no other drain still owes the command picked |
| CommandTheorems.FreePicksExecuteOnce | crates/engine/src/doc_host.rs:670-736 | so any number of drains execute nothing twice while every pick is of that kind |
| CommandTheorems.FreshMarksExecuteOnce | crates/engine/src/doc_host.rs:712-717 | another condition, on the marks: with any number of drains, changes and crashes, no command executes twice while every execution follows a first mark |
| CommandTheorems.OneDrainExecutesOnce | crates/engine/src/doc_host.rs:670-736 | with one drain at a time no command executes twice over any run of arrivals, drains and crashes |
| CommandTheorems.DrainIsARun | crates/engine/src/doc_host.rs:670-736 | the verified loop is such a run: choose, mark, proceed and finish, pass by pass |
| CommandTheorems.DrainsExecuteOnce | crates/engine/src/doc_host.rs:670-736 | so that loop executes no command twice, however often it runs and whatever arrives or is rolled back in between |
| CommandTheorems.MarkedIsNeverPicked | crates/engine/src/doc_host.rs:712-717 | a marked command that a crash restores as pending is not picked again, so one marked and not executed is lost |
| CommandTheorems.TwoDrainsExecuteTwice | crates/sync/src/store.rs:106-112 | a run of two drains that pick before either marks and both execute, as the answer of the mark is ignored |
| DocLru.DocHost.EvictOverBudget | crates/engine/src/doc_host.rs:461-498 | the loop is the specified pass in order of last access and id, and changes no document's content |
| DocLru.DocHost.Open | crates/engine/src/doc_host.rs:378-448 | opening touches the document, shows the open copy, the saved one or a new document, leaves it registered, closes nothing pinned and changes no other content |
| DocLru.SweepIsLru | crates/engine/src/doc_host.rs:451-498 | on exit both budgets hold or all survivors are pinned; no pinned document is closed; none closed is more recent than an unpinned one kept |
| DocLru.AccessIsLastUse | crates/engine/src/doc_host.rs:206-208 | over any history the access time of an open document is that of its last opening or watching |
| DocLru.LeastRecentlyUsedGoes | crates/engine/src/doc_host.rs:451-498 | over any history, opening one more document closes none that was used later than an unpinned one it keeps |
| DocLru.OnlyTheUnusedGo | crates/engine/src/doc_host.rs:484-497 | none is closed that is watched, held or owes a command, and if a budget stays exceeded all that is left is of this kind |
| DocLru.EstimateExactly | crates/engine/src/doc_host.rs:321-325 | the estimate is six times the snapshot, but at least half a megabyte |
| DocLru.SweepClosesNoMoreThanNeeded | crates/engine/src/doc_host.rs:481-483 | putting back the last document closed would exceed a budget |
| DocLru.TotalWithout | crates/engine/src/doc_host.rs:472-479 | the byte estimate does not depend on the order of summation |
| Journal.RunJournal.AppendEvent | crates/engine/src/run_journal.rs:100-143 | open or reuse the file, break off a torn line, write the next number |
| Journal.RunJournal.OpenFile | crates/engine/src/run_journal.rs:102-124 | all files are closed when too many are open, then the tail is scanned |
| Journal.FewFilesOpen | crates/engine/src/run_journal.rs:102-124 | over every run no more than sixteen files are open |
| Journal.OpenedSlots | crates/engine/src/run_journal.rs:102-124 | opening closes no other file while there is room |
| Journal.SanitizeExactly | crates/engine/src/run_journal.rs:247-258 | a file name is the id with every other character than letters, digits, dash and underscore replaced |
| Journal.DiscardStartsOver | crates/engine/src/run_journal.rs:197-204 | a discarded chat has no file, its next line is the first, and no other file is touched |
| Journal.RunJournal.ReadLines | crates/engine/src/run_journal.rs:208-228 | the loop yields exactly the lines that parse |
| Journal.RunJournal.Replay | crates/engine/src/run_journal.rs:149-162 | the lines after the cursor, or all for a cursor ahead of the file |
| Journal.RunJournal.StaleSessions | crates/engine/src/run_journal.rs:175-194 | the files whose last readable event does not end the run, in order |
| Journal.JournalStaysIntact | crates/engine/src/run_journal.rs:100-143 | over appends, restarts and deaths at any character, lines are numbered 1, 2, 3, ... and every append that returned is there once, in order |
| Journal.TornWrite | crates/engine/src/run_journal.rs:131-140 | a write cut off anywhere adds the line or nothing |
| Journal.ReplayResumes | crates/engine/src/run_journal.rs:145-162 | events up to a cursor followed by replay from it are all events once |
| Journal.LastAppendDecidesStale | crates/engine/src/run_journal.rs:173-194 | after an append the file counts as stale iff that event does not end the run |
| Journal.CollidingIdsRepeat | crates/engine/src/run_journal.rs:247-258 | two ids that become one file name repeat a number |
| Nudges.QueueIsRecentHistory | edge/src/device-room.ts:241-254 | upsert then truncate holds exactly the 256 most recently nudged chats since the last join |
| Nudges.TruncatedIsNewest | edge/src/device-room.ts:249-252 | without equal times there is one way to truncate, the specified one |
| Nudges.UpsertsNeverTie | edge/src/device-room.ts:241-254 | while the clock advances between nudges the queue holds no equal times |
| Nudges.NudgeWaitsForJoin | edge/src/device-room.ts:241-254 | a queued chat waits for the next join unless 256 others were nudged after it |
| Nudges.NudgedExactly | edge/src/device-room.ts:229-256 | a chat counts as nudged iff a valid nudge of it found no live host and no join came since, and then since the last such nudge |
| Nudges.QueueIsBounded | edge/src/device-room.ts:241-254 | the queue never exceeds 256 rows, whatever the clock does and whichever of equally old rows a truncation drops |
| Nudges.LivesAreRuns | edge/src/device-room.ts:241-272 | while the clock advances the queue is the specified one throughout |
| Nudges.DeviceRoom.HandleNudge | edge/src/device-room.ts:231-256 | validation, delivery to a live host, or queueing with the oldest overflow dropped |
| Nudges.DeviceRoom.ReplayNudges | edge/src/device-room.ts:259-272 | every queued chat once, longest waiting first, then an empty queue |
| Nudges.PickLiveHost | edge/src/device-room.ts:349-360 | the freshest host not being closed, iff one was seen in time |
| Base64.Base64UrlDecode | crates/engine/src/auth.rs:928-950 | the loop over an unmasked 32-bit accumulator is the specified decoder |
| Base64.DecodeInvertsEncode | crates/engine/src/auth.rs:928-950 | decoding inverts the unpadded encoding of section 5 of RFC 4648 for every byte string |
| Base64.OnlyUnreadBitsMatter | crates/engine/src/auth.rs:943-947 | stale high bits of the accumulator never reach the output |
| Base64.DecodesExactlyTheAlphabet | crates/engine/src/auth.rs:932-942 | input is accepted iff it consists of alphabet letters and padding, and trailing padding is ignored |
| Base64.AlphabetsAgree | crates/engine/src/auth.rs:932-940 | the standard and the url-safe alphabet decode to the same bytes |

## Left out

- Loro itself (merge, list interleaving, snapshot encoding, shallow history): a document is a set of operations, an import a union, and an update that was accepted once is accepted again on replay; the peer's version vector is the order `Includes`.
- JSON and serde: tool arguments and questions are opaque, a part's serialized size is a parameter of the splitter, and the journal's serializer is assumed to read back its own lines and no proper prefix of them.
- Malformed stored entries and commands, which the source skips when reading.
- The engine's filter of questions it did not raise itself, retries of a failed resume, and the debounce of the tick: in `Pipeline` a question is an event like any other, and a tick may come at any time.
- Entries merged before the live one: excluded from `Pipeline` runs; `TickAfterMerge` says exactly what such a merge does to the next tick.
- Interleaving of room handlers at their awaits: handlers are single steps; kills may hit between handlers, between the two syncs of a cold start, between a flushed row and the fold after it, and between a backup and its bookkeeping. Storage commits at the syncs the code asks for; a platform that commits a handler's writes earlier is not modelled.
- Room ownership, ephemeral presence, the tail and diff blobs, replay telemetry, broadcasting and acknowledgements.
- The list of history checkpoints: which alarm trims is left to the environment, and the stored list is represented by a number that changes with every alarm, as the list does.
- RoomCodec.Reassembler.Handle: the exceptions of a header too long for an array, of a hole and of parts that do not fit are one outcome, and a sender's memory limits are not modelled.
- SessionRoom.SessionRoom.Alarm: equality is up to whether the meta cache has been loaded, because the idle check loads it.
- SessionRoom.SessionRoom.DropLog: the fields are cleared before the meta keys are set, where the source interleaves the two.
- Reading the processed ledger may fail in the source, which then treats the command as unprocessed; ledger reads are assumed to succeed, and a failed ledger write ends the drain (`Halt`).
- What executing a command does beyond the messages it adds and the outcome it reports; interrupts aimed at a turn are judged, but the order results speak about the other kinds.
- DocLru.DocHost.Open: racing opens of one document and the room join that follows are not modelled.
- Short writes that fail without ending the process (a full disk), and the resume-attempt files of the journal.
- Nudges with equal times: which of them a truncation drops is up to the database (`Truncated` allows any); the results over runs assume increasing times.
- HTTP routing, push, sign-in, git and agent subprocesses, the user interface, workspace rows and registries: plumbing or easy members.
