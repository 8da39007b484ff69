# TextbookLens core, modelled and proved in Dafny

TextbookLens is a desktop reader that indexes textbook pages with an AI provider, lets the reader correct the
transcription, and keeps conversations about the book. This project models the parts of its Rust core that change state
under rules, and proves what those rules are for.

**The correctable page index** (`Index*.dfy`, `Overview.dfy`, `Recovery.dfy`). A page's search chunks are derived from the
blocks of its current analysis, overlaid with the reader's corrections. A commit replaces a page's analysis and rebuilds
its chunks; saving, resolving and deleting a correction patch them. `IndexModel` defines the chunk table from scratch
(`Rebuild`); `IndexTransitions` gives each request as a transition of the source tables; `IndexStore` and `IndexService`
run the requests row by row, and every method keeps `chunks == Rebuild(source tables)`. `IndexInvariant` and `IndexClaims`
prove what every interleaving of requests keeps, `IndexEffects` what each accepted request means to the reader, and
`IndexHistories` runs that end where an expected property fails. `Overview` is the independent checker of the same state,
`Recovery` the replacement of interrupted attempts at start-up.

**Conversations** (`CitationScan.dfy`, `Messages.dfy`, `Conversations.dfy`). Whatever the book-question write path stores,
under any clock and with any step failing, the stricter read path accepts.

**The provider stream** (`SseScanner.dfy`, `SseDecode.dfy`). A byte scanner that bounds server-sent events without
depending on how the bytes arrive, and the state machine that turns batches of provider events into one well-shaped stream.

**Sections and pages** (`SectionTree.dfy`, `SectionBatch.dfy`, `PageSections.dfy`), **extracted text** (`Normalizer.dfy`,
`Chunker.dfy`, `Extraction.dfy`), **image headers** (`Jpeg.dfy`), **redaction** (`Redaction.dfy`), **anchors** (`Anchor*.dfy`) and
**provider credentials** (`Providers.dfy`) are self-contained algorithms and protocols, each proved against a definition
that does not mention how it is computed.

## Conventions

A database transaction is one all-or-nothing step over maps; inside it the rows are edited step by step on a private copy
that a failure drops. A version 5 UUID is a free term over its namespace and name, so different inputs give different ids.
SHA-256 is an arbitrary function; where a collision matters it is part of the statement. The validator's guarantees about a
page (distinct block ordinals, no blank values) are the precondition `ValidPage`. Whatever else moves a page through its
states is an environment action that may change any scheduling column of any page. Strings are sequences of Unicode code
points; a length in bytes is `Utf8Len`.

## What turned out not to hold

- A commit does not put every correction of a dropped block into conflict: one that is active at the revision cap of
  1,000,000 stays active on a block its page no longer has. `CommitOrphansExactly` gives the exact condition,
  `CappedOrphanReached` a run from an empty index that ends there, over the million saves of `SavesClimb`.
- Not every correction can be removed or kept: while the current block lacks the kind of value that was corrected, no
  request is accepted (`DeletableExactly`, `KeepableExactly`, `ValueGoneReached`). The next commit of the page decides anew
  (`CommitDecidesValueGone`, `ValueGoneEnds`).
- Revisions do not rule out lost updates: a correction's id is derived and its revision starts at 1 again, so after a
  removal and a new save a request made against the old correction is accepted against the new one.
  `OutdatedAcceptedExactly` gives the exact condition, `RecreationRevivesRequests` the run.
- The two anchor resolvers do not always agree. A region of another kind than its book or section is still looked up by its
  text in the marker list, never on the write path; and the write path alone compares locator texts unparsed, so a text no
  writer stores can fail it or satisfy it. `DifferExactly` gives the exact condition, `ForeignExample`, `NotJsonExample` and
  `UnparsedExample` states.
- Provider operations are not all-or-nothing when compensation fails (`AllOrNothing` is exact), and a profile whose
  credential could not be put back stays without one: it can be neither deleted nor given a new credential
  (`StrandedForGood`, `DeletionStrands`).
- Recovery does not always keep a render it could reuse: when the row update fails after the file was moved, the next
  recovery no longer finds it (`FailedUpdateLosesRender`).

## Model

| member | source | states |
|---|---|---|
| IndexService.PageIndex.CommitValidatedPage | src-tauri/src/indexing/commit.rs:106-256 | the row-by-row transaction has the outcome of the commit transition or changes nothing, and leaves the chunks equal to a rebuild from scratch |
| IndexClaims.CommitAcceptedExactly | src-tauri/src/indexing/commit.rs:160-224 | a commit is accepted if and only if nothing disturbs it, its attempt holds the page in parsing of a running or paused run, a version is left, no emitted block has a correction at the cap and every ordinal fits |
| IndexClaims.CommitRefusal | src-tauri/src/indexing/commit.rs:106-256 | which error a refused commit reports, the first of all there are |
| IndexEffects.CommitTakesEffect | src-tauri/src/indexing/commit.rs:226-250 | the committed page is one version on, for review exactly when the analysis gives a reason, without failure, its claim kept; no other page moves |
| IndexEffects.CommitStoresBlocks | src-tauri/src/indexing/commit.rs:258-299 | every emitted block is stored as it came, at the new version |
| IndexEffects.CommitDropsBlocks | src-tauri/src/indexing/commit.rs:347-388 | a block not emitted stays, as it was, exactly when a correction targets it |
| IndexEffects.CommitReconciles | src-tauri/src/indexing/commit.rs:301-345 | a correction of an emitted block is active afterwards if and only if it was and the block still has the value it was made against; then its text is searched, else nothing is; both its values stay |
| IndexEffects.CommitOrphans | src-tauri/src/indexing/commit.rs:347-388 | a correction of a dropped block keeps block and values and goes into conflict, but for one at the cap, which does not change |
| IndexHistories.SameContentKeepsActive | src-tauri/src/indexing/commit.rs:301-345 | a run from an empty index: corrected, analysed again with the same content, still active and still searched by the corrected text |
| IndexEffects.SearchableExactly | src-tauri/src/indexing/commit.rs:398-569 | the chunks of a valid state read off its rows: one for each value of a current block, with its source, text, ordinal, locator and token estimate |
| IndexClaims.CommittedOnlyOnce | src-tauri/src/indexing/commit.rs:133-158 | until a page is rescheduled, no run of requests ends with another commit of it accepted |
| IndexClaims.NoForeignRows | src-tauri/src/indexing/commit.rs:258-299 | in a valid state no emitted block meets a row of another page |
| IndexStore.Transaction.UpsertBlock | src-tauri/src/indexing/commit.rs:258-299 | a stored row of another page, run or book is never overwritten; otherwise the row is the emitted block at the new version |
| IndexStore.Transaction.ReconcileExistingCorrections | src-tauri/src/indexing/commit.rs:301-345 | succeeds exactly when no correction of the block is at the cap, and then gives every row the reconciliation that `CommitReconciles` describes |
| IndexStore.Transaction.RetainOnlyCurrentOrCorrectedBlocks | src-tauri/src/indexing/commit.rs:347-388 | of the blocks not emitted exactly those with a correction stay, and their corrections below the cap go into conflict |
| IndexStore.Transaction.InsertBlockSearchRows | src-tauri/src/indexing/commit.rs:398-487 | inserts exactly the chunks of the block's slots, failing exactly when an ordinal does not fit |
| IndexStore.Transaction.InsertCorrectableSearchValue | src-tauri/src/indexing/commit.rs:495-539 | provider value without a correction, corrected value with an active one, nothing in conflict |
| IndexStore.Transaction.InsertSearchChunk | src-tauri/src/indexing/commit.rs:541-569 | refuses a blank text and a second row with the same id |
| IndexStore.Transaction.RefreshSearchValue | src-tauri/src/db/corrections.rs:493-542 | deletes the rows of one value and inserts its new row |
| IndexStore.Transaction.RemoveUnreferencedStaleBlock | src-tauri/src/db/corrections.rs:544-568 | drops a block exactly when it is not current and no correction is left |
| IndexService.PageIndex.SaveIndexCorrection | src-tauri/src/db/corrections.rs:81-168 | refines the save transition; the patched chunks equal a rebuild |
| IndexService.PageIndex.ResolveIndexCorrectionConflict | src-tauri/src/db/corrections.rs:170-271 | refines the resolve transition (accept, keep, compare); the patched chunks equal a rebuild |
| IndexService.PageIndex.DeleteIndexCorrection | src-tauri/src/db/corrections.rs:273-318 | refines the delete transition; the patched chunks equal a rebuild |
| IndexClaims.SaveAcceptedExactly | src-tauri/src/db/corrections.rs:81-168 | a save is accepted if and only if it names a current block, its version and the hash of its value, and no correction of it or an active one at that revision below the cap |
| IndexClaims.ResolveAcceptedExactly | src-tauri/src/db/corrections.rs:170-271 | a resolution is accepted if and only if it names a conflict at its revision and the state of its block; keeping needs the block and a revision left |
| IndexClaims.DeleteAcceptedExactly | src-tauri/src/db/corrections.rs:273-318 | a deletion is accepted if and only if it names a correction at its revision and the state of its block |
| IndexClaims.SaveRefusal | src-tauri/src/db/corrections.rs:81-168 | which error a refused save reports |
| IndexClaims.ResolveRefusal | src-tauri/src/db/corrections.rs:170-271 | which error a refused resolution reports |
| IndexClaims.DeleteRefusal | src-tauri/src/db/corrections.rs:273-318 | which error a refused deletion reports |
| IndexService.PageIndex.RemoveAndRefresh | src-tauri/src/db/corrections.rs:423-491 | deleting a correction restores the provider's value, or removes the block it was the last reason to keep |
| IndexService.PageIndex.KeepAgainstCurrentValue | src-tauri/src/db/corrections.rs:204-269 | a kept correction is active again, against the value the block has now |
| IndexService.PageIndex.Serve | src-tauri/src/db/corrections.rs:81-318 | over any interleaving of commits, saves, resolutions, deletions and scheduling, the chunks stay a rebuild from scratch |
| IndexRebuild.CommitRebuilds | src-tauri/src/indexing/commit.rs:160-224 | clearing the page's rows and inserting those of its blocks gives the whole rebuilt table |
| IndexRebuild.RefreshRebuilds | src-tauri/src/db/corrections.rs:493-542 | deleting one value's rows and inserting its new one gives the whole rebuilt table |
| IndexRebuild.StaleRemovalKeepsRebuild | src-tauri/src/db/corrections.rs:544-568 | removing what a page left behind changes no chunk |
| IndexRebuild.ChunkIdsDistinct | src-tauri/src/indexing/commit.rs:541-591 | no two chunks of a rebuilt table share an id |
| IndexClaims.PageChunksAreCommitRows | src-tauri/src/indexing/commit.rs:160-224 | however they came about, a page's chunks are what the commit loop would insert for its current blocks |
| IndexInvariant.CommitKeepsInv | src-tauri/src/indexing/commit.rs:106-256 | a commit keeps the invariant of the source tables |
| IndexInvariant.RunKeepsInv | src-tauri/src/db/corrections.rs:81-318 | so does every interleaving of requests, accepted or rolled back |
| IndexClaims.ConflictSticks | src-tauri/src/indexing/commit.rs:301-387 | a conflict survives any run that does not settle it, even one that brings the original value back |
| IndexClaims.ActiveMeansCurrent | src-tauri/src/db/corrections.rs:204-269 | below the cap an active correction targets a current block at the page's version, with matching hash |
| IndexClaims.StaleMeansCorrected | src-tauri/src/indexing/commit.rs:347-388 | a block left behind has a correction, in conflict unless at the cap |
| IndexClaims.CommitOrphansExactly | src-tauri/src/indexing/commit.rs:347-388 | after a commit all corrections of dropped blocks are in conflict if and only if none was active at the cap |
| IndexHistories.CappedOrphanReached | src-tauri/src/indexing/commit.rs:347-388 | a run of requests from an empty index ends with an active correction on a block that is not current |
| IndexClaims.SavesClimb | src-tauri/src/db/corrections.rs:81-168 | a run of saves takes any current active correction to any higher revision, the cap included, and changes nothing else |
| IndexClaims.DeletableExactly | src-tauri/src/db/corrections.rs:273-318 | some delete request is accepted if and only if the corrected value is not gone from a current block |
| IndexClaims.KeepableExactly | src-tauri/src/db/corrections.rs:170-271 | some keep request is accepted if and only if block and value are current and the cap is not reached |
| IndexClaims.CommitDecidesValueGone | src-tauri/src/db/corrections.rs:423-470 | after each commit of its page the value is gone if and only if the block was emitted without it |
| IndexHistories.ValueGoneReached | src-tauri/src/db/corrections.rs:625-633 | a run from an empty index ends with a correction of which every deletion and resolution is refused |
| IndexHistories.ValueGoneEnds | src-tauri/src/db/corrections.rs:423-470 | one more analysis that brings a text back makes it deletable and keepable |
| IndexEffects.SaveTakesEffect | src-tauri/src/db/corrections.rs:81-168 | an accepted save leaves one active correction against the present value; exactly its text is searched, and no other row or chunk changes |
| IndexEffects.KeepTakesEffect | src-tauri/src/db/corrections.rs:204-269 | an accepted keep or compare turns the conflict into an active correction of the present value, searched by the kept or compared text |
| IndexEffects.RemoveTakesEffect | src-tauri/src/db/corrections.rs:472-568 | a removal brings the provider's value back into the search, or drops a block left behind with its last correction |
| IndexEffects.DeleteUndoesSave | src-tauri/src/db/corrections.rs:273-318 | deleting a correction just made restores every table |
| IndexEffects.RunAdvances | src-tauri/src/db/corrections.rs:81-318 | over any run that never leaves it out, a correction that changed at all has a higher revision |
| IndexEffects.OutdatedAcceptedOnlyIfRecreated | src-tauri/src/db/corrections.rs:390-421 | over any run, a request made against a row that has changed since is accepted only if the correction was removed and made anew at that revision |
| IndexEffects.OutdatedAcceptedExactly | src-tauri/src/db/corrections.rs:390-421 | and some such request is accepted if and only if it was, its value not gone |
| IndexEffects.RecreationRevivesRequests | src-tauri/src/db/corrections.rs:119-155 | after save, delete and save again, a save and a delete made against the first correction are accepted against the second |
| IndexClaims.ReplacedAttemptNeverCommits | src-tauri/src/indexing/commit.rs:133-158 | an attempt no page has, and that is not issued again, commits after no run |
| IndexClaims.CommitLeavesOtherPages | src-tauri/src/indexing/commit.rs:160-224 | pages, blocks, corrections and chunks of other pages are untouched |
| Overview.ValidateCorrectionProvenance | src-tauri/src/db/overview.rs:545-598 | the check of one fetched row, exactly |
| Overview.VerifyActiveCorrectionProvenance | src-tauri/src/db/overview.rs:493-543 | accepts exactly when the count matches, the cap holds and every row passes |
| Overview.CorrectedChunk | src-tauri/src/db/overview.rs:545-598 | ids, ordinal, hashes and values of every corrected chunk of a valid state |
| Overview.QueriesAgree | src-tauri/src/db/overview.rs:421-543 | the visibility filter and the provenance query select the same corrected rows |
| Overview.ProvenanceExactly | src-tauri/src/db/overview.rs:545-598 | a row passes if and only if the block still has the original value, which only a hash collision can prevent |
| Overview.AcceptedIsGenuine | src-tauri/src/db/overview.rs:493-598 | whatever rows the table may hold, a corrected row that passes is one a rebuild has, but for locator and token estimate |
| Overview.CheckOverview | src-tauri/src/db/overview.rs:421-598 | in every valid state, under any hash function, the checker accepts if and only if the rows stay under the cap and none hides a new value behind a collision |
| Overview.OwnershipHolds | src-tauri/src/db/overview.rs:225-312 | the ownership query finds no violation in a valid state |
| Recovery.RecoverPage | src-tauri/src/indexing/recovery.rs:90-155 | one page: file, then row; a failing file operation leaves both, an update that finds no row puts a moved file back, a failing update leaves the file where it went |
| Recovery.RecoverInterruptedPages | src-tauri/src/indexing/recovery.rs:49-155 | fails if and only if an interrupted page has no attempt or its file operation or row update fails; else every interrupted page is requeued or failed and counted |
| Recovery.NothingInFlight | src-tauri/src/indexing/recovery.rs:90-155 | no page in flight, others untouched, the two counts add up |
| Recovery.RecoversEachPage | src-tauri/src/indexing/recovery.rs:90-148 | every page left in flight, column by column: queued under a new attempt, counted once more, if it was rendering or its render is kept and young enough; else failed and retryable; and where its file lies |
| Recovery.RequeuedFollowsScratch | src-tauri/src/indexing/recovery.rs:90-155 | a requeued page keeps its render hash if and only if its file lies at the new attempt's path |
| Recovery.SecondRecoveryIsIdle | src-tauri/src/indexing/recovery.rs:49-155 | a second recovery changes nothing |
| Recovery.RerunCompletes | src-tauri/src/indexing/recovery.rs:49-155 | after any stop, running again recovers every other page from its row and the scratch still there, and leaves what was done |
| Recovery.StopLeaves | src-tauri/src/indexing/recovery.rs:96-150 | what a stop leaves of the page it stopped at: its row, and its file at the old path, the new one or neither, by the kind of failure |
| Recovery.FailedUpdateLosesRender | src-tauri/src/indexing/recovery.rs:105-123 | the page whose row update failed is rendered again or failed as missing its scratch, though its render lies at an unused path |
| Recovery.RequeuedAttemptIsDead | src-tauri/src/indexing/recovery.rs:90-155 | the attempt of a requeued page can never commit later |
| CitationScan.ExtractModelCitationIds | src-tauri/src/db/messages.rs:341-380 | the skipping scan gives the distinct identifiers of all tokens, or fails on exactly the malformed and over-long lists |
| CitationScan.SkipMissesNothing | src-tauri/src/db/messages.rs:345-356 | no token starts inside the part the scan skips |
| CitationScan.DistinctIsFirstOccurrence | src-tauri/src/db/messages.rs:371-377 | no duplicates, the same members, in order of first occurrence |
| CitationScan.WrittenToken | src-tauri/src/db/messages.rs:345-370 | a tag and a numeral, wherever they stand, are refused exactly when the number is not one of 1 to 4,294,967,295 or an identifier character touches them |
| CitationScan.WrittenIsCited | src-tauri/src/db/messages.rs:341-380 | an answer with such a citation cites it or is refused |
| CitationScan.CitedAreNumerals | src-tauri/src/db/messages.rs:341-380 | every id of an accepted answer is such a citation and stands in it |
| Messages.ValidatedUsedCitationsJson | src-tauri/src/db/messages.rs:252-282 | succeeds exactly when the offered citations hold, the answer cites only those and what it uses fits; what is written are the citations used, one for each, in its order |
| Messages.UsesUnique | src-tauri/src/db/messages.rs:252-282 | the answer decides which offered citations it uses |
| Messages.ParseConversationMessageRows | src-tauri/src/db/messages.rs:86-172 | succeeds exactly on readable rows and returns them one for one |
| Messages.WrittenAnswerReadable | src-tauri/src/db/messages.rs:86-172 | an answer that passed the write checks passes the read checks |
| Conversations.ValidateBookMessageHistory | src-tauri/src/db/conversations.rs:1171-1207 | the action, count and timestamp checks, exactly |
| Conversations.LearningRepository.PersistNewBookQuestion | src-tauri/src/db/conversations.rs:742-812 | succeeds if and only if the commit is authorized, no step it takes fails, the book is ready and question, answer and citations are acceptable; then stores just these two rows, else nothing; the repository stays loadable |
| Conversations.LearningRepository.PersistBookFollowup | src-tauri/src/db/conversations.rs:913-1023 | succeeds if and only if all that holds, the conversation is the book's, its clock and length are as expected and the exchange fits; then appends just these two rows, else nothing; the repository stays loadable |
| Conversations.LearningRepository.LoadBookConversation | src-tauri/src/db/conversations.rs:227-276 | for a ready book, loading what this repository wrote always succeeds and returns exactly those messages |
| Conversations.LearningRepository.DeleteBookConversation | src-tauri/src/db/conversations.rs:1083-1127 | undisturbed, removes a conversation of a ready book with its messages, and is refused for any other |
| Conversations.FollowupStored | src-tauri/src/db/conversations.rs:1209-1290 | an accepted follow-up keeps the history within count, byte, action and time bounds |
| Conversations.FitsExactly | src-tauri/src/db/conversations.rs:1261-1290 | the size check passes if and only if the history with the exchange is within the bounds of a stored one |
| Conversations.ExchangeReadsBack | src-tauri/src/db/messages.rs:86-172 | a stored exchange reads back as asked and answered, with the citations the answer uses |
| Conversations.ExchangeReadable | src-tauri/src/db/messages.rs:86-172 | appending an accepted exchange keeps every row readable |
| SseScanner.BoundedSseSource.ScanChunk | src-tauri/src/ai/stream.rs:218-272 | the field-by-field scan of one chunk is the scan of its bytes |
| SseScanner.BoundedSseSource.Feed | src-tauri/src/ai/stream.rs:275-303 | feeding chunks is scanning their concatenation |
| SseScanner.ChunkingIrrelevant | src-tauri/src/ai/stream.rs:218-272 | any split gives the same state and verdict |
| SseScanner.ScanMeans | src-tauri/src/ai/stream.rs:218-272 | the scan rejects exactly when some prefix has a line over the limit plus six or event data over the limit; else it holds the open line and the length of the open event's data |
| SseScanner.DataLineFits | src-tauri/src/ai/stream.rs:218-272 | the line bound refuses no data line within the limit |
| SseScanner.LineEnds | src-tauri/src/ai/stream.rs:218-272 | a line ended by a line feed, a carriage return or both is one line, and what follows is split on its own |
| SseScanner.DataLineReads | src-tauri/src/ai/stream.rs:218-272 | the value of a data field is what was written behind its colon and one space |
| SseScanner.LineLimit | src-tauri/src/ai/stream.rs:218-272 | a line is refused exactly when it has more than the limit and six bytes |
| SseScanner.EventLimit | src-tauri/src/ai/stream.rs:218-272 | two data lines are refused exactly when their values and a line feed exceed the limit |
| SseScanner.BlankLineStartsOver | src-tauri/src/ai/stream.rs:218-272 | a blank line starts the count of the next event at nothing |
| SseDecode.Decoder.Poll | src-tauri/src/ai/stream.rs:59-176 | each poll emits the next item of the stream's emissions, which the rows below describe, and ends only when none is left |
| SseDecode.EveryRunIsWellShaped | src-tauri/src/ai/stream.rs:83-176 | under any cancellation, timeout or failure: non-final items, then exactly one final one |
| SseDecode.EmissionsCut | src-tauri/src/ai/stream.rs:83-176 | cancellation cuts the uncancelled output short by at most one error |
| SseDecode.TranscriptUpToCompletion | src-tauri/src/ai/stream.rs:83-176 | after batches of progress, the first that ends in its only completion is the last: its events follow theirs, and nothing after |
| SseDecode.TranscriptUpToError | src-tauri/src/ai/stream.rs:83-166 | after batches of progress, a timeout, a failing source, a cancellation, an event over the limit or unmapped, and a completion out of place each end the stream with their one error |
| SseDecode.TranscriptUpToEnd | src-tauri/src/ai/stream.rs:127-131 | a stream that just ends delivers its events in order, then one error |
| SseDecode.MalformedExactly | src-tauri/src/ai/stream.rs:157-166 | a batch is malformed if and only if a completion is not its last event |
| SseDecode.CancellationTiming | src-tauri/src/ai/stream.rs:83-104 | after a cancellation at most one item is emitted for each iteration before it, and one that comes late cuts nothing |
| SectionTree.RejectCycles | src-tauri/src/db/documents.rs:406-428 | the parent walk ends and refuses a batch exactly when its links have a cycle |
| SectionTree.Pass | src-tauri/src/db/documents.rs:141-175 | one pass loses and doubles nothing, and stalls only when nothing pending is ready |
| SectionTree.InsertParentFirst | src-tauri/src/db/documents.rs:141-175 | succeeds exactly on acyclic batches, each section once, parents first, in at most one pass per section |
| SectionTree.BlockedMeansCycle | src-tauri/src/db/documents.rs:141-175 | the no-progress error is reached only on a cycle |
| SectionTree.OrderedMeansAcyclic | src-tauri/src/db/documents.rs:141-175 | conversely a parent-first order rules out a cycle |
| SectionBatch.ValidateBatch | src-tauri/src/db/documents.rs:361-404 | one pass over a batch accepts exactly the valid ones: counts, titles, derived and unlike ids, blocks |
| SectionBatch.SectionStore.AppendParsedSections | src-tauri/src/db/documents.rs:118-194 | succeeds exactly on an appendable batch; then behind the old rows stands each section once, parents first, with its id, parent, ordinal and stripped title, and behind the old blocks its blocks in order; otherwise nothing changes |
| PageSections.BookSections.EnsurePdfPageSections | src-tauri/src/db/books.rs:47-121 | succeeds exactly on a ready PDF with readable sections and ordinals to spare; appends one section per uncovered page |
| PageSections.BackfillCovers | src-tauri/src/db/books.rs:67-121 | every page is covered afterwards, an uncovered one by exactly one section |
| PageSections.BackfillOrdinalsFresh | src-tauri/src/db/books.rs:67-121 | new ordinals lie above every earlier one |
| PageSections.BackfillAdds | src-tauri/src/db/books.rs:67-121 | old sections stay; each new one is of one page, on the next ordinal, its id derived from that |
| PageSections.BackfillTwice | src-tauri/src/db/books.rs:67-121 | run again, it succeeds and inserts nothing |
| Jpeg.DetectJpeg | src-tauri/src/ai/multimodal.rs:146-193 | the cursor loop ends, stays in bounds and finds what the marker walk finds |
| Jpeg.DetectsExactly | src-tauri/src/ai/multimodal.rs:146-200 | dimensions are found if and only if the bytes are SOI, printed complete segments without a frame, and a frame header with them |
| Jpeg.WalkFindsFrame | src-tauri/src/ai/multimodal.rs:146-200 | printing segments with any fill bytes and a frame, then walking, gives the frame's dimensions |
| Jpeg.WalkMeansFrame | src-tauri/src/ai/multimodal.rs:146-200 | what the walk accepts is such a print |
| Redaction.MergeRanges | src-tauri/src/errors/redaction.rs:296-309 | sorted and merged ranges cover the same positions and are strictly separated |
| Redaction.ReplaceRanges | src-tauri/src/errors/redaction.rs:311-321 | each range becomes one marker, every other byte stays in order |
| Redaction.MergeAndReplace | src-tauri/src/errors/redaction.rs:296-321 | together: one marker per maximal covered run of the ranges as found |
| Redaction.SeparatedIsCanonical | src-tauri/src/errors/redaction.rs:296-309 | there is only one separated list for a set of positions |
| Redaction.OnlyTheCoverMatters | src-tauri/src/errors/redaction.rs:296-321 | neither order nor overlap of the found ranges matters |
| Redaction.CoveredBytesStayHidden | src-tauri/src/errors/redaction.rs:311-321 | texts that differ only under ranges redact alike |
| Normalizer.Normalize | src-tauri/src/extraction/service.rs:414-435 | a NUL is refused; else the counting loop keeps each line that is not blank behind a blank one |
| Normalizer.NormalizedIsNormal | src-tauri/src/extraction/service.rs:414-435 | no carriage return, no three line feeds in a row, no trailing whitespace on a line, trimmed at both ends |
| Normalizer.SolidSurvives | src-tauri/src/extraction/service.rs:414-435 | the sequence of characters that are not whitespace is unchanged |
| Normalizer.FixedExactlyWhenNormal | src-tauri/src/extraction/service.rs:414-435 | a text is left alone if and only if it is in normal form |
| Normalizer.Idempotent | src-tauri/src/extraction/service.rs:414-435 | normalizing twice is normalizing once |
| Normalizer.BreaksAlike | src-tauri/src/extraction/service.rs:418 | line feeds, carriage returns and both together are the same line breaks |
| Chunker.ChunkText | src-tauri/src/extraction/service.rs:379-412 | the chunks are exactly the non-blank ones of the windows that `WindowsExactly` describes, with true slices and paragraph numbers |
| Chunker.LastBreak | src-tauri/src/extraction/service.rs:385-389 | the last line feed of the window's second half, else the full window |
| Chunker.WindowsExactly | src-tauri/src/extraction/service.rs:379-412 | the windows are the one tiling of the text in which each but the last ends just behind the last line feed of its second half, or at 1,800 characters where there is none |
| Chunker.ChunksInOrder | src-tauri/src/extraction/service.rs:379-412 | the chunks are in the order of the text and numbered from 0 |
| Chunker.WindowsSpellText | src-tauri/src/extraction/service.rs:379-412 | windows of at most 1,800 and, but for the last, at least 900 characters, overlapping by 180; without the repeats they spell the text |
| Chunker.TwoApartDisjoint | src-tauri/src/extraction/service.rs:379-412 | no position is in three windows |
| Chunker.NothingLost | src-tauri/src/extraction/service.rs:379-412 | every character that is not whitespace is in a chunk, at its place |
| Chunker.NoChunksWhenBlank | src-tauri/src/extraction/service.rs:343-348 | there are no chunks if and only if the text is blank |
| Extraction.BookExtraction.PersistContent | src-tauri/src/extraction/service.rs:343-370 | fails, changing nothing, exactly on a NUL or a blank text; else text and chunks are replaced together |
| AnchorQueries.ResolveAnchor | src-tauri/src/db/annotations.rs:512-704 | the database queries decide what `MayFind` says of the tables, whatever the row order |
| AnchorQueries.EpubBlockLocatorExists | src-tauri/src/db/annotations.rs:706-724 | the query compares locator texts without parsing them, and fails only on a text that is no JSON |
| AnchorQueries.FallbackMatchCount | src-tauri/src/db/annotations.rs:790-834 | the count that stops at two tells no match, one match and more apart, whatever the row order |
| AnchorQueries.ValidateAnchorForWrite | src-tauri/src/db/annotations.rs:533-554 | accepts only what resolves as primary in a ready book, and refuses only what may resolve otherwise |
| AnchorSnapshot.Load | src-tauri/src/db/annotations.rs:232-265 | a snapshot of the book, unless a section does not parse |
| AnchorSnapshot.Resolve | src-tauri/src/db/annotations.rs:267-445 | the snapshot decides what `Standing` says of the tables |
| AnchorModel.TotalIsTable | src-tauri/src/db/annotations.rs:409-445 | any listing of the section's blocks counts what the table holds |
| AnchorModel.MatchesExactly | src-tauri/src/db/annotations.rs:409-445 | the count of matches in a block is the most occurrences that can be chosen without overlap |
| AnchorAgreement.ResolveBoth | src-tauri/src/db/annotations.rs:267-836 | asked of one state, with locator texts as the writers store them, the two name the same anchors primary, and any status found is the one listed; in general they differ only in four cases |
| AnchorAgreement.FoundListed | src-tauri/src/db/annotations.rs:267-836 | a status the write path finds is the list's if and only if texts and parsed locators do not dispute the place |
| AnchorAgreement.DifferExactly | src-tauri/src/db/annotations.rs:634-724 | for every row order they agree if and only if no block is over-long, no foreign region's text names one place, no asked text is no JSON, and none disputes |
| AnchorAgreement.ForeignExample | src-tauri/src/db/annotations.rs:345-397 | a block region in a PDF book stored as the writers store it: listed as a fallback, unknown to the write path |
| AnchorAgreement.NotJsonExample | src-tauri/src/db/annotations.rs:706-724 | a locator text that is no JSON: nothing listed, an error on the write path |
| AnchorAgreement.UnparsedExample | src-tauri/src/db/annotations.rs:706-724 | a locator text with the right fields that does not parse: primary on the write path, nothing listed |
| Providers.ProviderService.InsertValidatedProviderProfile | src-tauri/src/db/providers.rs:335-423 | credential, row and first default together, compensated on rollback |
| Providers.ProviderService.ReplaceValidatedProviderCredential | src-tauri/src/db/providers.rs:426-484 | new credential and row together, the old credential restored on rollback |
| Providers.ProviderService.DeleteProviderProfile | src-tauri/src/db/providers.rs:500-575 | row, credential and defaults together, the credential restored on rollback |
| Providers.LearningDefaultConsistent | src-tauri/src/db/providers.rs:585-613 | choosing a default leaves one active profile named in both settings, or none, whatever was active before, and no other change |
| Providers.FirstCompatibleProfile | src-tauri/src/db/providers.rs:615-640 | the compatible profile created first, the lower id deciding ties, or none exactly when none is compatible |
| Providers.ProviderService.SetActiveProviderProfile | src-tauri/src/db/providers.rs:201-208 | selects an existing profile |
| Providers.ProviderService.SetDefaultProviderProfile | src-tauri/src/db/providers.rs:210-241 | selects a profile that supports the operation |
| Providers.AllOrNothing | src-tauri/src/db/providers.rs:335-575 | under any failures an operation has its whole effect or none if and only if its compensation succeeds or a replacement changes nothing |
| Providers.BrokenLeaves | src-tauri/src/db/providers.rs:335-575 | a failed compensation leaves the database as it was and one credential not put back |
| Providers.FailureLeavesAlone | src-tauri/src/db/providers.rs:335-575 | a step that fails leaves both stores as they were, where what was changed can be put back |
| Providers.DeleteConsistent | src-tauri/src/db/providers.rs:500-575 | after a deletion the settings name one existing profile or none |
| Providers.DeletionEffect | src-tauri/src/db/providers.rs:530-560 | a deleted profile leaves both stores and all settings, its defaults going to the first compatible profile left |
| Providers.InsertionEffect | src-tauri/src/db/providers.rs:355-396 | the first profile becomes the learning default, a later one does not |
| Providers.ReplacementEffect | src-tauri/src/db/providers.rs:426-484 | a new credential for a profile of that kind and model, and what its row then says; otherwise no change |
| Providers.SelectionEffect | src-tauri/src/db/providers.rs:201-208 | the selected profile alone is active and is named in both learning settings; nothing else moves |
| Providers.DefaultEffect | src-tauri/src/db/providers.rs:210-241 | the same for text learning; for the other operations the vision setting alone moves |
| Providers.RunKeepsStoresTogether | src-tauri/src/db/providers.rs:335-613 | over any run with any failures the settings agree, and only ids whose compensation failed are in one store alone |
| Providers.StrandedForGood | src-tauri/src/db/providers.rs:426-575 | a remote profile without its credential stays so, whatever is requested |
| Providers.DeletionStrands | src-tauri/src/db/providers.rs:560-575 | the failure that strands a profile |

## Left out

- Database engine, schema constraints and migrations: a transaction is one step over maps, and no constraint is relied on.
- `created_at`, block kind, source and hash columns of index rows: they carry no rule of their own here.
- The token estimate's conversion to 32 bits, which no block of bounded length can overflow.
- `indexing/state.rs` commits without blocks, which only its tests call; other state changes are environment actions.
- IndexService.PageIndex.CommitValidatedPage: what the validator guarantees is a precondition, because validation is not part of this model.
- Selection conversations and their follow-ups: they have no clock check, so their round trip would need a clock that never goes back.
- Revalidation of a citation's locator against the book is a parameter of the write path.
- CitationScan.ExtractModelCitationIds: works on code points; a byte of a multi-byte character never equals an ASCII byte.
- Messages.ParseConversationMessageRows: JSON is a pair of functions of which only `decode(encode(x)) == x` is assumed; UUID and timestamp parsing are left out.
- The event framing crate behind the scanner, and a leading byte order mark.
- SectionBatch.SectionStore.AppendParsedSections: the tests of single locators are a parameter, and the limit on the batch's JSON length is left out.
- PageSections.BookSections.EnsurePdfPageSections: the lookup of the book and the titles of the new sections.
- PNG and WebP headers, and the byte limits of an asset list.
- The marker lists that find ranges to redact; ranges are arbitrary, and no claim is made about character boundaries.
- AnchorSnapshot.Resolve: coordinates are reals without the special floating-point values; the EPUB spine comparison, which both resolvers share, is a parameter.
- AnchorQueries.EpubBlockLocatorExists: the query's conditions are taken from left to right, so only the section's own rows are asked.
- Recovery.RecoverPage: an update that finds no row means that somebody else changed it; that change is not modelled, and putting the file back is taken to succeed.
- Providers.ProviderService.InsertValidatedProviderProfile: a transaction that fails at any of its steps is one kind of failure, since all of them roll back; consent rows are left out.
- Providers.ProviderService.DeleteProviderProfile: the embedded registry is a parameter and is taken to load.
- Saving local models is a step of the provider runs, one model at a time, without their ports.
- HTTP, keyring, user interface, logging, translation and enum conversions.
