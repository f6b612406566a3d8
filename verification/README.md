# Models of the database migrations

The migrations of this repository are not only schema changes. Several of them install small
concurrent protocols as database functions, or rewrite whole tables of historical data under
constraints that a later step checks. This project models those parts and proves what they promise:
over every run of a protocol, for every table that a backfill accepts, for every document that the
converter reads.

## What is modelled

**The outbox lease protocol** (revision 0023; `Outbox`, `OutboxRuns`, `OutboxDrain`). Claim, renew,
complete and retry are atomic steps on the table of events. A step carries its
`statement_timestamp()` and, for a claim, an arbitrary set of rows that SKIP LOCKED passes over. Runs
are logs of such steps from an empty table; inserted rows start pending and unattempted. Arguments may be
NULL wherever SQL lets them: a NULL number passes a `NOT BETWEEN` guard, and the model follows what the
statement then does.

**The rich-text converter and the Resume backfills** (revision 0016). `V1RichText` reads stored JSON
as a V1 document, `V1Writing` writes documents in all their spellings and says what can be read, `RichText` has the stages of the converter and the flat reference they refine,
`RichTextFacts` and `ListOutline` have what the output promises, `RichTextConverter` is the converter in
its own loops and recursion. `OperationLedger`, `Proposals` and `ResumeJobs` are the three backfill
loops over tables, with the guard that runs behind them (`Backfill` holds what they share).

**The Workspace event feed** (revision 0017; `EventFeed`, `FeedUpgrade`). Transactions begin,
insert, commit and abort under Read Committed. The insert trigger takes the next number from a counter row
whose lock lasts until the transaction ends. The upgrade renumbers the history and seeds the counters.

**Smaller cores.** Quota reservation under an advisory lock (0024, `UploadQuota`, `QuotaLimits`), bounded maintenance
(0015, `Maintenance`), the telemetry projection and its self-checks (0006, `Telemetry`), the ordered
status rewrites of runs and jobs (0029, `StatusMigration`), Workspace slugs (0013, `Slug`), and
length-framed digest input (0019, `Framing`).

`Basics`, `RowOrder` and `Sums` hold what all of them use: nullable values and string shapes,
`ORDER BY ... LIMIT` as a strict order on sort keys, and sums over tables.

Objects with mutable rows are classes whose methods change their fields in place; pure SQL
expressions and pure Python are functions. Time is an integer number of microseconds. Primary
keys that a query sorts by stand for their position in the collation order.

## Where the code does not do what one might expect

Each of these is a theorem here, with the exact condition where there is one.

- An outbox row whose last permitted holder vanishes is never claimed again, since the claim filter
  `attempt_count < maximum` also applies to expired leases (`OutboxRuns.ReclaimableIff`,
  `OutboxRuns.ExhaustedHolderStrands`); a run reaches such a row for every maximum
  (`OutboxRuns.StrandedRowIsReachable`).
- `lossy == false` does not cover empty spans: their marks are dropped without raising the flag, and
  nothing else is (`RichTextFacts.DropsOnlyEmptySpanMarks`).
- A NULL maximum lifts the upload quota (`QuotaLimits.WithinLimitIff`, `QuotaLimits.NullMaximumLiftsQuota`).
- The telemetry migration aborts on a metric whose name, with the `aiws.` prefix added, has anything but blanks
  beyond 128 characters (`Telemetry.BackfillConserves`, `Telemetry.LongNamesExist`).
- The status upgrade aborts if and only if one run has two proposals, or two proposals with a run have ids with one
  MD5, since every such proposal becomes a tool invocation with ordinal 1 and an id made from that hash (`StatusMigration.AgentTables.Upgrade`, `StatusMigration.TwoProposalsCollide`).
- The job backfill of 0016 can leave jobs on which 0017 aborts: exactly those with an ill-formed type, no
  addressable target, an untrimmed phase or inconsistent units, never because of their timeline
  (`ResumeJobs.MappableIff`, `ResumeJobs.OvercountedJobIsUnmappable`).

## Model

| member | source | states |
|---|---|---|
| Outbox.CandidateIff | alembic/versions/20260723_0023_v2_outbox_dispatch_leases.py:261-273 | a row is a candidate if and only if it is not locked, has attempts left and a type asked for, and is pending or leased until no later than the database clock and the caller's |
| Outbox.ClaimPicksTheLeast | alembic/versions/20260723_0023_v2_outbox_dispatch_leases.py:261-280 | a claim returns min(batch, available) candidates, or all for a NULL batch, the first in claim order, each once, listed by occurred_at and then id |
| Outbox.ClaimIsDetermined | alembic/versions/20260723_0023_v2_outbox_dispatch_leases.py:261-316 | those promises determine the answer: a list of events that keeps them all is the one returned |
| Outbox.ClaimIsFair | alembic/versions/20260723_0023_v2_outbox_dispatch_leases.py:274-278 | what a claim passes over waits behind what it takes: expired leases go first, then earlier lease or due times, then earlier occurrences, then smaller ids |
| Outbox.ClaimEffect | alembic/versions/20260723_0023_v2_outbox_dispatch_leases.py:281-303 | exactly the delivered rows change: one more attempt, the token of the call, a lease from the database clock |
| Outbox.ClaimGoesThroughIff | alembic/versions/20260723_0023_v2_outbox_dispatch_leases.py:240-258 | a claim goes through if and only if its arguments are in range or NULL, its types are distinct names, and a NULL lease meets no candidate |
| Outbox.StepKeepsConstraints | alembic/versions/20260723_0023_v2_outbox_dispatch_leases.py:168-189 | every call, whatever its arguments, keeps the lease CHECK and the values CHECK on every row |
| Outbox.OutboxEvents.InsertEvent | alembic/versions/20260715_0001_initial_postgres_persistence.py:314-330 | an insert goes through exactly for a new id, which starts pending with attempt_count 0; no other row changes |
| Outbox.OutboxEvents.ClaimEvents | alembic/versions/20260723_0023_v2_outbox_dispatch_leases.py:240-316 | the claim function on the table, with its guard and its NULL cases: the new table and the answer are those of the step that the run theorems speak about |
| Outbox.OutboxEvents.RenewLease | alembic/versions/20260723_0023_v2_outbox_dispatch_leases.py:337-353 | malformed arguments raise; only the row held under the token gets a new lease and keeps its other columns; a refusal changes nothing |
| Outbox.OutboxEvents.CompleteEvent | alembic/versions/20260723_0023_v2_outbox_dispatch_leases.py:370-390 | malformed arguments raise; a completed row is published at the time given, moved between its occurrence and the database clock, without lease or error; a refusal changes nothing |
| Outbox.OutboxEvents.RetryEvent | alembic/versions/20260723_0023_v2_outbox_dispatch_leases.py:409-439 | malformed arguments raise; a retried row is failed exactly when its attempts are used up, else pending, due at the time given, moved between now and a day from now; a refusal changes nothing |
| OutboxRuns.AlwaysValid | alembic/versions/20260723_0023_v2_outbox_dispatch_leases.py:168-189 | both CHECKs hold after every prefix of every run |
| OutboxRuns.HolderMatchesRow | alembic/versions/20260723_0023_v2_outbox_dispatch_leases.py:282-286 | a row is processing, under a token, exactly while the history of calls gives the event that holder |
| OutboxRuns.Fencing | alembic/versions/20260723_0023_v2_outbox_dispatch_leases.py:346-353 | renew, complete and retry return true exactly for the token of the event's most recent claim while it is processing; every other such call leaves the whole table unchanged |
| OutboxRuns.UnsuccessfulIsInert | alembic/versions/20260723_0023_v2_outbox_dispatch_leases.py:377-390 | a call that raises, finds nothing or claims nothing changes nothing |
| OutboxRuns.TerminalIsAbsorbing | alembic/versions/20260723_0023_v2_outbox_dispatch_leases.py:419-439 | published and failed rows never change again |
| OutboxRuns.AtMostOneComplete | alembic/versions/20260723_0023_v2_outbox_dispatch_leases.py:377-390 | at most one complete ever succeeds per event |
| OutboxRuns.LeaseExclusion | alembic/versions/20260723_0023_v2_outbox_dispatch_leases.py:259-288 | with a monotone database clock, no claim returns a leased event before its lease ends unless the holder completed, retried or renewed it, whatever clock the callers pass |
| OutboxRuns.NotClaimedEarly | alembic/versions/20260723_0023_v2_outbox_dispatch_leases.py:267-273 | in a run with a monotone clock, an event put off by its insert or by a retry is never claimed before its due time in database time, nor does its first claimant's own clock stand before it |
| OutboxRuns.AttemptConservation | alembic/versions/20260723_0023_v2_outbox_dispatch_leases.py:282-290 | attempt_count is the number of claims, and equals retries plus reclaims plus one if processing or published |
| OutboxRuns.AttemptBounds | alembic/versions/20260723_0023_v2_outbox_dispatch_leases.py:264-264 | with one maximum M, no row exceeds M attempts, pending rows have attempts left, failed rows have used M |
| OutboxRuns.WorkBalance | alembic/versions/20260723_0023_v2_outbox_dispatch_leases.py:419-424 | per event, claims, completes, retries and reclaims made and the potential left always add up to 2M |
| OutboxRuns.CallPotential | alembic/versions/20260723_0023_v2_outbox_dispatch_leases.py:282-290 | the sum over events of 2*(M - attempt_count) + [processing] never rises on a call, and falls on every successful claim, complete or retry |
| OutboxRuns.BoundedWork | alembic/versions/20260723_0023_v2_outbox_dispatch_leases.py:264-290 | N events allow at most 2*M*N successful claims, completes and retries in any run |
| OutboxRuns.ReclaimableIff | alembic/versions/20260723_0023_v2_outbox_dispatch_leases.py:264-273 | some claim can still return a processing row if and only if its attempt_count is below the maximum |
| OutboxRuns.ExhaustedHolderStrands | alembic/versions/20260723_0023_v2_outbox_dispatch_leases.py:264-273 | a row at M attempts stays processing under its last token for ever unless that holder completes or retries it |
| OutboxRuns.StrandedRowIsReachable | alembic/versions/20260723_0023_v2_outbox_dispatch_leases.py:264-288 | for every maximum M a run with a monotone clock ends with a processing row at M attempts |
| OutboxDrain.ClaimTakesTheFront | alembic/versions/20260723_0023_v2_outbox_dispatch_leases.py:274-280 | at a fixed clock with nothing locked, a claim takes the front of the queue and leaves the rest in order |
| OutboxDrain.DrainBatch | alembic/versions/20260723_0023_v2_outbox_dispatch_leases.py:261-303 | the k-th repeated claim returns exactly the k-th stretch of the original queue |
| OutboxDrain.DrainExhausts | alembic/versions/20260723_0023_v2_outbox_dispatch_leases.py:261-303 | n eligible events leave in exactly ceil(n / batch) non-empty batches |
| OutboxDrain.BatchesDisjoint | alembic/versions/20260723_0023_v2_outbox_dispatch_leases.py:261-303 | no event is in two batches of a drain |
| RichTextConverter.ConvertMarks | alembic/versions/20260723_0016_v2_resume_persistence.py:520-543 | the mark loop yields the marks of the span's images on its range and flags the lost ones; it aborts exactly on marks that describe none |
| RichTextConverter.ConvertSpans | alembic/versions/20260723_0016_v2_resume_persistence.py:495-545 | the span loop yields the span line with its shifted marks, and aborts exactly on values that are no span sequence |
| RichTextConverter.ConvertItem | alembic/versions/20260723_0016_v2_resume_persistence.py:548-590 | the recursion yields the pre-order lines of the item; it terminates |
| RichTextConverter.ConvertItems | alembic/versions/20260723_0016_v2_resume_persistence.py:576-590 | children are numbered from 1 and their lines follow one another |
| RichTextConverter.ConvertBlocks | alembic/versions/20260723_0016_v2_resume_persistence.py:611-650 | the block loop yields the lines of all blocks in order and gathers the lossy flag |
| RichTextConverter.JoinLines | alembic/versions/20260723_0016_v2_resume_persistence.py:651-664 | lines are joined by newlines and their marks moved to their line's offset |
| RichTextConverter.DropDuplicates | alembic/versions/20260723_0016_v2_resume_persistence.py:673-684 | the first occurrence of each non-empty mark is kept, in order |
| RichTextConverter.ConvertRichText | alembic/versions/20260723_0016_v2_resume_persistence.py:593-688 | null stays null; a value aborts exactly when it describes no V1 document; any other becomes the converted form of its document with the lossy flag |
| V1Writing.RichReadBack | alembic/versions/20260723_0016_v2_resume_persistence.py:495-650 | every document that V1 allows, at every depth, is read back from its JSON in any spelling: defaults left out or not, any unknown mark type, refused link, other alignment or additional key |
| V1Writing.RichViewedIff | alembic/versions/20260723_0016_v2_resume_persistence.py:495-650 | a value is read, and so does not abort, if and only if it has the V1 shape at every depth; what is read is a document that V1 allows |
| RichText.AppendAssoc | alembic/versions/20260723_0016_v2_resume_persistence.py:566-569 | writing marked lines one behind the other is associative, so nested offset shifts add up |
| RichText.ConverterRefinesPieces | alembic/versions/20260723_0016_v2_resume_persistence.py:606-664 | the three offset shifts together put every span and mark where the flat document has it |
| RichText.PiecesHoldSourceSpans | alembic/versions/20260723_0016_v2_resume_persistence.py:548-590 | the flat document holds every source span, at every depth, once and in reading order |
| RichTextFacts.OutputWellFormed | alembic/versions/20260723_0016_v2_resume_persistence.py:665-688 | at most 20,000 characters and 1,000 marks; marks distinct, with 0 <= start < end <= length, ordered by start; link marks disjoint |
| RichTextFacts.OutputText | alembic/versions/20260723_0016_v2_resume_persistence.py:664-666 | the output text is the whole document's text or its first 20,000 characters |
| RichTextFacts.UncappedMarks | alembic/versions/20260723_0016_v2_resume_persistence.py:665-684 | before the cap, the marks are exactly the images of the spans that start before the cut, ended at the cut |
| RichTextFacts.ImagesKeepOrder | alembic/versions/20260723_0016_v2_resume_persistence.py:507-543 | bold, italic and the first link with a URL become strong, emphasis and a link to it, in the order of the marks; no other mark has an image |
| RichTextFacts.LossyIffDropped | alembic/versions/20260723_0016_v2_resume_persistence.py:523-533 | a span is lossy if and only if some mark of it has no image |
| RichTextFacts.CutKeepsOrder | alembic/versions/20260723_0016_v2_resume_persistence.py:665-672 | the cut keeps exactly the marks that start before it, in order, ended at the cut |
| RichTextFacts.DedupKeepsFirst | alembic/versions/20260723_0016_v2_resume_persistence.py:673-684 | exactly the first occurrences of the non-empty marks are kept, in order |
| RichTextFacts.OutputMarks | alembic/versions/20260723_0016_v2_resume_persistence.py:685-688 | the output has the first 1,000 of the marks left |
| RichTextFacts.MarkFaithful | alembic/versions/20260723_0016_v2_resume_persistence.py:503-672 | every output mark comes from one source span and covers exactly that span's text, or its prefix at the cut |
| RichTextFacts.LossyExactly | alembic/versions/20260723_0016_v2_resume_persistence.py:608-688 | lossy is raised exactly for unkept fields, a mark without image at any depth, an alignment, a cut or a cap |
| RichTextFacts.LosslessMarks | alembic/versions/20260723_0016_v2_resume_persistence.py:507-545 | with lossy false the text is whole and each non-empty span's range carries exactly the images of all that span's marks |
| RichTextFacts.LosslessStyles | alembic/versions/20260723_0016_v2_resume_persistence.py:503-543 | with lossy false, a non-empty span's range has a strong, emphasis or link mark exactly if the span is bold, italic or linked so |
| RichTextFacts.DropsOnlyEmptySpanMarks | alembic/versions/20260723_0016_v2_resume_persistence.py:535-543 | with lossy false, a mark is dropped if and only if an empty span carries one |
| RichTextFacts.EmptyBoldSpanIsDropped | alembic/versions/20260723_0016_v2_resume_persistence.py:535-543 | one empty bold span loses its mark with lossy false |
| ListOutline.LineRead | alembic/versions/20260723_0016_v2_resume_persistence.py:565-570 | depth, marker and text of a list line are read back from it, whatever the text |
| ListOutline.ItemsRead | alembic/versions/20260723_0016_v2_resume_persistence.py:571-589 | the lines of a list read back as the pre-order entries of its forest |
| ListOutline.MarkerDenotes | alembic/versions/20260723_0016_v2_resume_persistence.py:566-566 | an ordered marker is its ordinal in decimal digits without leading zeros, a dot and a blank; any other is a bullet and a blank |
| ListOutline.OutlineAt | alembic/versions/20260723_0016_v2_resume_persistence.py:576-590 | items are numbered from 1 at every level and keep text and children |
| ListOutline.RebuildForest | alembic/versions/20260723_0016_v2_resume_persistence.py:571-589 | a forest of any shape is rebuilt from its pre-order entries and their depths |
| ListOutline.ListIsRecovered | alembic/versions/20260723_0016_v2_resume_persistence.py:624-648 | from the lines of a list its forest is recovered in shape, markers and texts, and there is one line per node |
| OperationLedger.OperationLedger.ConvertOperations | alembic/versions/20260723_0016_v2_resume_persistence.py:1841-1923 | the first loop goes through exactly when every operation is accepted; the operations of applied batches are converted in place, all others are gone, and by_batch has each applied batch's operations in ordinal order |
| OperationLedger.OperationLedger.WriteReceipts | alembic/versions/20260723_0016_v2_resume_persistence.py:1925-2035 | the second loop goes through if and only if every batch is accepted and no quarantine id is taken at its turn; then every batch has its receipt or quarantine form |
| OperationLedger.OperationLedger.Backfill | alembic/versions/20260723_0016_v2_resume_persistence.py:1818-2035 | the backfill goes through if and only if every row is accepted and no quarantine id is taken at its turn; then the ledger is migrated row by row, rows deleted are exactly the operations of non-applied batches, and client ids are unique per Resume, so the duplicate-batch query finds none; otherwise both tables are as before |
| OperationLedger.OperationAcceptedIff | alembic/versions/20260723_0016_v2_resume_persistence.py:1843-1888 | an operation goes through if and only if it converts under its stored opaque id for a Resume with a current document, and in an applied batch for a revision with a snapshot |
| OperationLedger.BatchAcceptedIff | alembic/versions/20260723_0016_v2_resume_persistence.py:1939-1981 | a batch goes through if and only if it is not applied, or has operations, an opaque client id, positive revisions, a known strategy and a snapshot |
| OperationLedger.SurvivorsAreConverted | alembic/versions/20260723_0016_v2_resume_persistence.py:1880-1919 | exactly the operations of applied batches survive, in place, with the converted payload, its type and fingerprint, and the revision of their batch |
| OperationLedger.BatchesAreReceipted | alembic/versions/20260723_0016_v2_resume_persistence.py:1942-2035 | an applied batch gets a receipt with the digest of its request over the converted operations by ordinal, the snapshot of its applied revision and an expiry after 30 days; any other batch changes only in its client id |
| OperationLedger.GroupedInOrdinalOrder | alembic/versions/20260723_0016_v2_resume_persistence.py:1836-1837 | grouping the joined listing gives each applied batch its operations in ordinal order |
| OperationLedger.LedgerGuardIsRedundant | alembic/versions/20260723_0016_v2_resume_persistence.py:2650-2659 | after the backfill no operation row violates the guard and every batch meets the receipt CHECK |
| OperationLedger.ReceiptListsSurvivors | alembic/versions/20260723_0016_v2_resume_persistence.py:1982-1995 | the applied_operation_ids of an applied batch are exactly its surviving operations' ids, by ascending ordinal, without repetition, and not empty |
| Proposals.Settle | alembic/versions/20260723_0016_v2_resume_persistence.py:2128-2169 | the status walk raises exactly on an unknown status or missing or surplus decision metadata, and otherwise ends in a state that the lifecycle CHECK allows |
| Proposals.ProposalStore.ConvertOperations | alembic/versions/20260723_0016_v2_resume_persistence.py:2103-2126 | all operations of a proposal convert and have different ids, or the proposal is not convertible |
| Proposals.ProposalStore.WriteOperations | alembic/versions/20260723_0016_v2_resume_persistence.py:2182-2238 | the update loop writes exactly the rows of the proposal and gathers the accepted ids in ordinal order |
| Proposals.ProposalStore.Backfill | alembic/versions/20260723_0016_v2_resume_persistence.py:2067-2285 | the backfill goes through if and only if every proposal is accepted; then both tables are migrated row by row, otherwise they are as before |
| Proposals.ProposalGuardIsRedundant | alembic/versions/20260723_0016_v2_resume_persistence.py:2660-2678 | after the backfill no proposal and no proposal operation violates the guard, and (proposal, operation id) is unique |
| Proposals.DecisionIsConserved | alembic/versions/20260723_0016_v2_resume_persistence.py:2171-2252 | an operation has an applied revision if and only if its proposal was accepted, or partially accepted with the operation decided so or selected by row id or new operation id in the runtime; undecided operations keep what they had; accepted_operation_ids name exactly those with a revision, in ordinal order; that revision is the proven one and has a snapshot |
| Proposals.OperationsAreConverted | alembic/versions/20260723_0016_v2_resume_persistence.py:2182-2238 | every operation holds its converted payload with its id, type and fingerprint where it stood |
| Proposals.ProposalAcceptedIff | alembic/versions/20260723_0016_v2_resume_persistence.py:2075-2181 | a proposal goes through if and only if it has 1 to 200 operations that convert under different ids for a Resume with a current document, a known status with the decision metadata that this asks for, and, where it applies, a proven revision with a snapshot |
| Proposals.ProvenRevisionIff | alembic/versions/20260723_0016_v2_resume_persistence.py:2048-2064 | the proven revision is new_revision of the application result; where that key is missing, its revision; where these are missing or null, new_revision of the payload |
| Proposals.TitleIsKept | alembic/versions/20260723_0016_v2_resume_persistence.py:2239-2244 | a title of 1 to 300 characters is kept, otherwise there is a default cut to 300 |
| Proposals.StatusIsKept | alembic/versions/20260723_0016_v2_resume_persistence.py:2143-2169 | a proposal expires exactly when it was conflicted, or pending with an operation that converts with a loss; otherwise it keeps status, decider and time, an expired one without decider and with an end |
| ResumeJobs.ChooseTarget | alembic/versions/20260723_0016_v2_resume_persistence.py:2322-2338 | the target is the job's own, else the linked Resume, else the Workspace, each with its type; an ill-formed type falls back by target |
| ResumeJobs.ClassifyJob | alembic/versions/20260723_0016_v2_resume_persistence.py:2319-2372 | active jobs fail, finished ones keep their status; times, phase, error, target and request payload are given column by column; only an ill-formed id or unknown status raises |
| ResumeJobs.Jobs.Backfill | alembic/versions/20260723_0016_v2_resume_persistence.py:2299-2414 | exactly the Resume jobs are classified, and the result counts the ones that were active |
| ResumeJobs.ResumeJobsAreClassified | alembic/versions/20260723_0016_v2_resume_persistence.py:2299-2414 | in terms of job type and status: which tables go through, which rows are classified and which untouched, and which are counted |
| ResumeJobs.LinkedResumeIff | alembic/versions/20260723_0016_v2_resume_persistence.py:2287-2324 | the linked Resume is the render job's, or where that is missing or empty the text at runtime.extensions.resume_id |
| ResumeJobs.JobGuardIsRedundant | alembic/versions/20260723_0016_v2_resume_persistence.py:2679-2684 | no Resume job is left that the guard would find or that is still active |
| ResumeJobs.MappableIff | alembic/versions/20260723_0017_v2_platform_persistence.py:410-431 | the next revision accepts a classified job if and only if its type, target, phase and units were in order; its timeline always is |
| ResumeJobs.OvercountedJobIsUnmappable | alembic/versions/20260723_0017_v2_platform_persistence.py:410-431 | a queued job with two units done of one is accepted, and whatever is written for it the next revision aborts |
| EventFeed.StepKeepsInvariant | alembic/versions/20260723_0017_v2_platform_persistence.py:804-824 | every begin, insert, commit and abort keeps the feed invariant, however transactions interleave |
| EventFeed.AssignedNumberIsNew | alembic/versions/20260723_0017_v2_platform_persistence.py:816-824 | the number the trigger assigns is the visible counter plus one and is used nowhere, committed or not |
| EventFeed.FeedHasNoHoles | alembic/versions/20260723_0017_v2_platform_persistence.py:816-824 | at every moment of every run the committed numbers of a Workspace are exactly 1..n, each used once |
| EventFeed.ReaderNeverMisses | alembic/versions/20260723_0017_v2_platform_persistence.py:816-824 | committed events keep their numbers, and whatever commits later stands above everything visible before |
| EventFeed.AbortLeavesNoTrace | alembic/versions/20260723_0017_v2_platform_persistence.py:816-824 | an abort leaves the committed state alone and frees the counters it held |
| EventFeed.InsertGoesThroughIff | alembic/versions/20260723_0017_v2_platform_persistence.py:804-834 | an insert waits only for a transaction that holds its counter or inserts its id; it then goes through if and only if the row's Workspace is the scope and the id is new, and gets the next number |
| EventFeed.CommitPublishes | alembic/versions/20260723_0017_v2_platform_persistence.py:816-824 | a commit publishes exactly the events and counters of its transaction |
| EventFeed.LoneInsertIsPublished | alembic/versions/20260723_0017_v2_platform_persistence.py:816-824 | an event that meets no other transaction is committed in a run of three steps under the next number |
| FeedUpgrade.RenumberingFills | alembic/versions/20260723_0017_v2_platform_persistence.py:685-699 | renumbering gives each Workspace the numbers 1..n, smaller to what occurred earlier, then to the smaller id |
| FeedUpgrade.UpgradeStartsTheFeed | alembic/versions/20260723_0017_v2_platform_persistence.py:776-785 | whatever the historical numbers were, the renumbered history and the counter seed satisfy the feed invariant |
| FeedUpgrade.EventStore.Upgrade | alembic/versions/20260723_0017_v2_platform_persistence.py:685-785 | the upgraded tables keep every event in its Workspace, number them oldest first and satisfy the feed invariant with no transaction open |
| FeedUpgrade.EventStore.InsertEvent | alembic/versions/20260723_0017_v2_platform_persistence.py:804-834 | an insert gets the next number in its own transaction and leaves committed rows alone; a wrong scope or a taken id, and nothing else, aborts the transaction |
| FeedUpgrade.EventStore.CommitTransaction | alembic/versions/20260723_0017_v2_platform_persistence.py:816-824 | a commit publishes the events of its transaction, releases its locks and keeps the invariant |
| UploadQuota.StepKeepsQuota | alembic/versions/20260723_0024_knowledge_external_security.py:282-325 | every step keeps committed and pending reservations of each Workspace within its limit, even if Workspaces share a lock |
| UploadQuota.UploadIdsStayUnique | alembic/versions/20260723_0024_knowledge_external_security.py:239-239 | since inserts of one upload id wait for each other, no two reservations, committed or pending, ever share an upload id |
| UploadQuota.CommittedWithinMaximum | alembic/versions/20260723_0024_knowledge_external_security.py:306-313 | in every interleaving whose calls pass at most the limit, the committed sum of a Workspace never exceeds it |
| UploadQuota.FreshGrantAddsSize | alembic/versions/20260723_0024_knowledge_external_security.py:314-324 | a fresh true answer adds exactly its size, to its Workspace only, within the maximum it passed |
| UploadQuota.OtherAnswersAddNothing | alembic/versions/20260723_0024_knowledge_external_security.py:298-313 | a false answer or a replay reserves nothing, and false means that the sum would have exceeded the maximum |
| UploadQuota.ReplayIsIdempotent | alembic/versions/20260723_0024_knowledge_external_security.py:293-305 | once committed, an operation answers true to the same input in every later state and changes no reservation; other input raises |
| UploadQuota.AnswersAre | alembic/versions/20260723_0024_knowledge_external_security.py:289-325 | every answer of a call: a replay is granted for the same upload and size, a fresh call is refused beyond the maximum, raises if it cannot be stored, and is granted otherwise |
| UploadQuota.WaitsIff | alembic/versions/20260723_0024_knowledge_external_security.py:289-324 | a call waits only for the lock of its Workspace's hash, or for the upload id that another transaction inserts while it comes to insert itself |
| UploadQuota.GoodArgumentsIff | alembic/versions/20260723_0024_knowledge_external_security.py:282-291 | the arguments are accepted if and only if ids and operation are well formed and the size, where given, is within 1 GiB and the maximum |
| QuotaLimits.WithinLimitIff | alembic/versions/20260723_0024_knowledge_external_security.py:282-313 | a fresh call keeps a Workspace within a limit, in every state within it that meets the table's constraints and grants the call, if and only if it passes a maximum no greater than the limit |
| QuotaLimits.NullMaximumLiftsQuota | alembic/versions/20260723_0024_knowledge_external_security.py:282-313 | for every bigint limit there is a run from the empty ledger, all of whose calls pass a NULL maximum, that commits more than the limit |
| UploadQuota.QuotaLedger.ReserveUploadQuota | alembic/versions/20260723_0024_knowledge_external_security.py:270-325 | the function on the ledger object, with its guard, NULL cases and constraint failures: new state and answer are those of the step that the run theorems speak about |
| UploadQuota.QuotaLedger.SumSizes | alembic/versions/20260723_0024_knowledge_external_security.py:306-309 | the sum over the Workspace's reservations |
| Maintenance.WorkspaceInvitations.ExpireDue | alembic/versions/20260723_0015_v2_maintenance.py:160-191 | anything but a time and a limit of 1 to 1000 raises and changes nothing; otherwise the first unlocked invitations due by both clocks expire and the state CHECK is kept |
| Maintenance.ExpiryIsExact | alembic/versions/20260723_0015_v2_maintenance.py:168-190 | one call expires min(limit, unlocked due) invitations, the earliest first, none of them locked, each once with the next revision and the effective time; no other row changes |
| Maintenance.DueIff | alembic/versions/20260723_0015_v2_maintenance.py:171-173 | an invitation is due if and only if it is pending and neither its expiry nor its last update lies ahead |
| Maintenance.DrainIsExact | alembic/versions/20260723_0015_v2_maintenance.py:168-190 | over any number of calls the results add up to the invitations no longer due, each expired once |
| Maintenance.DrainEndsEmpty | alembic/versions/20260723_0015_v2_maintenance.py:168-190 | a drain that ends with an unlocked result below the limit has expired every due invitation exactly once and nothing else |
| Maintenance.DrainAdvances | alembic/versions/20260723_0015_v2_maintenance.py:168-190 | with nothing locked, the k-th call expires the next min(limit, left) of the n due invitations |
| Maintenance.DrainEndsWhen | alembic/versions/20260723_0015_v2_maintenance.py:168-190 | with nothing locked, the result falls below the limit exactly from call floor(n / limit) + 1 on |
| Maintenance.BoundedReadIsExact | alembic/versions/20260723_0015_v2_maintenance.py:238-250 | reading limit + 1 rows by expiry determines the capped count, whether there are more, and the oldest expiry of the whole table |
| Maintenance.IdempotencyReceipts.Maintain | alembic/versions/20260723_0015_v2_maintenance.py:214-251 | the first unlocked completed receipts by expiry and id are purged, nothing else is, and the report on stranded receipts is exact |
| Telemetry.ProjectionMeetsChecks | alembic/versions/20260721_0006_observability_signal_envelope.py:87-146 | a legacy row with a finite metric value projects to a row that meets every CHECK of the v2 table; its name can be stored if and only if an added prefix pushes nothing but blanks out of the column |
| Telemetry.ContextIsKept | alembic/versions/20260721_0006_observability_signal_envelope.py:278-306 | a trace context that meets the CHECK is kept as it is, and nothing is invented |
| Telemetry.QuantityIsKept | alembic/versions/20260721_0006_observability_signal_envelope.py:237-249 | a finite metric keeps its quantity; the unit is seconds exactly for a latency, whose value is divided by 1000 |
| Telemetry.SeverityInItsBand | alembic/versions/20260721_0006_observability_signal_envelope.py:250-277 | severity number and text are of one band and a level that names a band stays in it; FATAL and WARN are names of two, and anything else is INFO |
| Telemetry.AttributesAreSafe | alembic/versions/20260721_0006_observability_signal_envelope.py:307-374 | an attribute that the projection does not derive is there, as it was, if and only if it is an allowed key with a printable scalar of 1 to 256 characters; status_code never is |
| Telemetry.AttributesAreDerived | alembic/versions/20260721_0006_observability_signal_envelope.py:307-333 | a span gets a fixed event type and outcome; a request its method and the class and outcome of its status code |
| Telemetry.NamesAreMapped | alembic/versions/20260721_0006_observability_signal_envelope.py:216-230 | four metrics are renamed, an unlinked span gets one name, other metrics come into a namespace, everything else keeps its name; the column takes 128 characters |
| Telemetry.ColumnsAreKept | alembic/versions/20260721_0006_observability_signal_envelope.py:208-306 | what is copied is as it was; metric type and unit follow the name, severity is that of the level |
| Telemetry.LevelIsFound | alembic/versions/20260721_0006_observability_signal_envelope.py:250-263 | the level is the severity, else the level attribute, else INFO |
| Telemetry.StatusAgreement | alembic/versions/20260721_0006_observability_signal_envelope.py:317-333 | the class of a status code is its first digit, of anything else unknown; outcome follows the first character, so a known class and the outcome agree |
| Telemetry.KindsAreConserved | alembic/versions/20260721_0006_observability_signal_envelope.py:397-424 | total and per-kind counts carry over, with spans counted as logs |
| Telemetry.LatencyIsConserved | alembic/versions/20260721_0006_observability_signal_envelope.py:425-440 | count and sum of the latency metrics carry over exactly, joined by row id |
| Telemetry.BackfillConserves | alembic/versions/20260721_0006_observability_signal_envelope.py:154-452 | for any legacy table that its constraints allow, no row stops the migration if and only if metric values are finite and names leave room for the prefix, blanks aside; then all CHECKs and all self-checks hold |
| Telemetry.LongNameStopsTheMigration | alembic/versions/20260721_0006_observability_signal_envelope.py:218-230 | a row with a plain metric name stops the migration if and only if a character from position 123 on is not a blank |
| Telemetry.LongNamesExist | alembic/versions/20260721_0006_observability_signal_envelope.py:218-230 | a row with a 124-letter name stops the migration; a row with 121 letters and 5 blanks goes through |
| StatusMigration.UpgradeKeepsAlignment | alembic/versions/20260727_0029_agent_tool_workflow.py:174-237 | from aligned tables the upgrade leaves aligned tables that meet the run and job CHECKs of its revision, for any number of rows |
| StatusMigration.WaitsIffReopened | alembic/versions/20260727_0029_agent_tool_workflow.py:174-215 | a run waits for a proposal decision exactly when its job moved back to running, exactly when it had succeeded with a pending proposal |
| StatusMigration.RunsFirstWouldStrandJobs | alembic/versions/20260727_0029_agent_tool_workflow.py:174-215 | with the two UPDATEs exchanged the job would not follow its run |
| StatusMigration.DowngradeKeepsAlignment | alembic/versions/20260727_0029_agent_tool_workflow.py:276-349 | the downgrade keeps the tables aligned and meets the old CHECKs |
| StatusMigration.FailsIffWaiting | alembic/versions/20260727_0029_agent_tool_workflow.py:276-328 | exactly the waiting runs fail, each with its job, and no other run or job of a run changes |
| StatusMigration.RoundTrip | alembic/versions/20260727_0029_agent_tool_workflow.py:173-349 | up and down again changes nothing but the undecided runs, which have failed with their jobs |
| StatusMigration.UpgradeWrites | alembic/versions/20260727_0029_agent_tool_workflow.py:174-215 | a run that had succeeded with a pending proposal waits, and its job runs again without progress, results or end; any other run and its job stay as they were |
| StatusMigration.DowngradeWrites | alembic/versions/20260727_0029_agent_tool_workflow.py:276-328 | a waiting run fails without results, and so does its job; any other run and its job stay as they were |
| StatusMigration.OthersStay | alembic/versions/20260727_0029_agent_tool_workflow.py:174-328 | jobs of no run and all proposals are left alone, and no row comes or goes |
| StatusMigration.AgentTables.Upgrade | alembic/versions/20260727_0029_agent_tool_workflow.py:48-237 | the upgrade aborts if and only if some run has two proposals, or two proposals with a run have ids with one MD5; otherwise the new CHECKs and the alignment are in force |
| StatusMigration.CollideOnKeys | alembic/versions/20260727_0029_agent_tool_workflow.py:48-163 | the upgrade's obstacle is exactly that two of the rows it inserts share the primary key or Workspace, run and ordinal |
| StatusMigration.CollideIff | alembic/versions/20260727_0029_agent_tool_workflow.py:137-163 | where the MD5 tells the proposals of the table apart, the only obstacle is a run with two of them |
| StatusMigration.AgentTables.Downgrade | alembic/versions/20260727_0029_agent_tool_workflow.py:273-349 | the downgrade in its own order ends with the old CHECKs and the alignment in force |
| StatusMigration.TwoProposalsCollide | alembic/versions/20260727_0029_agent_tool_workflow.py:130-163 | aligned tables in which the run and job CHECKs hold, with two proposals of one run, on which the upgrade aborts under any hash |
| Slug.SqueezeKeepsLetters | alembic/versions/20260723_0013_v2_identity_workspace.py:451-452 | squeezing keeps every letter and digit in order and puts single hyphens for everything else |
| Slug.BaseIsWords | alembic/versions/20260723_0013_v2_identity_workspace.py:449-455 | the base is the words of the name, its maximal runs of letters and digits, with single hyphens between them, or "workspace" if it has none |
| Slug.SlugIsBaseAndDigest | alembic/versions/20260723_0013_v2_identity_workspace.py:458-458 | a slug is the first 30 characters of its base, a hyphen and the digest of the id |
| Slug.SlugMeetsConstraint | alembic/versions/20260723_0013_v2_identity_workspace.py:446-460 | for any name the slug has 34 to 63 characters and meets its CHECK |
| Slug.SameSlugIff | alembic/versions/20260723_0013_v2_identity_workspace.py:457-458 | two slugs are equal if and only if digests and cut bases are |
| Slug.BackfillMeetsConstraints | alembic/versions/20260723_0013_v2_identity_workspace.py:537-563 | the backfilled column meets the CHECK and, for ids with distinct digests, the unique index |
| Framing.Join | alembic/versions/20260723_0019_v2_knowledge_persistence.py:1028-1035 | framing fails exactly on a value of 2^32 bytes or more and otherwise yields the frames in order |
| Framing.PrefixIsBigEndian | alembic/versions/20260723_0019_v2_knowledge_persistence.py:1028-1035 | the four bytes before a value are its length, the most significant first |
| Framing.RoundTrip | alembic/versions/20260723_0019_v2_knowledge_persistence.py:1028-1035 | decoding the frames gives back the values, however many there are |
| Framing.FramedIsInjective | alembic/versions/20260723_0019_v2_knowledge_persistence.py:1028-1035 | different lists of values give different digest inputs |
| Framing.SameOperationIdIff | alembic/versions/20260723_0019_v2_knowledge_persistence.py:1036-1043 | two sessions have one id if and only if they agree in Workspace, upload and status, unless the hash collides on just their two inputs |
| Framing.OperationIdIsHash | alembic/versions/20260723_0019_v2_knowledge_persistence.py:1036-1043 | the id is prep_ and the hash over the framed Workspace, upload and status in this order |
| Framing.UploadSessions.Backfill | alembic/versions/20260723_0019_v2_knowledge_persistence.py:1010-1044 | every session in a verified state, and no other, gets an id that meets its CHECK; no id is given twice unless the hash collides on inputs of this very table |

## Left out

- Schema plumbing: tables, indexes, foreign keys as such, grants, row-level-security policies, role quoting and
  migration locks. They are configuration.
- Later replacements of what is modelled here: revision 0027 replaces the claim function so that exhausted
  leases are recovered, and revisions 0025 and 0027 delete feed rows. The theorems speak of the revisions cited.
- Hashes (SHA-256, MD5, the hash of the advisory lock), JSON text encoding, `upper`, `lower`, UTF-8 encoding, link
  parsing and the operation converter of 0016 are parameters. Where a result needs one to be collision-free or
  faithful, it says so.
- The document, revision, profile, section and item conversions of 0016 and its outbox rewrite. The ledger and the
  proposals take the converted documents and the snapshots as given.
- The 0023 rewrite of rows that predate the lease columns; runs start from an empty table.
- Savepoints: a statement that raises ends its transaction. Deadlocks and lock waiting: a step happens once its
  locks are free.
- Integer widths, floating-point rounding, float8 range errors (a latency that underflows when divided by 1000, a latency
  sum that overflows), varchar widths except the name column in `Telemetry`, and Python's recursion limit. The lengths
  that CHECKs test are modelled.
- Error messages, row paths in errors, archive rows, audit rows and the migration extensions beyond their
  classification.
- Columns that no property needs, among them payloads of outbox events, subject_revision and
  replay_expires_at in the feed, and updated_at where nothing reads it.
- Alignment triggers of 0022, the identity email outbox, OAuth tables: only constraints are there, or worker code
  that is not part of this model.
- Outbox.OutboxEvents.ClaimEvents: returns the ids of the claimed rows; their other columns are read from the table.
- Telemetry.BackfillConserves: computes on exact reals, so it does not see a float8 range error stop the migration.
- StatusMigration.AgentTables.Upgrade: of the inserted tool invocations it keeps only whether their primary and unique keys are
  met. The CHECKs on a run's capability and on its JSON columns' types are not modelled, since no status rewrite touches them.
- UploadQuota.CommittedWithinMaximum: asks callers to pass a maximum, as the code needs that; `QuotaLimits.WithinLimitIff` says
  that no other condition on a call will do.
