# A verified model of the audit service

The audit service keeps tamper-evident logs. Several writers append to hash chains, one chain
for each tenant and one global chain. A puller copies each tenant's core accountability chain
into that log. Two retention jobs move the old end of a chain into an archive, and a rules
engine counts events over sliding windows and raises incidents. This project models those
parts in Dafny and proves what they promise, over all inputs and, for the protocols, over all
interleavings.

`dafny verify dfyconfig.toml` checks everything.

## How the model is laid out

| modules | what they model |
|---|---|
| `CanonicalJson`, `Hashing`, `Chain` | canonical bytes and a reader of them, row hashes, the one chain walk, `verify_chain` |
| `Writer`, `Catalog`, `Retention`, `ArchiveCli` | appending, the part index and anchor, retiring partitions, verifying and exporting an archive |
| `AuditProtocol`, `AuditSafety`, `AuditRuns` | any number of writers and retention runs on one chain, statement by statement |
| `Accountability`, `Cursors`, `Puller`, `Drains`, `DrainedLog` | the core's records, batch verification, the cursor, a drain, and what drains leave in the log |
| `AccRetention`, `AccProtocol`, `AccSafety`, `AccCursors`, `AccContents`, `AccRuns` | accountability retention, and core appends, drains and retention interleaved |
| `DrainPass`, `Consumer`, `Poller` | transactions that drain many chains: the consumer's cycle and the poller's passes |
| `Rules`, `Windows`, `Engine`, `EngineReference`, `EngineMeaning`, `EngineBounds` | the rules engine against a reference that keeps all history and tests raw event fields, and what it ignores |
| `Rechain` | relinking a broken chain |
| `Locks` | lock order and deadlock |
| `Timestamps` | exactness of the double-precision timestamp path |

Code that works in place is a class or a method with loops (`ChainWalker`, `WriteBatch`,
`SelectDroppable`, `RunScope`, `AccountabilityPuller`, `AccWalker`, `RulesEngine`,
`SlidingWindows`, `CursorStore`, `ChainTable`, `AuditConsumer`, `AccountabilityPoller`). Each
is proved against a function of the old state, and the theorems are about those functions. The
two protocols are step systems whose steps are single statements of single transactions; uncommitted
rows are private, and any transaction may abort at any step.

## What is assumed

* The digest is a parameter. No theorem assumes that it is injective. Those that need it ask
  for the absence of collisions among the inputs that were actually hashed, and
  `Chain.DigestBinds` and `Accountability.CoreDigestBinds` derive that from the digest on bytes
  and the canonical encoding.
* Hashes have no key. That a page's records are the core's is therefore nowhere inferred from
  the checks on the page alone; it is asked, where it is needed, that the last hash of the page
  is the hash the core has at that number, and shown that this one comparison is exactly enough
  (`Drains.AcceptedPageIsNext`) and that without it a record can be deleted uncopied
  (`AccRuns.ForgedPageLosesRecord`).
* Distinct tenants have distinct tables, and no tenant is named `__global__` or like the
  cursor key of the global chain. A chain's lock key therefore names its table.
* Row hashes are present. A null `row_hash` of a legacy row, and a null hash in an anchor of
  such rows, are not modelled.
* The archive store gives back what was put there or fails; JSONB gives back an equal value.
* Strings are sequences of Unicode scalar values; escaping is that of section 7 of RFC 8259 with
  lower-case hexadecimal digits and only ASCII in the output.
* A sequence value is used up by every attempted insert, duplicates and aborted transactions
  included, so gaps occur.

## Where the code does less than its comments say

Each of these is proved with an input that shows it. Where the property has an exact condition,
the condition is proved both ways.

* A redelivered row takes *its own* stored hash as the head, not the tail's
  (`src/audit_service/writer.py:224-230`). A batch of an old duplicate followed by a new row
  breaks the chain: `Writer.OldDuplicateMislinks`. The exact condition is
  `Writer.LinkedIffCleanBatch`; on replayed pages of a drain it is
  `DrainedLog.ReplayedPageLinksIff`, with `DrainedLog.ResetThenReplayMislinks` as the case.
* Retention locks its first listing of aged partitions and then lists again
  (`src/audit_service/retention.py:227-236`). A partition that is only in the second listing is
  not locked, and a row committed there after the stream is dropped without being archived:
  `AuditRuns.UnlockedPartitionLosesRow`. `AuditRuns.DropHarmlessIff` says exactly when a drop
  loses nothing, locked or not.
* Nothing in a page ties it to the core but its hashes, and those anyone can compute
  (`src/audit_service/accountability.py:165-206`). `Drains.ForgedRecordAccepted` puts another
  body at any place of any core chain and passes every check.
* Two drains of one chain can commit in either order, so the cursor can go backwards, even
  below the archive: `AccRuns.SlowDrainStrandsCursor`. A drain fetches its page before it asks
  for the log's lock, which is where the overlap happens. A reset during a retention run does
  the same although no cursor is committed behind another: `AccRuns.ResetMidRunStrandsCursor`.
  `AccCursors.CursorHighIff` gives the exact condition on a run, and `AccCursors.NextDrainEndsBy`
  and `Drains.DrainEndsBy` what the next drain makes of any cursor: refused, as a gap at the first
  surviving record, exactly when the cursor is neither fresh nor at the archive's end or beyond.
* The walk of the live accountability table starts without the time of the last archived record
  (`src/audit_service/accountability_retention.py:316-379`). `AccRetention.CleanReportMeaning`
  says exactly which check is missing from a clean report.
* Accountability retention asks the age of the greatest aged row only, and the rows between the
  cursor and that row are not verified
  (`src/audit_service/accountability_retention.py:193-219`). Where time does not rise there, a
  row that is not aged can move: `AccRetention.FreshRowBelowAged`. `AccRetention.RunScope` says
  exactly when all moved rows are aged: when the last one is, which is always so in a table whose
  times rise.
* A transaction that makes several `write_batch` calls can take a partition lock after a chain
  lock. A drain of two pages, and the consumer's drain followed by its own rows, are such
  transactions: `Locks.TwoCallsDeadlock`. `Locks.SessionSafeIff` says exactly which are safe, and
  `Locks.OneChainSafeIff` that a drain of one chain is safe exactly when the days of its later
  pages are days of its earlier ones.
* Events out of time order leave old entries behind newer ones in a window, and events that no
  window ever held together are counted together: `EngineBounds.OutOfOrderCounts`.
  `Windows.EvictExactIff` is the exact condition on a window, `EngineReference.AgreesAlwaysIff` on
  the windows of a whole stream, and `EngineReference.VerdictsAgreeIff` on its verdicts.
* The text of a list of roles does not determine the list, unless it is empty or one role without
  a comma: `Accountability.RolesBoundIff`. Two roles can be altered into one without a change of
  hash.
* The consumer drains the core first so that its records precede the queue's
  (`src/audit_service/consumer.py:145-183`). While a chain is halted, or when more is unread than
  one drain may read, queue rows get ahead of unread core records: `Consumer.CoreFirstIff`.
* A copy is absorbed as a duplicate by any row of the same event id and time, whatever it says:
  `AccRuns.ForeignKeyAbsorbsCopy`. Event ids of copies are made for the purpose, so no other
  writer should use one; `AccContents.DeletedCopiesStand` asks that.
* A hint-driven poll that is refused on one chain rolls back the drains of the chains before it
  but still reports their records as drained (`Poller.AccountabilityPoller.PassHints`); a scheduled poll
  commits pages of a drain that then failed and does not report them
  (`Poller.ScheduledReportIff`).

## Model

| member | source | states |
|---|---|---|
| CanonicalJson.ArrayReadsBack | src/audit_service/hashing.py:38-40 | a reader of JSON arrays written from sections 5 to 7 of RFC 8259, escapes and surrogate pairs included, gets the very list back from its canonical bytes |
| CanonicalJson.EncodeArrayInjective | src/audit_service/hashing.py:38-40 | canonical JSON of a list of nulls, integers and strings can be decoded in one way: equal bytes, equal lists, for all Unicode scalar values and all integers |
| CanonicalJson.NoCanonicalSuffix | src/audit_service/hashing.py:60-64 | no canonical list ends in another one: bytes put in front of a canonical list never give a canonical list |
| Hashing.RowReadsBack | src/audit_service/hashing.py:47-57 | a reader that knows the column order gets the row back whole: each field from its own place, absent ones as absent, the instant from its microseconds |
| Hashing.CanonicalRowInjective | src/audit_service/hashing.py:47-57 | rows with equal canonical bytes agree in every field, absent fields included, and in the microsecond |
| Hashing.InputReadsBack | src/audit_service/hashing.py:60-64 | what is hashed is the previous hash's own bytes, or nothing, and right behind them a row that reads back |
| Hashing.HashInputUnambiguous | src/audit_service/hashing.py:60-64 | previous hash followed by canonical bytes, with nothing between them and the hash possibly missing, can be cut in one place only |
| Hashing.RowHashBinds | src/audit_service/hashing.py:47-64 | equal row hashes mean equal previous hash and equal content, if no two of the hashed inputs collide |
| Chain.WalkOkIffIntact | src/audit_service/chain.py:83-114 | the walker reports no break if and only if the rows are linked from the start hash, each hashes to its own hash, and sequence numbers rise from above the anchor |
| Chain.ChainWalker.Step | src/audit_service/chain.py:95-114 | one step: which of the faults is reported, that only the first break is kept, and that the walk goes on from the row as stored |
| Chain.WalkConcat | src/audit_service/chain.py:83-119 | walking in pieces, however cut, is one walk |
| Chain.BoundaryKeepsVerdict | src/audit_service/chain.py:83-119 | for any rows, broken or not, and any cut: walking the front and then the back from the front's last hash and seq finds the same first broken seq and checks as many rows as one walk |
| Chain.TamperEvidence | src/audit_service/chain.py:75-119 | two intact chains from the same start link to the same head hash hold the same contents in the same order |
| Chain.WalkerSeesTampering | src/audit_service/chain.py:75-119 | two whole chains that both pass the walker and have the same head hold the same contents: no edit, insertion, deletion or move leaves the head as it was |
| Chain.AnchoredTamperEvidence | src/audit_service/verify.py:44-73 | the same for tables that continue an intact archive, from the archive's last hash |
| Chain.RecurringStartHidesInsertion | src/audit_service/chain.py:83-119 | the hypothesis of `TamperEvidence` on the start link is needed: with a hash that has a fixed point a row can be inserted unseen |
| Chain.DigestBinds | src/audit_service/hashing.py:60-64 | a digest without collisions on the byte strings that were hashed binds links and contents of rows |
| Chain.VerifyChain | src/audit_service/verify.py:44-73 | ok exactly when the table continues the anchor intact; otherwise the first broken seq of the whole walk, after exactly the intact rows before it, although rows come in fetched batches |
| Writer.LinkedIffCleanBatch | src/audit_service/writer.py:169-232 | a batch leaves a linked chain linked if and only if every fresh row that follows a duplicate of its chain finds that duplicate to be the last row stored |
| Writer.OldDuplicateMislinks | src/audit_service/writer.py:224-230 | the condition is needed: [old duplicate, new row] breaks a linked chain of two rows |
| Writer.BatchStoresFresh | src/audit_service/writer.py:200-230 | old rows stay as they were, new contents follow in batch order; afterwards every event of the batch has a row with its event id and time, and no (event id, time) is there twice |
| Writer.OnceIffDistinct | src/audit_service/writer.py:218-223 | the unique key of the table is event id and time: distinct keys are exactly no two rows that agree in both |
| Writer.RedeliveryChangesNothing | src/audit_service/writer.py:218-230 | a batch of stored events, in any order, leaves every row as it was |
| Writer.BatchKeepsAscending | src/audit_service/writer.py:218-223 | new rows have sequence numbers above all old rows and above the anchor |
| Writer.WriteBatch | src/audit_service/writer.py:169-232 | the whole call, for rows of many chains mixed: each named chain ends as if its own rows had been inserted alone, and column by column every new row of it is one of the batch's rows for that chain; other chains are untouched, a missing table fails the call with nothing written, and the head cache ends at each chain's last handled row |
| Writer.EnsurePartitions | src/audit_service/writer.py:83-110 | before anything is inserted every chain has exactly the partitions it had and those of its batch rows' UTC days |
| Writer.SeedHeads | src/audit_service/writer.py:140-160 | every chain of the batch starts from its table's tail, or from the anchor when the table is empty, whatever the cache said |
| Catalog.AnchorIsLastArchived | src/audit_service/catalog.py:97-111 | in a catalog whose segments tile the archive, the entry with the largest last seq is the last archived row's seq and hash |
| Catalog.PartsInOrderAsWritten | src/audit_service/catalog.py:133-151 | reading the part index ordered by first seq gives the parts in the order they were written, for any time bounds |
| Catalog.TsBounds | src/audit_service/retention.py:296-317 | a part's min and max times bound all its rows and are attained |
| Retention.SelectDroppable | src/audit_service/retention.py:152-172 | ends, and returns the greatest safe set: dropped and held are a partition of the aged ones, no dropped partition has a row after a row that stays, and every other such set is contained in it |
| Retention.SafeIffPrefix | src/audit_service/retention.py:152-172 | a set of aged partitions is safe if and only if its rows are exactly a prefix of the table in seq order |
| Retention.LargestPrefix | src/audit_service/retention.py:227-250 | so no larger set of aged days holds a prefix of the chain |
| Retention.Plan | src/audit_service/retention.py:227-245 | listing, statistics and choice together: dropped and held days are the days before the cutoff, the dropped ones hold a prefix of the table and are the most that do |
| Retention.ArchiveSegment | src/audit_service/retention.py:273-357 | the stream becomes parts that put together are the rows in order, numbered from one, none larger than the fetch size and all but the last that large; the segment's counts, ends, hashes and time bounds are those of its rows, and it is marked broken exactly when the walk from the anchor breaks; it fails exactly when a write fails |
| Retention.SegmentHolds | src/audit_service/retention.py:286-355 | the parts put together are the archived rows, and index and objects agree |
| Retention.AllWholeIff | src/audit_service/retention.py:275-284 | every segment is recorded as whole if and only if the archive is one chain from its first row, linked from no previous hash and rising |
| Retention.RunScope | src/audit_service/retention.py:209-357 | all or nothing: a commit moves exactly the rows of the dropped days, a prefix of the table, behind the archive as one segment, recorded as whole exactly when those rows are linked from the archive's last hash and rise above its last seq; so all segments are recorded as whole if and only if the whole archive is one chain, and no intact chain raises an alarm. A fault or dry run changes nothing; archive followed by table is the same sequence before and after; a run without faults does not fail, and one that commits met none |
| ArchiveCli.VerifyArchive | src/audit_service/archive_cli.py:67-114 | the report exactly, whatever can be read: the finding is the first part or manifest that cannot be read or does not agree, or the first row that breaks the walk; parts and rows read are counted; then the table's walk from the anchor |
| ArchiveCli.VerdictIsOneWalk | src/audit_service/archive_cli.py:67-114 | archive report and table report together are the verdict, and name the broken seq, of one walk of the undivided chain; both clean and starting without a link if and only if archive and table are one intact chain from genesis |
| ArchiveCli.PruningIsExact | src/audit_service/catalog.py:133-151 | skipping parts by their stored min and max time loses no row of a range and changes no order |
| ArchiveCli.ExportRows | src/audit_service/archive_cli.py:117-127 | yields exactly the archived rows with from <= time < to, in seq order, and fails exactly when a part whose stored times overlap the range cannot be read |
| AuditSafety.OneChain | src/audit_service/writer.py:113-232 | over every interleaving of statements of any number of writers and retention runs, aborts anywhere: archive followed by table is one intact chain from genesis, all archived seqs are below all table seqs, every row ever committed is still at its place and in exactly one of the two, no event is in the table twice, and the table verifies from the anchor. Asked of the run: clean batches, and second listings that find only locked partitions |
| AuditSafety.StepKeepsGood | src/audit_service/retention.py:209-270 | every step of every transaction keeps the invariant that also describes private rows, statistics read so far, chosen days and streamed rows |
| AuditSafety.StepsAreAtomic | src/audit_service/writer.py:113-232 | a writer's commit has the effect of its batch calls made alone at that moment on what is committed, although its statements were interleaved with others'; a run's commit moves a prefix; no other step shows |
| AuditSafety.SelectCuts | src/audit_service/retention.py:236-242 | statistics read one by one while writers commit other rows still select partitions that hold a prefix of the table |
| AuditSafety.MethodSelects | src/audit_service/retention.py:152-172 | the choice the step system allows is the one `SelectDroppable` returns |
| AuditSafety.CallsStoreTheirKeys | src/audit_service/writer.py:218-232 | after a writer's commit every event of every batch it made is stored |
| AuditSafety.LogOnlyGrows | src/audit_service/retention.py:256-264 | at any two moments of a run the earlier log is a prefix of the later one, and so is the archive |
| AuditRuns.WriterAlone | src/audit_service/writer.py:169-232 | a writer that nothing disturbs gets through all its statements and appends its event at the tail, so the protocol is not safe by being stuck |
| AuditRuns.UnlockedPartitionLosesRow | src/audit_service/retention.py:227-264 | why second listings must find locked partitions only: a run with clean batches in which a committed row is neither in the archive nor in the table |
| AuditRuns.DropHarmlessIff | src/audit_service/retention.py:256-264 | a run's commit loses no row and moves none past another if and only if, at that moment, its days hold a prefix of the table and hold exactly what was streamed, whatever writers or other runs committed since and whether the partitions were locked or not |
| AuditRuns.LateRowsHarmlessIff | src/audit_service/retention.py:236-264 | if only writers committed since the rows were streamed: if and only if the days held a prefix then and no row was committed on one of them since |
| Accountability.RecordReadsBack | src/audit_service/accountability.py:64-87 | a reader that knows the column order gets every field of a record back, the roles as their joined text; an absent text is null and never an empty string |
| Accountability.CanonicalRecordInjective | src/audit_service/accountability.py:64-87 | equal canonical bytes mean equal seq, time and body, up to how roles were separated |
| Accountability.RolesRecoverable | src/audit_service/accountability.py:64-87 | among lists whose roles have no comma, equal joined texts mean equal lists |
| Accountability.RolesBoundIff | src/audit_service/accountability.py:64-87 | among all lists, a text determines the list if and only if the list is empty or is one role without a comma |
| Accountability.CommaConfusesRoles | src/audit_service/accountability.py:64-87 | the input behind `RolesBoundIff`: for any two texts, two roles and the one role that joins them with a comma have the same text |
| Accountability.RecordHashBinds | src/audit_service/accountability.py:90-95 | equal record hashes mean equal link, seq, time and body, if no hashed inputs collide |
| Accountability.CoreDigestBinds | src/audit_service/accountability.py:90-95 | a digest that is never empty and has no collision on what was hashed binds link, seq, time and body of every record in a set |
| Accountability.VerifyBatch | src/audit_service/accountability.py:165-206 | accepts a batch if and only if it continues the chain (no gap, time rising, links and hashes right) and reaches the asserted seq; otherwise names the first record that fails and why |
| Accountability.VerdictMeaning | src/audit_service/accountability.py:165-206 | the verdict as a function has that meaning, a stale read being judged only after all integrity checks |
| Accountability.FailsOnce | src/audit_service/accountability.py:165-206 | there is one first failing record, and a batch that has one does not continue the chain |
| Accountability.PageCutsDoNotMatter | src/audit_service/accountability.py:165-206 | cutting records into pages changes neither acceptance nor where the first failure is |
| Cursors.FirstHaltStands | src/audit_service/cursors.py:154-169 | whatever is staged, polled or halted later, the first halt with a seq stays until acknowledged or reset, and only staging moves the cursor |
| Cursors.AcknowledgedHaltMovesNothing | src/audit_service/cursors.py:154-184 | halts followed by an acknowledgement leave the cursor exactly where it was, and the chain not halted |
| Cursors.CursorStore.RaiseHalt | src/audit_service/cursors.py:154-169 | one statement about one chain: a first halt is recorded, a later one only fills in a missing seq, other chains stay |
| Cursors.CursorStore.Acknowledge | src/audit_service/cursors.py:171-184 | clears a halt, says whether there was one, moves no cursor |
| Puller.CopySays | src/audit_service/puller.py:60-108 | a copied record column by column: the record's id, time, actor up to 255 and action up to 32 characters, outcome ok, category and target type by the two tables, texts absent exactly when empty, roles joined, tenant on the global chain only, no target name and no request id |
| Puller.AccountabilityPuller.Drain | src/audit_service/puller.py:132-215 | a halted chain is left alone; otherwise the pages that passed are in the log, and every new row says column by column what one of their records says; the cursor moves only when the whole drain ended well and copied something, and a break raises a halt on the other connection, where rolling back does not undo it |
| Puller.AccountabilityPuller.TakePages | src/audit_service/puller.py:155-208 | the page loop takes exactly the pages, and ends exactly as, the page-by-page specification says, including the hint that is asserted only on a first page that is the last |
| Drains.AcceptedPageIsNext | src/audit_service/puller.py:165-195 | a page that passes the checks is the next stretch of the core's chain, nothing skipped, repeated, moved or altered but for how roles are separated, if and only if its last hash is the core's hash of that number, given no collision on the page and the core |
| Drains.ForgedRecordAccepted | src/audit_service/accountability.py:165-206 | at every place of every core chain, any other body with its own hash passes every check |
| Drains.PullCopiesNext | src/audit_service/puller.py:155-208 | whatever the source answers and however the drain ends, what it copied over all its pages is the next stretch, with its cursor at the end of it, if and only if the last hash it took is the core's |
| Drains.HonestDrain | src/audit_service/puller.py:155-215 | from any cursor position a drain on a well-formed core copies exactly the next min(remaining, page size x pages) records in order and ends at the last; caught up, it copies nothing |
| Drains.DrainEndsBy | src/audit_service/puller.py:217-231 | for every core chain, every archived prefix, every cursor position and every hint for a record that is there: how a resumed drain ends. It goes through when the cursor is fresh or not below the archive; below it, it is refused as a gap at the first surviving record, or, if none survives, only when a hint names a record it has not seen |
| DrainedLog.DrainExtendsLog | src/audit_service/puller.py:194-208 | such a drain of records that are not in the log yet appends exactly their copies, in order, behind everything there, and the log stays one chain |
| DrainedLog.CopiesDistinct | src/audit_service/puller.py:70-108 | copies of different core records never share the key (event id, time) |
| DrainedLog.PagesStored | src/audit_service/puller.py:194-195 | whatever the log has already: of the pages' copies exactly those with a new key follow, in order, each new row saying column by column what one of the records says, and afterwards every record of every page has its key stored |
| DrainedLog.ReplayedPageLinksIff | src/audit_service/puller.py:194-195 | a page of stored records followed by new ones keeps the log linked if and only if one of the two is empty or the last repeated record is the log's tail |
| DrainedLog.ResetThenReplayMislinks | src/audit_service/cursors.py:143-152 | the case is real: reset a cursor after a queue event was logged, and the replayed page breaks the log's chain |
| AccRetention.AccWalker.Walk | src/audit_service/accountability_retention.py:140-165 | row by row it finds the first break one check of the whole batch finds, and carries on from each row as stored |
| AccRetention.MaxAgedMeans | src/audit_service/accountability_retention.py:193-194 | the aged maximum is the seq of a row before the cutoff that no such row exceeds, and is missing exactly when no row is before the cutoff |
| AccRetention.RunScope | src/audit_service/accountability_retention.py:170-311 | all or nothing: a commit deletes exactly seqs anchor+1 to limit, each verified for contiguity, time, link and hash, archived in order. The limit is the lesser of what a cursor that is not halted has copied and the greatest seq of a row before the cutoff; all moved rows are before the cutoff if and only if the last one is, and always when the table's times rise. Nothing is done exactly when no row is aged, or none the run may take is beyond the archive; anything wrong changes nothing |
| AccRetention.FreshRowBelowAged | src/audit_service/accountability_retention.py:193-219 | why age is pinned for the last moved row and not for each: for any first record that is not aged and a second one with an old time, a cursor at the first makes the first the limit, and nothing refuses the run |
| AccRetention.ArchiveRows | src/audit_service/accountability_retention.py:219-290 | parts are written only of rows that passed every check from the anchor up to the limit, and all but the last are full; the segment's record is true of its rows |
| AccRetention.AnchorIsTheEnd | src/audit_service/catalog.py:97-111 | the anchor of verified, tiling segments is the end of the archived chain, in seq, hash and time |
| AccRetention.ResumedPullerAccepts | src/audit_service/puller.py:217-231 | after a run, a puller whose cursor was reset resumes from the anchor and accepts every surviving row of a whole chain |
| AccRetention.VerifyAccArchive | src/audit_service/accountability_retention.py:316-379 | the report exactly, whatever can be read: the first finding is the first entry whose manifest, object or header fails, or the first row that does not continue the rows before it, or an end that is not the anchor's; parts and rows read are counted; the table's first break is that of one walk from the anchor's hash and seq |
| AccRetention.ReportsAreOneWalk | src/audit_service/accountability_retention.py:316-379 | for readable archives, the two reports and one walk of the undivided chain name the same first broken seq, except that a first table row that is not later than the last archived one is named by the one walk only |
| AccRetention.CleanReportMeaning | src/audit_service/accountability_retention.py:316-379 | archive and table are one whole chain from record 1 if and only if the report is clean, it starts at genesis, and the first table row is later than the last archived one |
| AccRetention.TimeAtTheBoundary | src/audit_service/accountability.py:165-206 | checking without the previous record's time leaves out just that the first record is later |
| AccSafety.NothingDeletedUncopied | src/audit_service/accountability_retention.py:193-304 | over every interleaving of core appends, drains (clean, stale, refused at any page, committed with or without the cursor, aborted), halts, acknowledgements, resets, retention runs, others' rows in the log and the log's own archiving: archive followed by the source table is the whole source chain; every deleted record was copied, up to how roles are separated, and its key is in the log's table or archive; nothing but core records was copied; the cursor stands at the end of records that were all copied. Asked of the run: the last hash of an accepted page is the core's |
| AccContents.DeletedCopiesStand | src/audit_service/writer.py:218-230 | over the same runs, if no other writer puts another content under a core record's event id and time: the copy itself of every deleted record, and of every record up to the cursor, is in the log's table or archive, and nothing else is there under its key |
| AccRuns.ForeignKeyAbsorbsCopy | src/audit_service/writer.py:218-230 | without that condition: an event stored first under the record's key absorbs the copy as a duplicate, and a run in which every check passes deletes a record whose copy is nowhere |
| AccSafety.StepKeepsGood | src/audit_service/puller.py:132-231 | each of those steps keeps the invariant, which also covers open drains, fetched pages and runs, under the same condition on the one step |
| AccCursors.CursorHighIff | src/audit_service/cursors.py:116-127 | over every run: the cursor is at every moment absent, fresh, or not below the archive nor below what an open retention run is about to archive, if and only if every drain that commits a cursor commits it there |
| AccCursors.NextDrainEndsBy | src/audit_service/puller.py:155-231 | in every state a run can reach: the next drain goes through if and only if the cursor is absent, fresh or not below the archive, or nothing survives; otherwise it is refused as a gap at the first surviving record |
| AccRuns.SlowDrainStrandsCursor | src/audit_service/cursors.py:116-127 | the case of `CursorHighIff` that the code allows: a run with two drains and a retention run, each statement permitted by its locks, after which the cursor is below the archive and the next record is a gap until a reset |
| AccRuns.ResetMidRunStrandsCursor | src/audit_service/cursors.py:143-152 | never committing a cursor behind the current one is not enough: a reset between retention's read of the cursor and its commit |
| AccRuns.ForgedPageLosesRecord | src/audit_service/accountability_retention.py:193-304 | without the condition on the last hash: for any chain of one record and any other body, a run in which every check passes and the core's record is deleted, never copied |
| DrainPass.DrainedMore | src/audit_service/puller.py:264-283 | draining one more chain in the same transaction changes nothing of what the earlier drains left |
| Consumer.AuditConsumer.DrainCoreFirst | src/audit_service/consumer.py:145-183 | drains the global chain, then each named tenant once in sorted order, each ending in the log and at the cursor its own drain gives; no cursor moves outside the transaction; succeeds exactly when every one is halted or ends well |
| Consumer.AuditConsumer.Process | src/audit_service/consumer.py:185-221 | one cycle: poison is acknowledged and counted at once, valid messages only after the commit that holds their rows, the drained core records and the drained chains' cursors; a failure leaves log and cursors as they were; it commits exactly when drains, writes and commit succeed |
| Consumer.CorePrecedesQueue | src/audit_service/consumer.py:145-221 | what a committed cycle leaves of a chain, whatever the log had before: the new ones of the copies as far as one drain gets (nowhere while halted), then the new ones of the queue's rows, each in order, and the cursor at the last record copied, or where it was when halted or nothing was unread; so every unread core record is ahead of the queue rows if and only if those the drain did not get to were in the log already |
| Consumer.CoreFirstIff | src/audit_service/consumer.py:145-183 | with none of them in the log: if and only if nothing is unread, or the chain is not halted and no more is unread than page size x pages |
| Consumer.CycleStores | src/audit_service/consumer.py:185-221 | a committed cycle keeps every row on every chain and stores every message of its own |
| Consumer.AcknowledgedIsStored | src/audit_service/consumer.py:185-221 | over all runs with failures, crashes between commit and acknowledgement, redelivery, other writers and retention: every valid message that was acknowledged is in its chain's table or archive |
| Poller.AccountabilityPoller.PassAll | src/audit_service/puller.py:264-283 | a scheduled pass: failed drains are passed over without rollback, so their earlier pages are committed without their cursor; every other chain is as its own drain left it; a failed statement loses the whole pass but not its count |
| Poller.AccountabilityPoller.PassHints | src/audit_service/poller.py:159-194 | a hint-driven pass: exactly the chains after the last refused one are committed, with their cursors; an unreachable source or failed statement commits nothing; the reported count is what was committed if and only if no chain that was rolled back had copied anything |
| Poller.ScheduledReportIff | src/audit_service/puller.py:264-283 | scheduled pass: the reported count is what was committed if and only if no drain that failed had taken a page before; a pass lost to a failed statement reports nothing if and only if the drains before it copied nothing |
| Windows.EvictInOrder | src/audit_service/windows.py:30-45 | evicting from the front of a window in time order keeps exactly the times not before the cutoff |
| Windows.EvictExactIff | src/audit_service/windows.py:30-32 | for every window and cutoff, evicting from the front keeps exactly what is not too old if and only if nothing too old stands behind something that is not |
| Windows.SlidingWindows.AddAndCount | src/audit_service/windows.py:34-38 | one key's window gets the time and loses what is too old at its front; every other key's window stays |
| Windows.DistinctWindows.AddAndCount | src/audit_service/windows.py:74-78 | the count is of distinct values whose latest time is in the window, in whatever order they came |
| Engine.RulesEngine.Feed | src/audit_service/engine.py:129-140 | the windows, evicted and reset in place, always equal what the whole history of events says for every key of every rule, and the incidents are the ones it implies, one for each rule that fires, in rule order, with that rule's id, the value of the event field the rule groups by, the event's time, and its tenant unless the rule is global |
| EngineReference.EngineIsReference | src/audit_service/engine.py:129-200 | where disorder does no harm, the engine fires exactly when, and with the count and values that, a reference over the full history does, which compares the events' own fields with the rule's: hits since the last fire inside [t - window, t] reach the threshold (for a sequence: primaries before the seal) and t is outside the cooldown |
| EngineReference.MatchingAgrees | src/audit_service/rules.py:113-134 | the engine's tests are comparisons of raw fields: category equal, action and outcome equal where the rule names them, the seal's action, the group and the counted value read from the field the rule names, absent when empty |
| EngineReference.AgreesAlwaysIff | src/audit_service/windows.py:26-101 | harm, exactly: for any stream, at every event the engine's window holds the hits of that event's window and counts what the reference counts if and only if at every event nothing too old stands behind something newer, no hit that had aged out is young enough again, and none counted is later than a deciding event |
| EngineReference.VerdictsAgreeIff | src/audit_service/engine.py:156-200 | for any stream in any order, harmful or not: the engine's verdict is the reference's at every event if and only if at every deciding event the rule is cooling down, or both tallies are below the threshold, or they are the same |
| EngineReference.InOrderIsHarmless | src/audit_service/engine.py:129-200 | events in time order per window key meet that condition |
| EngineMeaning.NoiseChangesNothing | src/audit_service/engine.py:142-179 | for every rule and stream in any order: taking out the events of another category, action, outcome, group or tenant changes no verdict on the rest, and they themselves raise nothing |
| EngineMeaning.FiresAtThreshold | src/audit_service/engine.py:156-179 | events in time order, all hits inside the window, threshold not reached before: a rule of any kind raises nothing earlier and fires at a deciding event exactly when the hits (distinct values, for a fan-out) reach the threshold, and reports their number |
| EngineBounds.IncidentsAreSpaced | src/audit_service/engine.py:191-200 | in any event order two incidents of one key are at least the cooldown apart in event time |
| EngineBounds.IncidentsArePaidFor | src/audit_service/engine.py:156-200 | in any event order incidents x threshold never exceeds the matching events of the key |
| EngineBounds.TenantsDoNotInterfere | src/audit_service/engine.py:142-154 | a tenant-scoped rule's verdicts in any interleaving of tenants equal those on that tenant's events alone |
| EngineBounds.GlobalRuleSeesAll | src/audit_service/engine.py:142-154 | a global rule does count events of different tenants together |
| EngineBounds.OutOfOrderCounts | src/audit_service/windows.py:30-38 | the input behind `AgreesAlwaysIff`: any event followed by one older by more than the window fires a threshold of two, which the reference does not, and is not harmless disorder |
| Rechain.ChainTable.Rechain | src/audit_service/rechain.py:81-162 | refused, changing nothing, exactly when the table does not verify and some row does not match its own stored hash, and the first such row is named; otherwise the table becomes the relinked table, as many updates are made as rows differ, and the verdict after is exact |
| Rechain.RelinkedVerifiesIff | src/audit_service/rechain.py:108-162 | the relinked table verifies from the anchor if and only if its sequence numbers rise from above the anchor |
| Rechain.RelinkedRows | src/audit_service/rechain.py:140-159 | nothing but links and hashes changes, row by row |
| Rechain.RelinkedIdempotent | src/audit_service/rechain.py:81-162 | relinking twice is relinking once |
| Rechain.BeforeBreakUntouched | src/audit_service/rechain.py:140-143 | rows before the first break are left exactly as they were |
| Rechain.ChainTable.Apply | src/audit_service/rechain.py:148-159 | updates keyed by (seq, ts), applied one by one, together give the relinked table |
| Rechain.Repair | src/audit_service/rechain.py:201-229 | the table changes only when every row was consistent and seqs rise; the repair commits before its marker, a failing marker leaves the repair, and a marker that is written continues the repaired chain |
| Rechain.MarkerContinues | src/audit_service/rechain.py:169-198 | the marker, written by the ordinary writer, is the one row added and keeps the chain linked |
| Locks.NamesFollowDates | src/audit_service/retention.py:231-234 | sorting partitions of one parent by name is sorting them by day, for years of four digits |
| Locks.BatchPlanIncreasing | src/audit_service/writer.py:177-197 | one batch call takes its rows' partition and chain locks and no others, in the one global order: partitions sorted, then chains sorted, each once |
| Locks.RetentionPlanIncreasing | src/audit_service/retention.py:231-234 | a retention run takes its locks in the same order |
| Locks.NoDeadlock | src/audit_service/writer.py:185-197 | among transactions that follow the order the wait-for graph has no cycle, in any state |
| Locks.SomeoneCanGo | src/audit_service/writer.py:185-197 | and in every such state some transaction is not blocked: the one that waits for the last lock waits for nobody |
| Locks.MarkerInSameTransactionDeadlocks | src/audit_service/rechain.py:201-218 | writing the repair marker in the relink's own transaction could deadlock with a writer, as the code's comment says |
| Locks.SafeIffIncreasing | src/audit_service/writer.py:185-197 | a plan without repeats cannot deadlock with any number of transactions that follow the order, at any point of any of them, if and only if it follows the order itself |
| Locks.SessionSafeIff | src/audit_service/puller.py:194-208 | several batch calls in one transaction are safe in that sense if and only if each call needs only partitions the earlier ones locked, unless they locked none, and its new chains come after all earlier chains |
| Locks.OneChainSafeIff | src/audit_service/puller.py:194-208 | so a drain of one chain is safe if and only if each page's days are days of its earlier pages |
| Locks.TwoCallsDeadlock | src/audit_service/puller.py:194-208 | the input behind it: two calls on one chain for two days do not fit, and the transaction and a writer of the second day wait for each other |
| Timestamps.NearestIsClose | src/audit_service/hashing.py:43-44 | a correctly rounded double (section 4.3.1 of IEEE 754-2019) is off by at most half a unit in the last place, proved from the definition of nearest |
| Timestamps.TimestampIsExact | src/audit_service/hashing.py:43-44 | for every N with 0 <= N < 2^51, N microseconds as seconds in a double, times a million in a double, rounds back to N |
| Timestamps.FromTimestampIsExact | src/audit_service/accountability.py:209-214 | the other way: the double's whole seconds and rounded fraction give back N exactly |

## Left out

- Retention.RunScope: the cutoff is a day number; the calendar arithmetic of `cutoff_for`, the run id, object keys and the counts in the result are not modelled.
- AccRetention.RunScope: takes a positive part size; zero, which the database driver reads as its own default, and negative sizes are not modelled. `export_acc_rows` is the same pruning and filtering as `export_rows` and is not repeated.
- EngineReference.EngineIsReference: asks that disorder does no harm, which the engine does not enforce; the alert bounds hold in any order. Event times are reals.
- Engine.RulesEngine.Feed: the rule list is fixed and its ids are distinct; a provider that changes rules per tenant, and dispatch of incidents to store, notifier and enforcer, are not modelled.
- Locks.NoDeadlock: is about lock plans, which are computed from the rows of a call; that each statement takes the locks of its plan is the order in which `AuditProtocol` enables its steps, not a proof about SQL.
- Rechain.ChainTable.Rechain: is not interleaved with retention, because it takes the chain lock and no partition lock.
- Rechain.Repair: asks that the marker's event id is new, which `uuid4` provides.
- Consumer.AuditConsumer.Process: asks that no tenant is named like a reserved key; the queue's own delivery and the counters other than written and dropped are not modelled.
- Timestamps.TimestampIsExact: exponents are unbounded; all values are far from overflow and from subnormal numbers.
- Puller.AccountabilityPuller.Drain: does not model `_forget_tenant`, which deletes the rows of a removed tenant from the middle of the global chain, so linkage is not claimed for that chain after such a record.
- AccSafety.NothingDeletedUncopied: asks that the last hash of every accepted page is the core's hash of that number, which the checks on the page do not establish (`AccRuns.ForgedPageLosesRecord`); a transport that authenticates the core would. It speaks of keys and copies in the log and makes no claim about the log's links, which `AuditSafety.OneChain` does.
- The name-based event id and the JSON detail of a copied record are parameters (`Minting`); that they are functions of the record is all that is used.
- Postgres itself: SQL text, planner, timeouts, advisory-lock hash collisions. Unique keys, locks and transactions are modelled by what they guarantee.
- SHA-256, Fernet, key derivation and key files.
- S3, local files, Redis and gRPC clients: sources answer with pages or fail, stores with what was put or fail.
- `queue.py`, a small finite graph of states whose claims are easy.
- HTTP, configuration, mail, monitoring, access gating and field normalisation (`api.py`, `auth.py`, `config.py`, `notifier.py`, `metrics.py`, `drain_health.py`, `security.py`, `queries.py`, `publisher.py`, `envelope.py`).
- Detecting that a table's tail was cut off: a walk of the table alone cannot, and no claim is made.
