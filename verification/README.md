# Verified-copy engines: a Dafny model

The repository copies an environment's data and claims, for two kinds of data, that success
means the target equals the source.

* `internal/mysqlcopy` dumps a MySQL database, lets every byte of the dump pass through a
  validating reader on its way into the target, dumps the target back, and compares two proofs
  taken by an incremental recogniser of the dump format. An executor surrounds this with
  authority gates, a backup lock held by one pinned session, and deferred teardown.
* `internal/pvccopy` copies a volume through a canonical tree archive, with a receipt that hashes
  every header and every payload byte. The target carries marker files that make claiming,
  receiving and completing exclusive and durable. An executor runs this through helper pods.

This project models both engines and proves what they claim, over every input, every way of
cutting a stream into reads and writes, every interleaving and crash of the on-disk protocol, and
every behaviour of the systems the executors talk to. Code that changes things step by step is
modelled by classes and methods with loops; each is proved against a function or predicate, and
the theorems are about those.

## Main results

| theme | members |
|---|---|
| equal proofs of two dumps are the same as equal tables, schemas and ordered rows | `SqlProof.ProofEquality`, `SqlLexer.ConcatDecodes` |
| the verdict on a stream does not depend on how it is cut | `SqlProof.ChunkIndependence`, `ArchiveTail.ReadEach` |
| only accepted statements are forwarded; the reader succeeds exactly when the tracker would | `SqlReader.ReadAll`, `SqlReader.GuardsUnreachable` |
| accepted archives and supported trees are in bijection, and receipts identify trees | `Archive.Bijection`, `Receipts.ReceiptIdentifiesTree` |
| a successful copy equals its source, locally and through helper pods | `PvcLocal.CopyLocal`, `PvcExecutor.Execute` |
| the marker protocol under interleaving, failing calls, killed processes and power loss | `PvcProtocol.DoInv`, `PvcProtocol.AtMostOneWriter`, `PvcProtocol.CopiedForever`, `PvcProtocol.CopySucceeds` |
| exactly which statements and which archives are accepted, in words, bytes and numbers | `SqlRules.CreateAccepted`, `SqlRules.InsertAccepted`, `ArchiveRules.AcceptedIff` |
| a run of either executor takes its steps in one order, fails only for a reason, and to succeed takes them all | `MysqlExecutor.ExecuteDomain`, `PvcExecutor.Execute` |
| every effect of a MySQL run is gated, and a commit means equal content | `MysqlExecutor.ExecuteDomain`, `MysqlExecutor.CommitMeansEqualContent` |
| every receipt of a PVC run agrees, and every helper is deleted once | `PvcExecutor.Execute`, `PvcExecutor.AgreementIdentifiesTarget` |
| exactly which cut archives pass the end test | `TarStream.EndDecides`, `ArchiveIO.CutArchive` |

## Where the code promises less than one would think

* **One INSERT, one row.** `singleValuesTuple` starts a fresh lexer after the first ` VALUES ` of
  the statement, wherever that is. If that place is inside a quoted name, a statement with
  several rows (or none) can pass and count as one row. `SqlRows.OneRowIff` proves that the test
  is right for every continuation exactly when the place is outside quotes;
  `SqlRows.TwoRowsPass` is a concrete statement. Equality of proofs is not affected, since it
  compares whole statements.
* **A completed target.** `CopyLocal` on a target that is already complete verifies the target
  and never reads the source. Success then means equality with the source exactly when the source
  still has the receipt in the marker (`PvcLocal.ResumedCopyEqualsSource`,
  `PvcLocal.CopyChangeCopy`).
* **A cut archive.** The tar reader takes an end of file for the end of the archive, so `consume`
  asks for 1024 zero bytes at the end of the wire. An archive cut at an entry boundary passes
  exactly when the last payload that came through ends, with its padding, in as many zero bytes as
  are missing (`TarStream.EndDecides`, `ArchiveIO.CutArchive`); `ArchiveIO.ZeroFilePasses` is such
  an archive, a file of 1024 zero bytes with nothing after it. What protects the callers is not
  this test: in `CopyLocal` the pipe hands the export's error to the reader, and in `Execute` the
  run fails if the export command reports an error. The second export catches a cut only if it
  comes through differently.
* **Meta headers at the end.** PAX and GNU meta headers after the last entry are read by the tar
  reader and not returned. In a closed archive nothing but the limit on the wire notices them
  (`TarStream.HiddenAccepted`); the tree and the receipt are not affected.
* **A completion may be lost.** `Complete` syncs its own marker, the payload and every directory,
  and reads `received.json` without syncing its content. If the `Receive` that wrote that file was
  killed before syncing it, a completed target can lose that content at a power failure.
  `PvcProtocol.CompletionIsDurable` shows that this is the only gap, `PvcProtocol.UnsyncedCompletion`
  gives a run, and `PvcProtocol.CopiedForever` shows that the order the callers follow excludes it.
* **Report limits.** The cap of twenty stages in `FailureStages` can never be reached, as there
  are nineteen constants (`Failures.CapNeverReached`), and cutting groups to 64 children does
  not change a report within the 64 visits.
* **An error group without members** redacts to no error (`Failures.SafeFailureNil`); the
  executor's success is stated with `Real`, which excludes it.

## Conventions

A Go string or byte slice is a Dafny `string` with one character per byte. A digest is
represented by the bytes fed to it, so nothing is assumed about SHA-256. A call on a remote system
is a method with an arbitrary result that appends an event to a ghost trace; for the PVC executor
an honest transport is also considered, whose helper commands are the modelled ones on two volumes.
System calls on a volume may fail when the volume is marked faulty; on a volume that is not,
outcomes are exact.

| file | models |
|---|---|
| `Options`, `Text`, `Decimals` | missing values, trimming, searching, byte order and sorting, decimal printing |
| `SqlLexer`, `Schema`, `SqlTracker`, `SqlRules`, `SqlProof`, `SqlCounts`, `SqlRows`, `SqlReader` | `stream.go`, `schema.go`, `reader.go` |
| `Failures`, `BackupHold`, `MysqlExecutor` | `failure.go`, the backup hold of `kube.go`, `executor.go` of `mysqlcopy` |
| `Archive`, `ArchiveRules`, `Receipts`, `ArchiveTail`, `TarStream`, `ArchiveIO`, `ArchiveExport` | `archive.go` |
| `Volumes`, `PvcLocal`, `PvcProtocol` | `local.go`, call by call and system call by system call |
| `Quantity`, `PvcExecutor` | `domain.go` (sizes and ownership), `executor.go` and the helper commands of `cli.go` of `pvccopy` |

## Model

| member | source | states |
|---|---|---|
| `SqlLexer.ConcatDecodes` | internal/mysqlcopy/stream.go:106-118 | whole statements hashed one after the other without a separator decode to exactly one list of statements |
| `SqlLexer.TrimDelimited` | internal/mysqlcopy/stream.go:81 | trimming a whole statement leaves a whole statement, whose only unquoted semicolon is its last byte |
| `SqlLexer.SplitConcat` | internal/mysqlcopy/stream.go:43-75 | cutting a stream at unquoted semicolons loses and moves no byte |
| `SqlLexer.SplitDelimited` | internal/mysqlcopy/stream.go:43-75 | every piece is one whole statement and the remainder holds no boundary |
| `Schema.ScanDigits` | internal/mysqlcopy/schema.go:43-47 | the inner loop finds the end of the run of digits |
| `Schema.NormalizeSchema` | internal/mysqlcopy/schema.go:9-54 | the single pass erases the first counter option outside quotes and parentheses, as declaratively defined, or nothing |
| `Schema.ErasesOnlyCounter` | internal/mysqlcopy/schema.go:9-54 | the result is the input, or the input minus one ` AUTO_INCREMENT=digits` segment outside quotes at depth zero |
| `Schema.InsertedIsErased` | internal/mysqlcopy/schema.go:40-51 | the converse: the first counter put into a schema outside quotes and parentheses, closed by a space, a semicolon or the end, is erased |
| `Schema.ErasureKeepsLexing` | internal/mysqlcopy/schema.go:9-54 | every byte that remains keeps its quote state and its depth |
| `Schema.CounterValueIrrelevant` | internal/mysqlcopy/schema.go:9-54 | schemas that differ only in the digits of that segment normalise equal |
| `SqlTracker.SingleValuesTuple` | internal/mysqlcopy/stream.go:122-159 | accepts exactly the texts with one parenthesised group, closed by the first parenthesis that brings the depth to zero, and then only the semicolon |
| `SqlTracker.Tracker.CreateTable` | internal/mysqlcopy/stream.go:90-105 | accepts a CREATE exactly within the table limit, for a new name, without forbidden clauses, with an allowed engine, and then records the normalised schema |
| `SqlTracker.Tracker.InsertRow` | internal/mysqlcopy/stream.go:106-119 | accepts an INSERT exactly for a created table, within the row limit, with a single tuple, and then adds the row to that table and the total |
| `SqlTracker.Tracker.Statement` | internal/mysqlcopy/stream.go:80-121 | one statement is accepted or refused by the rule for its kind; a refusal changes nothing |
| `SqlTracker.Tracker.Write` | internal/mysqlcopy/stream.go:38-79 | one call moves the tracker as the byte-by-byte rule says; every refusal leaves it failed |
| `SqlTracker.Tracker.Names` | internal/mysqlcopy/stream.go:164-168 | collects each table name once |
| `SqlTracker.Tracker.Finish` | internal/mysqlcopy/stream.go:160-175 | a proof exactly for an unfailed tracker between statements with nothing but white space pending, with its tables in rising byte order of their names |
| `SqlRules.NameAfterIff` | internal/mysqlcopy/stream.go:34-35 | a table name is taken from a statement if and only if the statement is the keyword, that name in back quotes, a space and more; names are a letter and up to 63 letters, digits and underscores |
| `SqlRules.SessionSetIff` | internal/mysqlcopy/stream.go:36 | a setting is recognised if and only if it is a versioned comment of five digits around one of three assignments |
| `SqlRules.CreateAccepted` | internal/mysqlcopy/stream.go:90-105 | a CREATE is accepted if and only if its name is new, there is room for a table, none of six phrases occurs in it, and it names an engine its mode can lock; it adds that table and changes nothing else |
| `SqlRules.InsertAccepted` | internal/mysqlcopy/stream.go:106-119 | an INSERT is accepted if and only if its table was created, there is room for a row, and one tuple follows the first ` VALUES (`; it adds that row to the end of its table |
| `SqlRules.OthersAccepted` | internal/mysqlcopy/stream.go:80-121 | every other statement is accepted only as a session setting, and changes nothing |
| `SqlRules.EveryCreate` | internal/mysqlcopy/stream.go:90-105 | in every accepted run no CREATE has a forbidden phrase, and each names an engine its mode can lock |
| `SqlProof.WrittenAppend` | internal/mysqlcopy/stream.go:38-79 | two writes are one write of the concatenation, in verdict and in state |
| `SqlProof.ChunkIndependence` | internal/mysqlcopy/stream.go:38-79 | for every cut of a stream, also inside quotes and escapes, verdict and final state are those of one single write |
| `SqlProof.Stream` | internal/mysqlcopy/executor.go:233-236 | a command's output written in chunks gives the verdict and state of the whole; after a refusal there is no proof |
| `SqlProof.FeedIsRun` | internal/mysqlcopy/stream.go:43-79 | an accepted run of bytes is an accepted run of whole statements and a remainder |
| `SqlProof.RunRecords` | internal/mysqlcopy/stream.go:90-119 | after any accepted run each table holds its one normalised schema, its row count, and the concatenation of its INSERTs in order |
| `SqlProof.ProofEquality` | internal/mysqlcopy/executor.go:280-284 | two accepted dumps have the same proof if and only if they have the same tables, normalised schemas and ordered INSERTs per table |
| `SqlCounts.RunLimits` | internal/mysqlcopy/stream.go:90-119 | in every accepted run, tables and rows are within the plan and total rows equal the number of INSERTs |
| `SqlCounts.InsertFollowsCreate` | internal/mysqlcopy/stream.go:91-110 | each INSERT comes after a CREATE of its table, the only one |
| `SqlCounts.ProofCounts` | internal/mysqlcopy/stream.go:160-175 | the rows of a proof's tables add up to the number of INSERTs, all limits hold, and the tables are listed once each in strict name order |
| `SqlCounts.TableSetsEqual` | internal/mysqlcopy/executor.go:221-228 | for distinct source names, equal counts and one-way containment hold if and only if the table sets are equal |
| `SqlRows.TupleLexerAgrees` | internal/mysqlcopy/stream.go:111-113 | the tuple test's lexer agrees with the statement's on every later byte if and only if it starts outside quotes |
| `SqlRows.AcceptedInsertIsOneRow` | internal/mysqlcopy/stream.go:111-113 | started outside quotes, an accepted INSERT has exactly one row in the statement's own reading |
| `SqlRows.QuotedSite` | internal/mysqlcopy/stream.go:111-113 | started inside quotes, some whole statement passes without having exactly one row |
| `SqlRows.OneRowIff` | internal/mysqlcopy/stream.go:111-113 | every whole statement that passes has exactly one row if and only if the test starts outside quotes |
| `SqlRows.BlindPasses` | internal/mysqlcopy/stream.go:122-159 | a family of texts, with any bytes in the middle, that the tuple test accepts |
| `SqlRows.TwoRowsPass` | internal/mysqlcopy/stream.go:111-113 | a concrete whole statement of two rows that the tracker accepts as one row, for every catalogue with its table and room for a row |
| `SqlReader.GuardsUnreachable` | internal/mysqlcopy/reader.go:35-88 | given what the reader hands over, a synchronised tracker can refuse only for content, never for size, and is synchronised again afterwards |
| `SqlReader.RestAccepted` | internal/mysqlcopy/reader.go:44-52 | the unfinished rest at the end of the stream is always taken |
| `SqlReader.TooLongRefused` | internal/mysqlcopy/stream.go:44-47 | one byte beyond the statement limit is refused by the tracker as well |
| `SqlReader.ValidatedReader.Exhausted` | internal/mysqlcopy/reader.go:22-24 | true only when everything was delivered and the tracker's proof is that of the whole input |
| `SqlReader.ValidatedReader.Take` | internal/mysqlcopy/reader.go:29-31 | hands out the next accepted bytes, at most as many as asked |
| `SqlReader.ValidatedReader.Submit` | internal/mysqlcopy/reader.go:82-88 | after a successful submission the tracker is that of the input so far; after a refusal no proof of the input exists |
| `SqlReader.ValidatedReader.AtSemicolon` | internal/mysqlcopy/reader.go:82-88 | a statement is handed out only after the tracker took it |
| `SqlReader.ValidatedReader.AtEnd` | internal/mysqlcopy/reader.go:40-58 | the end of the input is reported only after the tracker finished |
| `SqlReader.ValidatedReader.Fill` | internal/mysqlcopy/reader.go:35-88 | the loop keeps reader and tracker synchronised and delivers only accepted bytes |
| `SqlReader.ValidatedReader.Read` | internal/mysqlcopy/reader.go:25-90 | one read keeps the invariant up to the first error; a refusal means that the tracker alone would refuse this input |
| `SqlReader.ReadAll` | internal/mysqlcopy/reader.go:25-90 | in every run of reads the output is a prefix of the input within accepted whole statements; the run ends cleanly if and only if the input does and the tracker alone accepts it, and then the output is the input the tracker hashed |
| `Failures.SafeFailureRedacts` | internal/mysqlcopy/failure.go:45-97 | the result holds only stages, codes and the package's own sentinels, whatever came in |
| `Failures.SafeFailureIdempotent` | internal/mysqlcopy/failure.go:45-80 | redacting again under any stage changes nothing: the first stage sticks |
| `Failures.SafeFailureNil` | internal/mysqlcopy/failure.go:45-80 | the result is no error if and only if the input is none, or only empty groups |
| `Failures.SingleRedaction` | internal/mysqlcopy/failure.go:58-80 | a single error without a failure in it is reported under the given stage, with code and cause of the first kind that occurs in it: cancelled, deadline, partial target, refusal, anything else |
| `Failures.FailureKept` | internal/mysqlcopy/failure.go:55-57 | an error with a failure in it keeps stage and code of the first one in preorder, and the kind of its cause |
| `Failures.GroupRedaction` | internal/mysqlcopy/failure.go:49-54 | a group keeps the order of its members and loses exactly those that redact to nothing |
| `Failures.KindReduces` | internal/mysqlcopy/failure.go:81-97 | the cause is the first of the four kinds that occurs anywhere in the error |
| `Failures.FailureStages` | internal/mysqlcopy/failure.go:139-169 | the bounded worklist returns the distinct defined stages of the first 64 nodes in preorder, in order of first appearance |
| `Failures.CapNeverReached` | internal/mysqlcopy/failure.go:139-169 | distinct defined stages are fewer than twenty |
| `Failures.FailureInfo` | internal/mysqlcopy/failure.go:98-138 | the worklist reports the first failure among the first 64 nodes in preorder |
| `Failures.InfoVocabulary` | internal/mysqlcopy/failure.go:98-138 | every error is reported under a defined stage and one of five codes, and none but no error as nothing |
| `Failures.StageOf` | internal/mysqlcopy/failure.go:170-179 | the first reported stage, or the unknown one |
| `Failures.HeadReported` | internal/mysqlcopy/failure.go:98-179 | a failure reached through first children within 63 groups is the one reported, in stage and code |
| `Failures.PrimaryComesFirst` | internal/mysqlcopy/executor.go:73-92 | whatever release and cleanup add, stage and code of the primary failure are reported first |
| `Failures.TeardownReported` | internal/mysqlcopy/executor.go:81-92 | without a primary failure, stage and code of the release's failure are reported, and those of the cleanup's if the release did not fail; a plain error is reported under its step with the code of its kind |
| `Failures.JoinedReal` | internal/mysqlcopy/executor.go:130-136 | joining loses no failure and invents none |
| `Failures.FinalErrorNil` | internal/mysqlcopy/executor.go:73-92 | the final error is none if and only if neither the call nor its teardown failed |
| `BackupHold.ChallengesDiffer` | internal/mysqlcopy/kube.go:408-409 | challenges with different numbers differ, and none is the unlock text |
| `BackupHold.FieldsIff` | internal/mysqlcopy/kube.go:418 | splitting a line at tabs is the one way to write it as fields without tabs |
| `BackupHold.Hold.Check` | internal/mysqlcopy/kube.go:396-431 | succeeds if and only if the line read answers this very challenge from the pinned server and connection; the lock is then still held and nothing left unread; after an unread answer it never succeeds again |
| `BackupHold.Hold.Release` | internal/mysqlcopy/kube.go:432-479 | closes the hold; succeeds if and only if the pinned connection acknowledged the unlock and the client ended well; the lock is then given up |
| `BackupHold.Drive` | internal/mysqlcopy/kube.go:396-479 | over any sequence of calls each success relied on a line of its own, all lines relied on name one server and one connection that is not zero, and nothing succeeds after the first release |
| `BackupHold.HoldDDL` | internal/mysqlcopy/kube.go:352-385 | a hold is returned if and only if the server's identity was read, the lock statement written, and the new session answered the first challenge for that server; then server and connection are pinned |
| `MysqlExecutor.ValidateSource` | internal/mysqlcopy/executor.go:261-276 | accepts exactly the sources with identity, version 8, and distinct keyed tables of allowed engines within the limit |
| `MysqlExecutor.Transport.TakeHold` | internal/mysqlcopy/executor.go:123-129 | under a backup lock, a hold is taken if and only if there is a session whose server and connection are pinned |
| `MysqlExecutor.Transport.CheckHold` | internal/mysqlcopy/executor.go:137-143 | a passing check under a backup lock relied on a new answer from the pinned connection |
| `MysqlExecutor.Transport.Release` | internal/mysqlcopy/executor.go:130-136 | the same for a successful release |
| `MysqlExecutor.CheckAuthority` | internal/mysqlcopy/executor.go:137-143 | passes if and only if authority was given and the hold is alive |
| `MysqlExecutor.CheckUnchanged` | internal/mysqlcopy/executor.go:144-157 | passes if and only if credentials are unchanged and the source is valid and unchanged |
| `MysqlExecutor.ReadBaseline` | internal/mysqlcopy/executor.go:93-122 | passes if and only if authority, acceptable credentials and a valid source were read, in this order |
| `MysqlExecutor.CheckDistinct` | internal/mysqlcopy/executor.go:102-116 | accepts exactly non-empty credentials that are distinct from each other as the mode demands |
| `MysqlExecutor.CheckReceipt` | internal/mysqlcopy/executor.go:171-173 | accepts exactly the complete receipts of this plan and server |
| `MysqlExecutor.CheckTarget` | internal/mysqlcopy/executor.go:186-188 | accepts exactly identified targets with the planned secret on another claim than the source's |
| `MysqlExecutor.Check` | internal/mysqlcopy/executor.go:137-159 | passes if and only if its four calls, in order, gave authority, a live hold, unchanged credentials and an unchanged valid source |
| `MysqlExecutor.Prepare` | internal/mysqlcopy/executor.go:93-129 | passes if and only if authority, distinct credentials, a valid source and a second authority preceded the hold; nothing is changed before |
| `MysqlExecutor.TablesMatch` | internal/mysqlcopy/executor.go:221-228 | accepts if and only if the proof has exactly the source's tables |
| `MysqlExecutor.Transport.Restore` | internal/mysqlcopy/executor.go:193-206 | however much the restore reads, an exhausted reader and a finished tracker mean that the proof is that of the whole dump |
| `MysqlExecutor.Transport.Transfer` | internal/mysqlcopy/executor.go:193-216 | the same for dump and restore joined by the pipe; callable only after its own full check |
| `MysqlExecutor.TransferPhase` | internal/mysqlcopy/executor.go:189-228 | without error, the dump was transferred into this target and its proof has the source's tables; an error has its reason in the last answer |
| `MysqlExecutor.TakeProof` | internal/mysqlcopy/executor.go:217-228 | passes if and only if the dump is accepted and has exactly the source's tables, with the proof of the dump |
| `MysqlExecutor.CompareProof` | internal/mysqlcopy/executor.go:236-240 | passes if and only if the target's dump is accepted and says the same as the source's |
| `MysqlExecutor.VerifyPhase` | internal/mysqlcopy/executor.go:229-240 | no error if and only if this target was dumped back, its dump is accepted, and it says the same as the source's: tables, normalised schemas, ordered rows; a counter that moved is no difference |
| `MysqlExecutor.MovePhase` | internal/mysqlcopy/executor.go:189-240 | without error one target received a dump with the source's tables and gave back an equal one; check, transfer, check and dump follow in this order |
| `MysqlExecutor.ShutdownPhase` | internal/mysqlcopy/executor.go:241-248 | no error if and only if this target was shut down, after a full check |
| `MysqlExecutor.CommitPhase` | internal/mysqlcopy/executor.go:249-258 | a receipt is committed if and only if there is no error, after a full check of its own |
| `MysqlExecutor.CopyPhase` | internal/mysqlcopy/executor.go:189-258 | transfer, verification, shutdown and commit concern one target; without error, and only then, exactly the returned receipt is committed |
| `MysqlExecutor.Build` | internal/mysqlcopy/executor.go:181-258 | an empty target is provisioned, checked and copied into; the returned receipt is committed if and only if there is no error |
| `MysqlExecutor.Resume` | internal/mysqlcopy/executor.go:170-180 | a persisted receipt is returned if and only if it is this plan's and server's and a full check for completion passed; nothing is changed |
| `MysqlExecutor.Look` | internal/mysqlcopy/executor.go:160-169 | the target is inspected only after a full check for provisioning |
| `MysqlExecutor.UnderHold` | internal/mysqlcopy/executor.go:160-258 | without error the receipt was committed or found; a committed receipt is the one returned; the steps are those of an empty or of a found target, in order, and all of them without error |
| `MysqlExecutor.Held` | internal/mysqlcopy/executor.go:130-258 | the hold is released exactly once, after everything else done under it |
| `MysqlExecutor.Settle` | internal/mysqlcopy/executor.go:73-92 | the error is none if and only if nothing failed, is redacted, and reports the primary stage first |
| `MysqlExecutor.Attempt` | internal/mysqlcopy/executor.go:82-258 | the single cleanup ends every run past validation, after the one release of an obtained hold |
| `MysqlExecutor.ExecuteDomain` | internal/mysqlcopy/executor.go:71-259 | every run: effects once each, in order, under the hold, each after its own full check with no effect between; only justified commits; one release before the single cleanup that ends the run; a receipt if and only if no error; a run fails only at an answer it must not go on from, under the stage that asked for it, and succeeds if there is none, having taken every step; under a backup lock, all passing hold checks and the release relied on answers of one server and one connection, each to a question of its own |
| `MysqlExecutor.CommitMeansEqualContent` | internal/mysqlcopy/executor.go:229-258 | in every such run a commit was preceded by a transfer into and a dump of the receipt's target with equal content, and by its shutdown |
| `MysqlExecutor.CommitThenResume` | internal/mysqlcopy/executor.go:170-180 | a later run with the same plan accepts a committed receipt if and only if it meets the same server |
| `Archive.ExportIsCanonical` | internal/pvccopy/archive.go:87-214 | the archive of every supported tree passes all checks of the reader: order, parents first, limits, fields |
| `Archive.ExportThenBuild` | internal/pvccopy/archive.go:355-392 | building from the archive of a tree gives that tree |
| `Archive.BuildThenExport` | internal/pvccopy/archive.go:253-308 | re-exporting the tree of any accepted archive gives that archive |
| `Archive.BuildIsSupported` | internal/pvccopy/archive.go:253-308 | the tree of any accepted archive can be exported within the same plan |
| `Archive.Bijection` | internal/pvccopy/archive.go:87-392 | an archive is accepted and builds a tree if and only if the tree is supported and exports as that archive |
| `ArchiveRules.Utf8Iff` | internal/pvccopy/archive.go:33 | the byte ranges of the scan admit exactly the encodings of Unicode scalar values, section 3 of RFC 3629 |
| `ArchiveRules.PathIff` | internal/pvccopy/archive.go:32-34 | a path is valid if and only if it is at most 1024 bytes of UTF-8 without backslash, NUL, CR and LF, made of elements that are not empty, `.` or `..`, and does not start in the state directory |
| `ArchiveRules.CanonicalIff` | internal/pvccopy/archive.go:261-277 | the reader's demands on a list of records are: the root directory first, valid paths in rising byte order, each below a directory named before, nine permission bits, owners of 31 bits, empty directories, and the plan's limits |
| `ArchiveRules.RecordsAre` | internal/pvccopy/archive.go:139-214 | the archive of a tree is its root and a record of every entry, once, with its kind, metadata and bytes, in rising byte order of the paths |
| `ArchiveRules.AcceptedIff` | internal/pvccopy/archive.go:241-314 | a stream is accepted if and only if it delivers such a list in plain file and directory headers, nothing follows, its bytes stay below the limit, and they are whole blocks of which the last two are zero |
| `Receipts.BigEndianInjective` | internal/pvccopy/archive.go:36-43 | fixed-width integers within their range encode injectively |
| `Receipts.HeaderReads` | internal/pvccopy/archive.go:36-43 | what is hashed of a header reads back, high byte first, as the length of the name, the name, the type flag, size, mode, uid and gid |
| `Receipts.RecordPrefix` | internal/pvccopy/archive.go:36-43 | no encoded record is a proper prefix of another |
| `Receipts.HashDecodes` | internal/pvccopy/archive.go:187-193 | the hashed bytes of a list of records decode to exactly that list |
| `Receipts.ReceiptDecodes` | internal/pvccopy/archive.go:291-299 | accepted archives have equal receipts if and only if they are equal |
| `Receipts.ReceiptIdentifiesTree` | internal/pvccopy/plan.go:125-136 | supported trees have equal receipts if and only if they are equal in names, kinds, modes, owners and bytes |
| `ArchiveTail.ArchiveReader.Read` | internal/pvccopy/archive.go:53-63 | the window, shifted in place, is the last 1024 bytes of the stream, zero-padded on the left |
| `ArchiveTail.ArchiveReader.Complete` | internal/pvccopy/archive.go:64-74 | true exactly when the stream is a whole number of blocks and ends in two zero blocks |
| `ArchiveTail.ReadEach` | internal/pvccopy/archive.go:53-63 | any sequence of reads gives the window of the concatenated bytes |
| `ArchiveTail.WireWithinLimit` | internal/pvccopy/archive.go:241-243 | an archive within the plan's entries and bytes never exhausts the wire limit |
| `TarStream.EndDecides` | internal/pvccopy/archive.go:309-314 | entries with nothing after them but zero, one or two end blocks pass the end test if and only if the last payload with its padding ends in as many zero bytes as are missing to 1024 |
| `TarStream.RenderedAccepted` | internal/pvccopy/archive.go:309-314 | a written archive within the plan, closed or cut at an entry boundary, is accepted if and only if it is closed or its last padded payload supplies the missing zeros; the wire limit never interferes |
| `TarStream.HiddenAccepted` | internal/pvccopy/archive.go:241-243 | a closed archive with meta headers after its last entry is accepted if and only if it stays below the wire limit |
| `TarStream.WriteArchive` | internal/pvccopy/archive.go:140-217 | the stream of a list of records: a header block and a padded payload each, and two end blocks |
| `ArchiveIO.StepDecides` | internal/pvccopy/archive.go:261-277 | with what the loop remembers, the checks on the next record pass if and only if the longer archive is accepted |
| `ArchiveIO.HeaderDecides` | internal/pvccopy/archive.go:261-277 | a header that fails means that no stream with this beginning is accepted |
| `ArchiveIO.ConsumeEntry` | internal/pvccopy/archive.go:253-308 | one turn of the loop extends output, receipt and target together, or refuses a stream that is not accepted |
| `ArchiveIO.Consume` | internal/pvccopy/archive.go:237-322 | success if and only if the stream is a canonical list of whole entries with nothing trailing, a wire below the limit and 1024 zero bytes at its end, however it was cut into reads, unless the target's system calls fail; output, receipt and target are those of the whole archive |
| `ArchiveIO.ConsumeEntries` | internal/pvccopy/archive.go:253-308 | the loop: every byte of every entry passes the rolling window, and the first refusal means that the stream is not accepted |
| `ArchiveIO.CutArchive` | internal/pvccopy/archive.go:45-74 | an accepted archive cut after any number of entries passes if and only if the last payload that came through supplies the missing zeros |
| `ArchiveIO.ZeroFilePasses` | internal/pvccopy/archive.go:309-314 | an archive of a file of 1024 zero bytes without any end block is accepted |
| `ArchiveIO.Receiver.Open` | internal/pvccopy/archive.go:355-369 | creates the entry of the next record; entries so far mirror the records so far |
| `ArchiveIO.Receiver.RestoreAll` | internal/pvccopy/archive.go:370-392 | restoring directories in reverse order leaves each with its own metadata and disturbs nothing |
| `ArchiveIO.Receiver.Finish` | internal/pvccopy/archive.go:370-392 | afterwards the volume holds exactly the tree of the archive |
| `ArchiveExport.Visit` | internal/pvccopy/archive.go:106-126 | one listed entry is collected with everything below it, or makes the tree one that cannot be walked |
| `ArchiveExport.Walk` | internal/pvccopy/archive.go:87-138 | in whatever order the filesystem lists entries, everything below a directory is collected once |
| `ArchiveExport.CollectNames` | internal/pvccopy/archive.go:87-139 | the sorted names of the whole volume, or a refusal exactly for a tree that cannot be walked |
| `ArchiveExport.Emit` | internal/pvccopy/archive.go:143-214 | writes a prefix of the records; all of them, with their byte count and hash, if none is refused |
| `ArchiveExport.Export` | internal/pvccopy/archive.go:80-221 | success if and only if the payload is supported, unless system calls fail; then output and receipt are those of the tree; the records written always start with the root and rise in byte order |
| `Volumes.Volume.MkdirState` | internal/pvccopy/local.go:142-144 | at most one caller creates the state directory |
| `Volumes.Volume.WriteComplete` | internal/pvccopy/local.go:38-48 | an existing marker file is never rewritten; a failed write leaves nothing, a torn or a whole file |
| `PvcLocal.Inspect` | internal/pvccopy/local.go:62-121 | reports empty only for an empty target and a marker only for a completed one whose payload was hashed again; on a volume without failures exactly then |
| `PvcLocal.WritePayload` | internal/pvccopy/local.go:154-168 | success means that the volume holds the tree of the accepted stream, read back with the same receipt |
| `PvcLocal.Receive` | internal/pvccopy/local.go:125-176 | success only on an empty target and, without failing system calls, exactly for accepted streams, with the tree of the stream and both markers; any other target is left untouched |
| `PvcLocal.Complete` | internal/pvccopy/local.go:181-222 | publishes the final marker only over a matching claim, receipt and payload, and changes nothing else |
| `PvcLocal.CopyFresh` | internal/pvccopy/local.go:273-292 | success means that the target's tree equals the source's; without failing system calls it succeeds if and only if the source can be exported |
| `PvcLocal.CopyLocal` | internal/pvccopy/local.go:253-292 | success on an empty target means equality with the source; on a completed target the same marker is returned and nothing is written |
| `PvcLocal.ResumedCopyEqualsSource` | internal/pvccopy/local.go:268-272 | a completed target equals the source if and only if the source's receipt is the marker's |
| `PvcLocal.CopyChangeCopy` | internal/pvccopy/local.go:253-292 | after any change of the source a second copy still returns the first marker; the target equals the new source if and only if nothing changed |
| `PvcProtocol.DoInv` | internal/pvccopy/local.go:125-222 | every system call of every process, every failure, kill and power loss keeps the protocol invariant |
| `PvcProtocol.ReadBack` | internal/pvccopy/local.go:162-168 | the comparison of receipts after reading the payload back passes if and only if the payload is the received tree |
| `PvcProtocol.AtMostOneWriter` | internal/pvccopy/local.go:129-175 | in every run at most one `Receive` ever writes payload, after its claim is durable |
| `PvcProtocol.PhaseOnlyAdvances` | internal/pvccopy/local.go:80-112 | the visible phase goes up by at most one at a time and never back while the machine runs, the durable phase never goes back at all and never exceeds the visible one |
| `PvcProtocol.DurablePhaseInRuns` | internal/pvccopy/local.go:80-112 | the same for the durable phase over every run |
| `PvcProtocol.MarkersAreFinal` | internal/pvccopy/local.go:38-48 | a written marker is never rewritten, and once synced survives power losses |
| `PvcProtocol.ReceiveRefused` | internal/pvccopy/local.go:129-144 | on a target claimed by another, every `Receive` fails at its next system call and changes nothing |
| `PvcProtocol.ReturnsAreTrue` | internal/pvccopy/local.go:62-222 | whatever runs beside it, each successful return states what is true of the target at that moment: a `Receive` leaves its tree, by the comparison of receipts, under a durable claim and receipt; a claimed but incomplete target is never reported empty or complete |
| `PvcProtocol.SettledForever` | internal/pvccopy/local.go:191-222 | a target completed with everything synced keeps markers and payload in every continuation |
| `PvcProtocol.CompletionIsDurable` | internal/pvccopy/local.go:191-222 | the state a returning `Complete` leaves survives every continuation if and only if the content of the receipt file had been synced; its name is put on the disk by `Complete` itself |
| `PvcProtocol.CopiedForever` | internal/pvccopy/local.go:253-292 | once a `Receive` and then a `Complete` have returned, the target is complete with that receipt and holds the tree of that `Receive` for ever |
| `PvcProtocol.CopySucceeds` | internal/pvccopy/local.go:125-222 | for every valid plan and every tree it can carry there is a run in which the tree is received, completed and found complete |
| `PvcProtocol.UnsyncedCompletion` | internal/pvccopy/local.go:38-48 | for every valid plan and every tree it can carry, a run in which `Complete` succeeds over a receipt whose content was not synced |
| `Quantity.ParseDecides` | internal/pvccopy/domain.go:66-74 | parsing finds a spelling if and only if the string has it, and there is only one |
| `Quantity.CeilingOfReduced` | internal/pvccopy/domain.go:75-86 | a fraction and its reduced form have the same rounded value |
| `Quantity.Reduce` | internal/pvccopy/domain.go:75-82 | the fraction divided by its greatest common divisor rounds up to the same integers |
| `Quantity.QuantityBytes` | internal/pvccopy/domain.go:70-90 | the least integer not below the exact value, if from 1 to 2^63-1; a refusal means that there is no such value |
| `Quantity.DecimalSizes` | internal/pvccopy/domain.go:79 | what the suffixes k, M, G, T, P and E stand for |
| `Quantity.BinarySizes` | internal/pvccopy/domain.go:79 | what the suffixes Ki, Mi, Gi, Ti, Pi and Ei stand for |
| `Quantity.NoOtherSuffix` | internal/pvccopy/domain.go:66 | there are no other suffixes |
| `Quantity.HalfSizes` | internal/pvccopy/domain.go:75-85 | fractions are exact before they are rounded up |
| `Quantity.CreatedSizePasses` | internal/pvccopy/domain.go:301 | the printed size of a new claim reads back as itself |
| `Quantity.SortAll` | internal/pvccopy/domain.go:91-96 | an ascending permutation of the list |
| `Quantity.AscendingUnique` | internal/pvccopy/domain.go:91-96 | ascending lists with the same elements, counted, are the same list |
| `Quantity.SameSet` | internal/pvccopy/domain.go:91-96 | true if and only if the lists are equal as multisets |
| `Quantity.MarkedIff` | internal/pvccopy/domain.go:194-199 | the labels are the identities of plan, tenant, project and environment, and the annotations those of plan, item, source, tenant, project and environment |
| `Quantity.OwnedTarget` | internal/pvccopy/domain.go:201-223 | accepts exactly the live claims of this namespace and name with all labels and annotations and the item's specification |
| `Quantity.CreatedIsOwned` | internal/pvccopy/domain.go:294-307 | the claim made for a plan and item, unmodified, is accepted |
| `Quantity.OwnedByOne` | internal/pvccopy/domain.go:194-223 | a claim accepted for two plans and items belongs to the same plan and the same item, source, name and size |
| `PvcExecutor.CheckPods` | internal/pvccopy/executor.go:152-174 | accepts a list of pods exactly if every pod has an identity and is a known helper, has ended, or uses neither claim |
| `PvcExecutor.CheckPolicy` | internal/pvccopy/executor.go:83-93 | accepts exactly the plans for the pinned image, the bound target and an allowed source namespace |
| `PvcExecutor.CheckClaims` | internal/pvccopy/executor.go:119-136 | accepts exactly two planned file-system claims, not being deleted, on different volumes, the source bound and declared offline, the target bound or, before both helpers exist, pending |
| `PvcExecutor.CheckVolumes` | internal/pvccopy/executor.go:111-142 | passes if and only if both claims are fine and controllers and permission agree about exactly those |
| `PvcExecutor.CheckNamespaces` | internal/pvccopy/executor.go:143-177 | passes if and only if the pods of each namespace are safe and the context is alive |
| `PvcExecutor.Check` | internal/pvccopy/executor.go:107-177 | passes if and only if policy holds and its calls form a full check with the helpers known |
| `PvcExecutor.GuardedIsSafe` | internal/pvccopy/executor.go:107-177 | right before every creation and command of a run, both claims were read and fine, controllers and permission agreed about them, no pod of either namespace stood against it, and the context was alive |
| `PvcExecutor.AddHelper` | internal/pvccopy/executor.go:235-259 | succeeds exactly if the last call was the end of a passing check; a helper is recorded if and only if its identity is certain, and then matches its specification |
| `PvcExecutor.AddHelpers` | internal/pvccopy/executor.go:213-262 | a read-only helper on the source and then a writing one on the target, of one owner, each created, awaited and checked, and one check more |
| `PvcExecutor.Relay` | internal/pvccopy/archive.go:231-235 | succeeds if and only if the stream is accepted, with the receipt of its records |
| `PvcExecutor.Transport.Verify` | internal/pvccopy/cli.go:67-75 | an honest verification reports an empty target only if it is empty and a marker only if it is complete |
| `PvcExecutor.Transport.Export` | internal/pvccopy/cli.go:52-57 | an honest export that reports success delivered the archive of the source |
| `PvcExecutor.Transport.Stream` | internal/pvccopy/executor.go:297-323 | if export and import report success the archive of the source was delivered, and the target holds what its own receipt says, whatever the importer was fed |
| `PvcExecutor.Transport.Complete` | internal/pvccopy/cli.go:76-88 | an honest completion over a received target leaves a completed one |
| `PvcExecutor.ReceivedIsSource` | internal/pvccopy/executor.go:323-329 | if the importer's receipt equals the relay's, the target's tree equals the source's |
| `PvcExecutor.SameArchive` | internal/pvccopy/executor.go:352-354 | equal receipts of two accepted exports mean one and the same archive |
| `PvcExecutor.CopyOnce` | internal/pvccopy/executor.go:279-333 | succeeds if and only if the stream is accepted and the importer vouches for its receipt; on an honest transport the target's tree then equals the source's |
| `PvcExecutor.ExportAgain` | internal/pvccopy/executor.go:334-354 | passes only if the source exports the very same archive once more; a refusal has its reason in that answer |
| `PvcExecutor.Transfer` | internal/pvccopy/executor.go:279-368 | success means that two exports of the source helper, the importer and the final marker agree; on an honest transport, that the target is complete and equals the source |
| `PvcExecutor.Publish` | internal/pvccopy/executor.go:355-368 | completes in the target helper after a full check, and passes one more before returning, in this order |
| `PvcExecutor.Run` | internal/pvccopy/executor.go:212-368 | every creation and command directly follows a full check with exactly the recorded helpers; the steps are those of an empty or of a completed target, in order, and all of them on success |
| `PvcExecutor.Execute` | internal/pvccopy/executor.go:203-369 | on every path each recorded helper is deleted once, in reverse order, after everything else; everything that acts is safe to do where it is done; a run fails only at an answer it must not go on from, and if there is none and every deletion succeeds it succeeds, having taken every step in the source's order; then all receipts agree or a verified marker was found; on an honest transport the target is then complete, and equals the source if it was empty before |
| `PvcExecutor.DeleteAll` | internal/pvccopy/executor.go:225-234 | each recorded helper is deleted once, the last one first; success if and only if every deletion succeeded |
| `PvcExecutor.AgreementIdentifiesTarget` | internal/pvccopy/executor.go:326-368 | if the agreed receipt is that of a target tree, that tree is what the source exported, both times |
| `Text.ListsUnique` | internal/mysqlcopy/stream.go:164-168 | only one strictly sorted list has a given set of names |
| `Text.Sort` | internal/pvccopy/archive.go:139 | sorting distinct names gives that list, in rising byte order |
| `Text.LessIsByteOrder` | internal/pvccopy/archive.go:139 | one name comes before another if and only if, where they first differ, it ends or has the smaller byte |
| `Text.TrimSpaceLaw` | internal/mysqlcopy/stream.go:81 | trimming cuts the six ASCII white space characters off both ends, and only those |
| `Text.ToUpperLaw` | internal/mysqlcopy/stream.go:94 | upper-casing changes the letters a to z and nothing else |
| `Decimals.ValueOfDecimal` | internal/pvccopy/domain.go:301 | a printed number reads back as itself |
| `Decimals.ParseUintOfDecimal` | internal/mysqlcopy/kube.go:422 | a printed number is parsed as itself if it fits 64 bits, and refused otherwise |
| `Decimals.ValueSnoc` | internal/pvccopy/domain.go:75 | a digit more means ten times the value and that digit |
| `Decimals.DecimalInjective` | internal/mysqlcopy/kube.go:408 | different numbers print differently |

## Left out

- Kubectl, HTTP, JSON, helm, git and process plumbing, admission policies and pod manifests: behaviour that lives outside these files.
- `DomainExecutor.ExecuteDomain` of `pvccopy/domain.go`: its loop over items, source validation and preflight; the size and ownership tests it relies on are modelled.
- Stores, settings, projects and product records: record keeping that would only add easy members.
- Credentials, TLS and secret handling: a credential check is an opaque answer that must stay the same.
- SHA-256: a digest is its input; `labelIdentity` and `SourceHelperName` are represented by their argument.
- The bit-level tar codec: the fields of a header are whatever the tar reader makes of its blocks; of the blocks themselves only their length, that a header block is not zero, and the bytes seen by the end test are modelled.
- The name-length limits of the ustar format, extended attributes and hard links: an entry the archive cannot carry is `Other`. The root cannot be `Other`, so owner numbers of the root that fit `MetaOk` and not the ustar number fields, where the writer fails, are not modelled.
- Changes of the source during one export: an export reads one tree; the executor's second export is modelled as a separate stream.
- Unicode white space and Unicode upper-casing: trimming and upper-casing are those of ASCII.
- Goroutine scheduling and timeouts: a pipe is modelled by its contents, a deadline by an arbitrary failing answer; a failing random source at the start of `Execute` is not modelled.
- `Read` of the validating reader after it returned an error: consumers stop there.
- Integer widths of counters: rows and bytes are unbounded naturals, as the plan's limits keep them within range; header fields, sizes and connection ids have their widths.
- `Plan.Validate`: a verdict in the plan; only the bounds the proofs need are spelled out.
- Cyclic error chains: an error is a finite tree.
- Slices shared with the caller: for a group of more than 64 children the worklists append to a cut slice and so write into the group's own list; errors are values here, and only the reports are modelled.
- BackupHold.HoldDDL: the quiescence mode, which returns the driver's own hold, and the check of the plan against the configured source are not modelled, because neither uses the lock session.
- Honest transports: the volumes of the two helpers change only through the helper commands; a source that changes meanwhile is what the second export and the offline checks are for.
- `PvcExecutor.Execute`: the marker returned beside an error, when only a deletion failed, is not constrained.
