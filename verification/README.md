# Verified model of Tally's evidence and decision core

Tally records dated evidence (tariff pages, shipment events) and decides demurrage invoices from it. This project
models, in Dafny, the parts of the system whose correctness spans many steps or many inputs, and proves what the
system promises about them.

| files | what they model |
|---|---|
| `OAuthTokens`, `OAuthRefresh`, `OAuthRefreshLaws`, `OAuthManager` | any number of token managers sharing one stored bundle and one expiring lease, as interleaved steps against a server that may rotate refresh tokens (section 6 and section 10.4 of RFC 6749); and a manager's call as imperative code, each stage one of those steps, interleaved with the others |
| `SqlSplitter`, `SqlSplitterLaws` | the four-mode SQL lexer loop against an independent recursive lexer; round trip |
| `MigrationRunner`, `MigrationLaws` | the migration applier over any schema, with crashes after any statement |
| `Capture`, `CaptureLaws`, `CaptureHandler`, `CaptureVerifier` | racing captures of one source and day over a versioned bucket with a conditional put (section 13.1.2 of RFC 9110), the rolling pointer, and the verifier |
| `TransactionRetry`, `Recordings`, `Restore` | transaction retry, the commit of a source-day, and the replay of a date range |
| `ClauseIndex` | the scoped clause index against brute force |
| `Reconstruction`, `ReconstructionLaws` | event validation, charge boundary and charged days |
| `ApplicableRule`, `Judgment` | the applicable rate and the recommendation |
| `TemporalReplay`, `TemporalReplayLaws`, `TemporalReplayExample` | the seal-time replay check, and one case read before and after tampering |
| `Sorting`, `Text`, `Wrappers` | stable sorting and filtering laws, string operations, result types |

## Conventions

- Digests, canonical JSON, vector distance, text normalisation, time-zone dates and the parsing of times, UUIDs and
  decimals are function parameters; every result holds for all of them. Where a result needs digests to tell values
  apart, it asks this only of the pairs that are compared (`TemporalReplayLaws.DigestsTellApart`), and
  `TemporalReplayExample` exhibits a case that meets it.
- Network, storage and database outcomes are parameters (`Weather`, `Attempt`, the outcome fields of a step), so a
  result holds for every pattern of failures. What other runs or managers do between two stages of a call is a
  parameter too (`others`), so the imperative calls are interleaved with any number of others.
- Dates are integers, instants are integers with their written offset, money is integer minor units.
- Codes that the source spells as strings are constructors of a datatype, one per string.

## Where the code and what is said about it differ

Each of these is proved with its exact condition, and with an input or a run that shows it.

- A replay is not idempotent for failed or skipped days: `recordings_day_idx` keeps `carrier_id` as it is, such rows
  have it null, and null never conflicts, so each replay inserts them again (`Recordings.ReplayIdempotentExactly`,
  `Restore.ReplayAgainExactly`).
- A migration file that predates the applier can be recorded without all its statements having run: the markers of
  `001a_recording_tables.sql` hold as soon as its tables exist, before its three CONFIGURE ZONE statements
  (`MigrationLaws.RecordedOnlyWhenRunExactly`, `MigrationLaws.EarlyMarkersSkip`,
  `MigrationLaws.EarlyMarkersLoseStatements`).
- Statements that are each idempotent do not make an interrupted file safe to resume
  (`MigrationLaws.IdempotentStatementsAreNotEnough`). Once the pre-runner files are recorded the exact condition is that
  running the whole file makes up for any part of it that has run (`MigrationLaws.ConvergesExactly`). While markers are
  still looked at, such files converge exactly when leaving out the files whose markers hold at a point of a run makes
  no difference (`MigrationLaws.MarkersConvergeExactly`); for one pre-runner file that is a guard on the file itself
  (`MigrationLaws.LastConvergesExactly`).
- `capture_one_source` can raise: the existence check and the two early "failed" manifest writes are outside its
  exception branches (`CaptureLaws.CaptureCanRaise`; exactly when, in the contract of
  `CaptureHandler.Bucket.CaptureOneSource`, and step by step in `CaptureLaws.RaisesExactly` and
  `CaptureLaws.UnguardedExactly`).
- A run can report "skipped", or "failed", although the day's "ok" manifest is its own: when the manifest write or the
  pointer write after it is not acknowledged, the record of a failure decides, finding that manifest or not arriving
  (`CaptureLaws.OwnManifestReport`, `CaptureLaws.SkippedFindsManifest`, and exactly by request outcomes in
  `CaptureHandler.Bucket.CaptureOneSource`).
- After a lost pointer write the next identical day reads "changed" (`CaptureLaws.LostPointerMisreports`). The
  comparison is with the last "ok" manifest whose pointer landed, exactly (`CaptureLaws.UnchangedByPointer`).
- Duplicate events collapse by the time as it is written: two rows of one type and moment with different offsets are
  both accepted (`ReconstructionLaws.PairCollapsesExactly`, `ReconstructionLaws.CollapseExactly`).
- A day billed below its applicable rate counts against the disputed total, so it can turn a dispute into an approval
  for more than was claimed (`Judgment.UnderBillingHidesADispute`). The documented outcomes hold exactly as in
  `Judgment.AsDocumentedExactly`, and an approval pays exactly the claim when the excess is zero
  (`Judgment.ApprovalPaysExactly`).
- Reason codes look a day up by its date; of two inputs for one date the later one explains both
  (`Judgment.RepeatedDateMisexplains`, `Judgment.OwnCodesExactly`).
- Adding the first terminal-access snapshot of a case opens a gap on every other day; once one is accepted, another
  only fills the gap of its own day (`ReconstructionLaws.OtherDaysKeptExactly`). Where that was the day's only gap
  and the events set no boundary, `CHARGE_BOUNDARY` takes its place (`ReconstructionLaws.OwnDayOnlyGains`).

## Model

| member | source | states |
|---|---|---|
| OAuthTokens.RefreshKeepsGrant | src/external/oauth_tokens.py:110-160 | whatever the server replies, an accepted refresh of a loadable bundle has the reply's own access token, expires after the reply's own lifetime, is of type `Bearer`, has scope exactly `mcp:read`, the same endpoint, client and resource, carries the returned refresh token or else the prior one, and passes the stored-bundle check from then on |
| OAuthTokens.RefreshedExactly | src/external/oauth_tokens.py:121-150 | a refresh is accepted if and only if the reply has a non-empty access token, type bearer, a lifetime of one second to a day, no scope, a blank one or exactly `mcp:read`, and no refresh token or a non-empty one |
| OAuthTokens.YieldsExactly | src/external/oauth_tokens.py:121-160 | a refresh gives a bundle if and only if the reply is acceptable and the bundle has the reply's access token, its lifetime from now, type `Bearer`, the returned refresh token or else the prior one, and the prior grant |
| OAuthTokens.RefusedExactly | src/external/oauth_tokens.py:121-150 | each error is given exactly when its field is the first, in this order, that is not as it should be |
| OAuthTokens.BearerExactly | src/external/oauth_tokens.py:124-125 | the type is compared letter by letter in either case |
| OAuthTokens.LoadableExactly | src/external/oauth_tokens.py:47-108 | a bundle can be loaded if and only if no text is empty, it is a read-only bearer token of the one trusted host's token endpoint and resource, slashes after the resource path allowed, and expires at most a day ahead |
| OAuthTokens.WordsExactly | src/external/oauth_tokens.py:135-139 | the scopes read from a text are exactly its maximal runs of non-space characters |
| OAuthTokens.WiderScopeRefused | src/external/oauth_tokens.py:132-141 | a reply whose stated scope is anything but `mcp:read` is refused |
| OAuthRefreshLaws.LeaseInvRun | src/external/oauth_tokens.py:205-242 | in every run, with expiry, takeover, lost replies and dying managers, an unexpired lease of a manager is the one in the table and owners are distinct |
| OAuthRefreshLaws.OneUnexpiredHolder | src/external/oauth_tokens.py:205-227 | in every run at most one manager holds an unexpired lease |
| OAuthRefreshLaws.HolderKeepsLease | src/external/oauth_tokens.py:229-242 | in every run no other manager's step, a stale owner's release in particular, removes or replaces an unexpired holder's lease |
| OAuthRefreshLaws.StoreStaysInGrant | src/external/oauth_tokens.py:88-160 | in every run the store and every bundle in flight stay loadable, read-only and of the original endpoint, client and resource |
| OAuthRefreshLaws.TokenInvStep | src/external/oauth_tokens.py:336-403 | every step that loses no reply and fails no save keeps: senders send the stored bundle, the server's latest token is in flight or stored, honoured versions ascend |
| OAuthRefreshLaws.FreshTokenSent | src/external/oauth_tokens.py:330-421 | in every interleaving without lease overrun, lost reply or failed save, the token about to be sent is the one issued last and its stored version was never honoured before |
| OAuthRefreshLaws.ExchangedOnce | src/external/oauth_tokens.py:330-421 | in such a run each stored bundle is honoured at most once |
| OAuthRefreshLaws.LostReplyIsUnsafe | src/external/oauth_tokens.py:336-357 | from any idle start, a lost reply alone leads to a run that sends a stale token |
| OAuthRefreshLaws.FailedSaveIsUnsafe | src/external/oauth_tokens.py:367-373 | so does a failed save alone |
| OAuthRefreshLaws.OverrunIsUnsafe | src/external/oauth_tokens.py:376-403 | so does a lease that runs out inside its holder's critical section, with two managers |
| OAuthRefreshLaws.DiesAnywhere | src/external/oauth_tokens.py:376-403 | in every run a manager can die between any two stages of its call, with lease, store and server left as they are |
| OAuthManager.Service.AcquireLease | src/external/oauth_tokens.py:205-227 | among any number of managers the conditional put is the `Acquire` step of its manager and grants only a lease free or expired at the time read |
| OAuthManager.Service.ReleaseLease | src/external/oauth_tokens.py:229-242 | the conditional delete is the `Release` step of its manager |
| OAuthManager.Service.FallBackOnStore | src/external/oauth_tokens.py:385-393 | without the lease the call succeeds exactly when the stored bundle is readable and loadable and either differs from the one observed or is still fresh and not forced, and then returns it |
| OAuthManager.Service.Reread | src/external/oauth_tokens.py:394-401 | the re-read under the lease is one step; exactly when the bundle is readable and not already good enough it is sent, and it is then the one first observed |
| OAuthManager.Service.ExchangeToken | src/external/oauth_tokens.py:336-357 | the token request is one step, lost replies and errors ending the refresh |
| OAuthManager.Service.ValidateReply | src/external/oauth_tokens.py:358-366 | the check of the reply is one step against the bundle that was sent; a bundle that passes has the reply's access token, its lifetime from now, type `Bearer`, and the returned refresh token or else the one sent |
| OAuthManager.Service.SaveBundle | src/external/oauth_tokens.py:367-374 | the save is one step; a valid bundle whose write lands becomes the next version, and nothing else changes the store |
| OAuthManager.Service.RefreshBundle | src/external/oauth_tokens.py:336-374 | exchange, validation and save are steps of its manager, others acting between them; success returns a bundle that was stored and whether its token changed; left alone, result and store are exactly those the reply and the save determine |
| OAuthManager.Service.RefreshUnderLease | src/external/oauth_tokens.py:394-403 | re-read, refresh and release are steps of its manager, others acting between them; a returned bundle was stored; left alone, result and store are exactly those the read, the stored bundle, the reply and the save determine |
| OAuthManager.Service.RefreshWithLease | src/external/oauth_tokens.py:376-403 | a whole call, from any reachable state, whatever fails, however time passes and whatever other managers do meanwhile, ends idle in a reachable state: the lease and grant laws hold there, a returned bundle was stored and is in the original grant, and without the three hazards a token it sends is the one issued last. Left alone it changes the store only to the next version holding what an honoured, acceptable reply yields (access token, lifetime, refresh token, grant), and a success returns what is stored |
| OAuthManager.SucceedsExactly | src/external/oauth_tokens.py:376-403 | a call left alone succeeds if and only if the store is readable and either its bundle differs from the one observed, or is fresh and not forced, or the lease is free and granted, the exchange is honoured, the reply is acceptable field by field and the save lands |
| OAuthManager.StoresExactly | src/external/oauth_tokens.py:336-403 | a call left alone changes the store if and only if it has to refresh, the reply is acceptable and the write takes effect; the stored bundle is then what the reply yields, and rotation is reported exactly when the refresh token changed |
| OAuthManager.FailsExactly | src/external/oauth_tokens.py:336-403 | each error of a call left alone, as an if-and-only-if on the read, the lease, the reply's fields, the save and whether the token was rotated |
| SqlSplitter.Advance | src/external/migrate.py:95-135 | one turn of the loop body moves the four flags to the mode from which the reference lexer resumes, and finds a boundary exactly at a semicolon in code |
| SqlSplitter.SplitSqlStatements | src/external/migrate.py:85-139 | the loop returns exactly the trimmed, non-blank pieces of the reference lexer for every script |
| SqlSplitterLaws.PiecesCoverScript | src/external/migrate.py:85-139 | the untrimmed pieces concatenate to the script |
| SqlSplitterLaws.CutsFollowSemicolons | src/external/migrate.py:118-134 | every boundary stands directly after a semicolon |
| SqlSplitterLaws.SplitComplete | src/external/migrate.py:130-134 | a piece that ends in its only boundary splits off, whatever follows it |
| SqlSplitterLaws.SplitOpen | src/external/migrate.py:136-139 | a last piece without a boundary, an unterminated quote or comment included, is one statement |
| SqlSplitterLaws.LineCommentHides | src/external/migrate.py:96-121 | a line comment with any text adds no boundary before what follows its newline |
| SqlSplitterLaws.BlockCommentHides | src/external/migrate.py:99-125 | a block comment with any text free of its closer adds none, opened again inside or not |
| SqlSplitterLaws.QuotedHides | src/external/migrate.py:104-129 | a single- or double-quoted text with its quotes doubled adds none |
| SqlSplitterLaws.OrdinaryHides | src/external/migrate.py:93-135 | nor does any other character that starts none of these |
| SqlSplitterLaws.SemicolonEnds | src/external/migrate.py:130-135 | a semicolon outside of these ends a piece |
| SqlSplitterLaws.UnclosedHidesRest | src/external/migrate.py:85-139 | a comment or literal that is never closed runs to the end of the script |
| SqlSplitterLaws.HiddenInFirst | src/external/migrate.py:130-139 | what holds no boundary stands at the front of the first statement after it, whatever follows |
| SqlSplitterLaws.SplitRoundTrip | src/external/migrate.py:85-139 | splitting the newline-joined statements of any script gives the same statements |
| SqlSplitterLaws.OnlyRemainderBlank | src/external/migrate.py:131-138 | the only piece that can be blank, and so dropped, is the last |
| MigrationRunner.Cluster.EnsureTrackingTable | src/external/migrate.py:44-72 | exactly the pre-runner files whose markers are present are recorded, and nothing else changes |
| MigrationRunner.Cluster.ApplyFile | src/external/migrate.py:151-179 | the schema is that of executing the split statements of the file in order on the schema before, and the file is recorded |
| MigrationRunner.Cluster.ApplyAll | src/external/migrate.py:142-180 | the run is the uninterrupted run of the files not yet recorded, and returns their names in order |
| MigrationLaws.EnsureAgain | src/external/migrate.py:44-72 | looking at the pre-runner files again, also after a cut-short look, changes nothing more |
| MigrationLaws.Converges | src/external/migrate.py:142-180 | sufficient conditions on one database: after any sequence of runs crashed anywhere, one full run gives the schema and records of one uninterrupted run, given files that can be resumed, harmless replay while pre-runner markers can still hold, and markers that wait for their file |
| MigrationLaws.ConvergesHarmless | src/external/migrate.py:155-178 | in particular when every file to do can be replayed part by part and markers wait |
| MigrationLaws.MarkersConvergeExactly | src/external/migrate.py:28-178 | resumable files converge from every database and after all crash histories, early markers included, if and only if leaving out the files whose markers hold at a point of a run never makes a difference |
| MigrationLaws.LastConvergesExactly | src/external/migrate.py:28-72 | with only one resumable pre-runner file left and its markers absent, all crash histories converge if and only if its markers never appear while a statement that still matters is to come |
| MigrationLaws.ConvergesExactly | src/external/migrate.py:155-178 | with the pre-runner files recorded, all crash histories from all schemas converge if and only if running each file to its end makes up for any part of it that has run |
| MigrationLaws.RecordedOnlyWhenRunExactly | src/external/migrate.py:28-72 | pre-runner files included, after any crashes a file is recorded only once all its statements ran, if and only if no markers hold early in the uninterrupted run |
| MigrationLaws.AppliedOnlyWhenRun | src/external/migrate.py:160-178 | for every engine, database and crash history, with no condition, a file other than the pre-runner ones is recorded only after all its statements ran |
| MigrationLaws.EarlyMarkersSkip | src/external/migrate.py:61-67 | for every schema engine, where a file's markers hold before it has run, a crash there has it recorded and no later run, crashed or not, ever runs it |
| MigrationLaws.EarlyMarkersLoseStatements | migrations/001a_recording_tables.sql:91-112 | a two-statement stand-in for the file, its markers holding after the first: a crash between the two leaves the second unset for good |
| MigrationLaws.IdempotentStatementsAreNotEnough | src/external/migrate.py:158-159 | idempotent statements whose interrupted file ends in another schema |
| CaptureLaws.LogInvRun | capture/handler.py:573-600 | in every interleaving each manifest was written by one run, of that day and invocation, and the write log names each day once |
| CaptureLaws.RunExtends | capture/handler.py:371-559 | no later step removes or changes a manifest, its writer or a stored body version |
| CaptureLaws.WrittenAtMostOnce | capture/handler.py:508-513 | no day is written twice in any interleaving |
| CaptureLaws.VerifierStatusSettles | capture/verifier.py:115-150 | once not missing, a day's verifier status is for ever the one given by the first writer's status and invocation |
| CaptureLaws.ManifestsAreBacked | capture/handler.py:464-559 | in every reachable bucket a manifest with a body key has a stored version with its digest, and every "ok" manifest has a body key |
| CaptureLaws.ManifestsAreShaped | capture/handler.py:401-559 | in every interleaving an "ok" manifest has digest, body key and comparison, and a failed one compares nothing |
| CaptureLaws.UnchangedByPointer | capture/handler.py:279-353 | over all non-overlapping runs, whatever pointer writes are lost, "unchanged" is written exactly when the digest is that of the last earlier "ok" manifest whose pointer landed |
| CaptureLaws.UnchangedExactly | capture/handler.py:479-495 | where pointer writes succeed, that is the last earlier "ok" manifest of the source, whatever lies between |
| CaptureLaws.LostPointerMisreports | capture/handler.py:487-495 | one failed pointer write makes identical content read "changed" the next day |
| CaptureLaws.OwnManifestReport | capture/handler.py:487-559 | in every interleaving a run whose own manifest stands reports "ok" exactly when its pointer write is acknowledged, "skipped" exactly when its "failed" record finds that manifest, "failed" exactly when that record does not arrive, and never raises |
| CaptureLaws.SkippedFindsManifest | capture/handler.py:121-149 | in every interleaving "skipped" finds a manifest of the day, and it is the run's own only when the run is in its exception branch |
| CaptureLaws.CaptureCanRaise | capture/handler.py:401-426 | from any history, a failed fetch whose record cannot be stored raises |
| CaptureLaws.KilledAnywhere | capture/handler.py:371-559 | after any history an unfinished run can be killed between any two stages, with everything stored left as it is |
| CaptureHandler.Bucket.WriteManifest | capture/handler.py:573-600 | stores only where nothing is stored and says whether something was |
| CaptureHandler.Bucket.CheckManifest | capture/handler.py:395-399 | the existence check is one step of its run and raises when it fails |
| CaptureHandler.Bucket.FetchSource | capture/handler.py:401-458 | the fetch is one step of its run among any others; a failure or non-200 response leads to an unguarded record |
| CaptureHandler.Bucket.StoreBody | capture/handler.py:464-478 | the body write adds a version and is one step of its run |
| CaptureHandler.Bucket.CompareWithPointer | capture/handler.py:279-324 | the pointer read and comparison are one step of its run |
| CaptureHandler.Bucket.StoreOkManifest | capture/handler.py:487-513 | the conditional "ok" write and its exception branches are one step of its run |
| CaptureHandler.Bucket.StorePointer | capture/handler.py:327-353 | the pointer write is one step of its run |
| CaptureHandler.Bucket.RecordFailure | capture/handler.py:545-559 | the "failed" write is one step of its run, raising exactly when it is unguarded and fails without finding the day written |
| CaptureHandler.Bucket.CaptureOneSource | capture/handler.py:371-559 | a call from any reachable bucket, whatever fails and whatever other runs do between its stages, finishes in a reachable bucket where the write-once and backing laws hold; left alone, it raises, reports "ok" or reports "skipped" if and only if the listed request outcomes say so, and "failed" otherwise |
| CaptureVerifier.VerifySources | capture/verifier.py:153-178 | one status per source, in order, each as the day's manifest says, and all-ok exactly when each day was first written "ok", and by the schedule from the start date on |
| CaptureVerifier.StatusExactly | capture/verifier.py:115-150 | "missing" exactly without a manifest, "failed" exactly for a failed one, "manual_only" exactly for an "ok" one not written by the schedule on or after the start date, "ok" for every other |
| CaptureVerifier.UntrustedExactly | capture/verifier.py:138-150 | a manifest without a usable status reads "failed", any status but "ok" is passed on, and "ok" is given exactly for an "ok" that is scheduled or early |
| TransactionRetry.AttemptsMade | src/external/db.py:151-161 | at least one and at most `max_retries` + 1 tries, every earlier one a retryable abort, the last one retryable only when retries are exhausted |
| TransactionRetry.WaitedClosed | src/external/db.py:161-161 | the waits after n aborts add up to base times (2^n - 1) |
| TransactionRetry.Connection.RunWithRetry | src/external/db.py:133-161 | the transaction lands wholly or not at all, with the verdict of its last try, and total backoff at most base times (2^max_retries - 1) |
| Recordings.RowsAgree | recording/commit.py:146-228 | the rows of a source-day agree: COMMITTED with a snapshot exactly for "ok", conflict key read off the recording row, snapshot of the same tenant, carrier and lane |
| Recordings.CommitLeaves | recording/commit.py:295-358 | what one source-day leaves, field by field from its manifest: each row is added only where its key is new, the snapshot is linked to its recording exactly when both are new, the recording counts one row exactly when the snapshot is new, and everything else keeps its value |
| Recordings.AddedAreLinked | recording/commit.py:305-346 | over any replay, a snapshot added together with its recording is linked to it and the recording counts one row; one whose recording was there already stays unlinked |
| Recordings.RecordingAdded | recording/commit.py:320-336 | over any replay, a recording that is added has the row of the first source-day asking for it, counting one row exactly when that day adds its snapshot too |
| Recordings.LinksStayHeld | recording/commit.py:305-346 | every link leads to an existing recording of the same tenant, carrier and lane that counts one row, after any replay of a database where it does |
| Recordings.ReplayAfterPartials | recording/commit.py:295-358 | after any number of partial replays a full replay gives the keyed rows of one full replay, plus the null-carrier rows of each partial one |
| Recordings.ReplayIdempotentExactly | recording/commit.py:243-252 | replaying after a prefix gives the rows of one replay if and only if every source-day of the prefix was "ok" |
| Recordings.ReplayAbsorbs | recording/commit.py:231-241 | source-days that clash in no key are absorbed by a later full replay, committed in any order and any number of times |
| Recordings.CommitSwap | recording/commit.py:305-346 | source-days that clash in no key commute |
| Restore.DateRange | restore_live.py:78-90 | every date from first to last, in order, and none when first is after last |
| Restore.CommitSourceDay | recording/commit.py:295-358 | succeeds exactly when nothing the commit reads is missing and the tries end in a commit within the retries; all of the source-day lands or nothing, exactly by the last try, within the backoff bound; what lands is the snapshot of the manifest's own URL, body key, digest and capture date, its recording, and the link between them exactly when both are new |
| Restore.CommitDay | recording/commit.py:361-425 | the database has exactly what the day's sources bring, in order, up to the first whose read, rows or commit fails; it finishes exactly when there is none |
| Restore.ReplayRange | restore_live.py:93-130 | finishes exactly when no read fails and every manifest in the range prepares and commits within the retries, and then every archived "ok" day has its rows. The database has exactly what the days bring, in order, up to the first failure; rows that were there keep their values, and every snapshot it adds is read off an archived manifest and linked to its recording unless that was there before or another source shares it |
| Restore.RangeGoes | restore_live.py:119-130 | a range goes through exactly when every source-day of it does |
| Restore.RangeBrings | restore_live.py:119-130 | what a replay brings is a prefix of what the range asks for in date and source order, and all of it when it finishes |
| Restore.ReplayAdds | restore_live.py:119-130 | the same of one added snapshot, for a replay that stops anywhere |
| Restore.FinishedHasAll | restore_live.py:119-130 | a replay that finishes leaves every archived "ok" day of the range with its snapshot and its recording |
| Restore.FinishedReplaysAgree | src/external/db.py:140-161 | two replays of a range that finish bring the same commits, whatever aborts they met |
| Restore.ReplayAgainExactly | restore_live.py:93-130 | a replay that finishes, after one that stopped anywhere or finished, whatever aborts either met, gives the rows of the finished one alone if and only if every source-day committed before was "ok" |
| ClauseIndex.SelectedExactly | src/core/vector_retrieval.py:215-283 | a candidate is marked selected exactly when it passes every listed postfilter, the exact-source check spelled out |
| ClauseIndex.ReasonsExactly | src/core/vector_retrieval.py:245-263 | the rejection reasons name each postfilter that fails and no other |
| ClauseIndex.ReasonsInOrder | src/core/vector_retrieval.py:249-263 | the reasons stand in the order of the postfilters, each at most once |
| ClauseIndex.TurnsRise | src/core/vector_retrieval.py:249-263 | so of any two reasons the earlier is of an earlier postfilter |
| ClauseIndex.StatusExactly | src/core/vector_retrieval.py:215-243 | each source status and date status is given exactly in its own case, the cases in terms of digests, decoding, text and dates |
| ClauseIndex.RankedIsOrder | src/core/vector_retrieval.py:297-313 | the rank key is a total order up to ties in distance, clause, capture and version |
| ClauseIndex.Build | src/core/vector_retrieval.py:376-382 | each scope holds exactly its documents in their original order, and no empty scope appears |
| ClauseIndex.IndexAgrees | src/core/vector_retrieval.py:384-388 | a query of the index is the brute-force result: candidates, order, selection and reasons |
| ClauseIndex.BuildAndRetrieve | src/core/vector_retrieval.py:376-388 | building and querying equals brute force for every document list and request; the candidates stand nearest first, those without a distance last and ties by name in dictionary order; the selected clause is that of a usable document, with its rate, nearest among all usable ones |
| ClauseIndex.OutsideNeverMatters | src/core/vector_retrieval.py:286-296 | dropping any documents of other scopes changes nothing in the result |
| ClauseIndex.OrderNeverMatters | src/core/vector_retrieval.py:297-313 | any permutation of documents with distinct names, or whose ties evaluate alike, gives the same result |
| ClauseIndex.TiesShowOrder | src/core/vector_retrieval.py:297-313 | two tied documents that evaluate differently give different results in two orders of any list that holds them |
| ClauseIndex.OrderFreeExactly | src/core/vector_retrieval.py:297-329 | with scope and context present, every order of the documents gives the same result if and only if tied documents evaluate alike |
| ClauseIndex.CandidateExactly | src/core/vector_retrieval.py:286-296 | the candidates are the evaluations of the documents in scope and nothing else |
| ClauseIndex.CandidatesRanked | src/core/vector_retrieval.py:286-313 | the candidates stand in the order of the rank key |
| ClauseIndex.CandidatesInOrder | src/core/vector_retrieval.py:297-313 | of two candidates the earlier has a distance if the later has, no greater than the later's, and at equal distances comes no later by clause, capture and version in dictionary order |
| ClauseIndex.CandidatesCounted | src/core/vector_retrieval.py:286-313 | every document in scope is listed exactly as often as it is given |
| Text.AtMostExactly | src/core/vector_retrieval.py:297-313 | the string order used for ties is dictionary order: a prefix first, else the first differing character decides |
| ClauseIndex.AbstainsExactly | src/core/vector_retrieval.py:316-329 | abstention happens exactly when a scope or context field is blank or nothing in scope passes, and each reason is given exactly in its own case |
| ClauseIndex.SelectionIsLeast | src/core/vector_retrieval.py:316-329 | the selection comes from a passing document in scope that ranks first among all such documents |
| ClauseIndex.SelectsNearest | src/core/vector_retrieval.py:297-329 | the selected clause shows the identity, context and rate of a usable document whose distance is at most that of every usable document, and among equal distances its names come first in dictionary order |
| Reconstruction.ValidateEvents | src/core/reconstruction.py:170-237 | an event is accepted exactly when it reads as the first admissible row of its type and time; no accepted event was recorded after the cutoff, is of another shipment or container or of an unlisted type; a row is reported exactly for the first rule it fails, or as a duplicate; every row is counted once |
| Reconstruction.ScreenExactly | src/core/reconstruction.py:188-235 | a row passes every rule but the duplicate rule if and only if it is verified, of a listed type, of the case's shipment and container, all its times and dates parse, and it was recorded no later than the cutoff; the event then says what the row says, and each issue is given exactly for the first rule that fails |
| Reconstruction.AcceptedExactly | src/core/reconstruction.py:188-237 | an event is accepted if and only if it reads as an admissible row that no earlier admissible row of its type and time precedes |
| Reconstruction.NothingInadmissible | src/core/reconstruction.py:188-235 | nothing recorded after the cutoff, unverified, of another shipment or container, or of an unlisted type is accepted |
| Reconstruction.DroppedExactly | src/core/reconstruction.py:188-217 | a row is reported for an issue if and only if that is the first rule it fails, or it is admissible and repeats an earlier admissible row |
| Reconstruction.IndexAccess | src/core/reconstruction.py:335-340 | each date maps to its earliest snapshot, and the map is empty exactly when there is none |
| Reconstruction.AdjudicateChargedDays | src/core/reconstruction.py:305-408 | every billed date gets the day its events determine, in order |
| ReconstructionLaws.EachRowOnce | src/core/reconstruction.py:189-237 | a row is accepted exactly when it passes every rule and no earlier passing row has its key; accepted events and rejections are those rows and the others, each once and in order |
| ReconstructionLaws.AcceptedKeysDistinct | src/core/reconstruction.py:213-217 | no two accepted events share type and time as written, offset included |
| ReconstructionLaws.PairCollapsesExactly | src/core/reconstruction.py:213-217 | two passing rows of one type and moment collapse to the first exactly when they carry the same offset |
| ReconstructionLaws.CollapseExactly | src/core/reconstruction.py:176-217 | the documented collapse by type and moment holds of a row list if and only if its passing rows of one type and moment all carry one offset |
| ReconstructionLaws.AcceptedSorted | src/core/reconstruction.py:236-237 | the accepted events are the kept ones, by moment and then by reference in dictionary order |
| ReconstructionLaws.RejectedNeverMatters | src/core/reconstruction.py:189-237 | deleting rejected rows from any positions leaves the accepted events unchanged |
| ReconstructionLaws.OutcomeIgnoresRejected | src/core/reconstruction.py:262-408 | and so the boundary, every charged day and the terminal state |
| ReconstructionLaws.BoundaryIsEarliest | src/core/reconstruction.py:262-290 | a boundary runs from the local day after the earliest accepted end of free time through the local day of the earliest gate-out |
| ReconstructionLaws.BoundaryGiven | src/core/reconstruction.py:262-290 | for the earliest end of free time and the earliest gate-out the boundary is from the local day after the one through that of the other, and none when that leaves no day |
| ReconstructionLaws.BoundaryExactly | src/core/reconstruction.py:262-290 | there is a boundary if and only if both exist and the first falls on an earlier local day |
| ReconstructionLaws.DayExactly | src/core/reconstruction.py:343-408 | a day is complete exactly when availability, free-time end, gate-out, boundary and, if the case uses snapshots, its own snapshot are there and it lies in the window; excluded outside it; else insufficient; its chargeability, coverage, date and charge follow by the same cases |
| ReconstructionLaws.MissingExactly | src/core/reconstruction.py:344-355 | each missing requirement is named exactly when it is missing, the charge boundary exactly when nothing else is |
| ReconstructionLaws.MissingInOrder | src/core/reconstruction.py:343-392 | the missing requirements stand in this order, each once, and the charge boundary stands alone |
| ReconstructionLaws.RefsExactly | src/core/reconstruction.py:366-408 | a day cites the boundary events and no other, and a complete day its own first snapshot too |
| ReconstructionLaws.RefsInOrder | src/core/reconstruction.py:366-421 | the references stand availability first, then free-time ends, then gate-outs, then a complete day's own snapshot, each as often as it occurs |
| ReconstructionLaws.TerminalExactly | src/core/reconstruction.py:492-504 | the reconstruction is complete if and only if there are billed dates and each is sourced and inside the boundary |
| ReconstructionLaws.SnapshotRowAdds | src/core/reconstruction.py:170-237 | a new admissible snapshot row, at any position, adds exactly its event |
| ReconstructionLaws.OtherDaysKeptExactly | src/core/reconstruction.py:335-408 | every other day is unchanged if and only if a snapshot had been accepted before |
| ReconstructionLaws.OwnDayOnlyGains | src/core/reconstruction.py:343-408 | its own day loses the terminal-access gap and nothing else, finished days stay finished, and a day with only that gap is settled by the boundary |
| ReconstructionLaws.CompleteStaysComplete | src/core/reconstruction.py:492-504 | with a snapshot accepted before, one more never loses a complete reconstruction |
| ApplicableRule.RateMinorIsExact | src/core/applicable_rule.py:96-104 | a rate converts exactly when it is non-negative with at most two decimals, to exactly a hundred times its value |
| ApplicableRule.CoversAllDates | src/core/applicable_rule.py:235-243 | true exactly when the clause is in force on every charged date |
| ApplicableRule.RunValidators | src/core/applicable_rule.py:115-156 | all nine results are recorded, each saying whether the candidate's own fields meet its rule |
| ApplicableRule.PassedExactly | src/core/applicable_rule.py:115-156 | each rule as a condition on the fields of candidate and query: an empty or absent query value asks for nothing, an absent candidate value fits anything, every charged date lies in force |
| ApplicableRule.ValidateCandidate | src/core/applicable_rule.py:107-173 | accepted exactly when the fields meet all nine rules, without looking at rank or distance, and then with exactly a hundred times the rate |
| ApplicableRule.AcceptedExactly | src/core/applicable_rule.py:158-174 | acceptance is applicability and is meeting all nine rules, and a refusal names a rule that is not met |
| ApplicableRule.FirstFailedIsFirst | src/core/applicable_rule.py:158-166 | the refusal is over the first failed validator in the published order |
| ApplicableRule.DecideApplicableRule | src/core/applicable_rule.py:184-217 | refused without an applicable rate, conflicted with two, verified with one, taking the lowest rank |
| ApplicableRule.BestIsFirst | src/core/applicable_rule.py:211-211 | among equal lowest ranks the earliest candidate is taken |
| ApplicableRule.OnlyApplicableRatesMatter | src/core/applicable_rule.py:195-217 | state and rate are a function of the set of applicable rates |
| ApplicableRule.OrderAndRejectsNeverMatter | src/core/applicable_rule.py:184-217 | lists with the same applicable candidates, in any order, give the same state and rate |
| ApplicableRule.RankAndDistanceNeverMatter | src/core/applicable_rule.py:184-217 | so do the same clauses under any other ranks and distances |
| ApplicableRule.ConflictNeverUndone | src/core/applicable_rule.py:203-210 | more candidates never undo a conflict nor change an accepted rate other than into a conflict |
| Judgment.ReasonCodes | src/core/judgment.py:162-180 | the loop appends each open day's code once, in order of first appearance |
| Judgment.ResolveRecommendation | src/core/judgment.py:127-212 | refuses an empty list and mixed currencies; else claims the sum of the chargeable days' invoice rates, supports the sum of the settled days' applicable rates, disputes their excess, counts chargeable and settled days, shows every day's own figures and outcome, and recommends as the days determine |
| Judgment.SumsExactly | src/core/judgment.py:140-156 | the claimed and supported amounts and the two day counts are sums over the days themselves |
| Judgment.JudgedExactly | src/core/judgment.py:79-108 | a judgment shows the day's own figures, and each outcome and the discrepancy are an if-and-only-if on the day |
| Judgment.ClaimedIsConserved | src/core/judgment.py:140-152 | claimed equals supported plus disputed plus the invoice rates of the open days |
| Judgment.DisputedIsExcess | src/core/judgment.py:143-146 | disputed is the settled days' billed total minus their applicable total |
| Judgment.CoverageIsConserved | src/core/judgment.py:153-156 | every chargeable day is covered or open, and full coverage is reported exactly when none is open |
| Judgment.KindExactly | src/core/judgment.py:182-193 | evidence is requested exactly when a day is open or none is chargeable, else a positive excess is disputed and any other approved |
| Judgment.AsDocumentedExactly | src/core/judgment.py:8-17 | the documented outcomes hold if and only if no decision is due, no day is under-billed, or the excess is positive all the same |
| Judgment.ApprovalPaysExactly | src/core/judgment.py:142-193 | an approval supports the claim less the excess: exactly the claim if and only if the excess is zero, more if and only if it is negative |
| Judgment.ApprovalPaysTheClaim | src/core/judgment.py:191-193 | in particular the claim when no day is under-billed |
| Judgment.UnderBillingHidesADispute | src/core/judgment.py:188-193 | an over-billed and an under-billed day together are approved for more than was claimed |
| Judgment.ReasonsExactly | src/core/judgment.py:162-180 | where the last input for its date has an open day's code, the codes are exactly those of the open days |
| Judgment.ReasonsOfDistinctDates | src/core/judgment.py:162-180 | in particular with one input per date |
| Judgment.OwnCodesExactly | src/core/judgment.py:162-180 | every open day is given its own code if and only if the last input for its date has that code |
| Judgment.ReasonsDistinct | src/core/judgment.py:178-179 | no code is given twice |
| Judgment.ReasonsExplainOpenDays | src/core/judgment.py:162-186 | codes are given exactly when some day is open |
| Judgment.RepeatedDateMisexplains | src/core/judgment.py:163-168 | with two inputs for a date an open day can be explained by the other one |
| TemporalReplay.ReadManifest | src/core/temporal_replay.py:163-172 | succeeds exactly when every item names its evidence and no two the same, with exactly those items by id |
| TemporalReplay.CheckRows | src/core/temporal_replay.py:174-210 | succeeds exactly when every row is consistent, in the manifest and returned once; reports ids, bindings and tariff rows |
| TemporalReplay.ValidateReplayRows | src/core/temporal_replay.py:114-270 | returns the view of the rows, and refuses exactly when they have none; the view is of the tenant, case and seal asked for, FILED at seal time, with the values of the first row, the manifest and the tariff row |
| TemporalReplay.ReplaysExactly | src/core/temporal_replay.py:129-270 | what the view means field by field: case, seal, manifest, evidence and tariff row as they are, and intact if and only if the manifest hashes to the stored hash, every row is as its item was sealed and the tariff row still has the sealed clause, capture, rate and digests |
| TemporalReplay.Sha256Exactly | src/core/temporal_replay.py:83-87 | a digest is read exactly from 64 lower-case hexadecimal digits with or without its prefix |
| TemporalReplay.HashForms | src/core/temporal_replay.py:90-94 | a stored hash matches exactly with or without its prefix |
| TemporalReplay.MappingExactly | src/core/temporal_replay.py:47-57 | a mapping is an object or a text that parses to one |
| TemporalReplay.RespondsExactly | src/core/temporal_replay.py:273-279 | a response is refused exactly for different tenants, cases or seals |
| TemporalReplayLaws.IntactMeansSealed | src/core/temporal_replay.py:174-212 | intact bindings mean the stored hash is the manifest's and the rows are exactly its items, each sealed with its content |
| TemporalReplayLaws.SameManifestAgrees | src/core/temporal_replay.py:217-252 | two intact replays of one manifest have the same tariff rate, clause, source and content hashes |
| TemporalReplayLaws.MatchExactly | src/core/temporal_replay.py:273-288 | the tamper check matches if and only if current bindings are intact, the manifest is the sealed one and the tariff version label is unchanged |
| TemporalReplayLaws.MatchCertifies | src/core/temporal_replay.py:273-288 | a match means equal manifests, current rows exactly its items and sealed, equal content under every id, equal rate and hashes then and now |
| TemporalReplayExample.HypothesesHold | src/core/temporal_replay.py:114-270 | one sealed case, read again at any rate, meets every hypothesis of the two match results |
| TemporalReplayExample.MatchesExactlyUntampered | src/core/temporal_replay.py:273-288 | its check matches exactly at the sealed rate |
| Sorting.FilterSort | src/core/reconstruction.py:236-236 | leaving elements out of a stable sort never reorders the rest |
| Sorting.SortOrderFree | src/core/vector_retrieval.py:298-313 | sorting forgets input order when only identical elements tie |

## Left out

- MigrationLaws.Converges: its conditions on one database are sufficient only; the exact conditions are stated over families of databases, in `MarkersConvergeExactly`, `LastConvergesExactly` and `ConvergesExactly`.
- MigrationLaws.EarlyMarkersLoseStatements: uses two statements in place of the file's own; `EarlyMarkersSkip` has the general result.
- Network clients (Bedrock, Titan, SES, S3, SSM, MCP) and the OAuth bootstrap: only their effects appear, as conditional put, versioned store, keyed insert and token exchange.
- Managers without a lease, and the in-process lock: the step system gives every manager the lease and one call at a time. The three entry points that load before `_refresh_with_lease` appear as the `Load` step only.
- Owner names: drawn names are numbered, which makes them unique; a repeated random draw is not modelled. The clock is shared.
- `TokenBundle` JSON text: bundles are values, and what reading one back accepts is a predicate.
- Concurrent migration runners: runs follow one another; a crash can end each of them anywhere.
- The files of `migrations/`: they are any list with distinct names containing the two pre-runner files; the counterexample uses the order of statements in one of them.
- `scripts/annotate_manual_invocations.py`: it rewrites manifests on purpose, outside the write-once rule.
- Headers, byte counts and error texts of manifests, and the texts of log lines: they decide nothing.
- Terminal snapshots and the `terminal` recording target: replay commits tariff targets only.
- Vector arithmetic and SHA-256: parameters. Distances are reals, so rounding does not appear.
- `ClauseDocument` construction checks: the index results hold for all documents, also ones it would refuse.
- `Decimal` infinities and its 28-digit context: a finite decimal is a coefficient and an exponent, the invalid number is a case of its own.
- Rejection code strings: a refusal carries the failed validator, which determines the string.
- Recommendation digest, fingerprint, summary and explanation strings: functions of what is modelled.
- `classify_coverage`, `verify_access_snapshot`, and the worker that stops early when nothing is accepted: flat checks.
- Replay error messages: `validate_replay_rows` raises one exception type, modelled as no view; the display fields of the response are not modelled.
- `src/core/receipt_verifier.py`, `src/core/sealed_memory.py`, `src/core/intake.py`, `src/core/verdict.py`, `src/core/seal_manifest.py`: flat equality checks or small tables.
- `src/core/correspondence.py`, `src/core/clerk_steps.py`, `src/core/extraction.py`: regular expressions and date libraries dominate.
- `capture/tick.py`, auth, UI and the `src/platform` repositories: adapters; the decision pipeline is proved stage by stage.
