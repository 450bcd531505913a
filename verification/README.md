# Export service protocols, modelled and proved

This project models the durable concurrent protocols of an Onshape export service,
together with the validators, parsers and tree walks they rest on, and proves what
they keep: over every interleaving of any number of workers, over every crash point,
and over unbounded inputs.

| file | subject |
|---|---|
| Core, Measured | shared types; bounded copies that measure what they copy |
| Artifacts, Publication | rows of generated artifacts and their transactions; one worker publishing or reconciling |
| PublicationProtocol, PublicationSafety, PublicationRuns | any number of workers over one table and one object store; a worker alone |
| Recovery, PublicationContract | reconcile, then publish from the retained snapshot; publication and reconciliation in terms of rows and objects |
| ProjectProtocol, ProjectSafety | project requests from enqueueing to publication, composed with the publication protocol |
| ProjectOrigins, ProjectRecovery, ProjectConflict | acquisitions and their translation ids; when a bound request recovers, and what prevents it |
| Checkpoint, CheckpointRefinement | the snapshot directory under concurrent producers, crashes and power loss, and how it provides what the request layer assumes |
| JobQueue, JobLeases | the lease queue; attempt numbers as fencing tokens |
| Rationals, Encodings, EncodingProtocol | canonical rationals; configuration encodings and the race to insert one |
| Documents, Processing, ProcessingContract | recipes and the documents in them, prepared and reopened; what preparation accepts |
| Layout, Manifest | invocation files, manifest objects |
| Utf8, PercentCoding, Headers | byte-level codecs and Content-Disposition |

## How the model is built

- **Steps.** One SQL transaction or statement, one storage request, or one file-system
  operation is one atomic step. A worker is a phase and its locals. An event that is not
  enabled changes nothing, so every list of events is a run, and a worker may stop after
  any of its steps.
- **State in place.** Where the source updates rows, objects, files or counters in place,
  a class with methods does so, and each method is proved equal to a function of the old
  state. The machines step by those functions.
- **Digests.** A SHA-256 digest or `hash_json` identity is a constructor over what it is
  computed from, so freedom from collisions holds by construction and is nowhere assumed.
- **Time.** Every clock reading is an arbitrary integer given by the environment, in
  milliseconds; the fixed-width timestamp texts compare as those integers do. Clocks may
  stall or run backwards.
- **Storage.** A write that was sent may land at any later time, any number of times, even
  after its worker is gone. A GET returns one version of an object. Outside corruption is
  an event, excluded only where a result says so.
- **Power loss.** What was not synced may be gone or hold anything; directory entries that
  were not synced may vanish.
- **JSON.** A canonical text is a constructor over the document it prints, printing negative
  zero as zero. What bounds the reader applies, and what a printed number reads back as, are
  parameters, so that results can name the exact condition.
- **Text.** Strings are sequences of Unicode scalar values, and UTF-8 is modelled in full.

## Findings

Some promises hold only under a condition, which is proved exact:

- Attempt numbers fence leases within one generation only. After a retry or a forced
  re-enqueue resets the counter, a stalled holder of attempt 1 can finish the new attempt 1:
  `JobLeases.StaleHolderClosesNewLease`, with the exact condition in `JobLeases.UseIsExact`.
- `max_attempts` bounds recorded failures, not attempts (`JobLeases.RetriesAreBounded`). A
  claim passes it exactly when it reclaims a running job, its lease expired, that has used
  up its attempts (`JobLeases.AttemptPassesMaximum`), and it can do so without end
  (`JobLeases.AttemptsAreUnbounded`).
- Recovery of a bound request succeeds exactly when its stored recipe is readable, its names
  are safe and its artifact row is absent or unsuperseded (`ProjectRecovery.RecoveryIsExact`).
  That assumes translation ids are given out once, as docs/src/project/cache-model.md says
  in lines 22 and 196; `ProjectConflict.RepeatedIdWouldLockOut` shows the need for it. What
  does lock a request out is an operator's withdrawal, or the completion of another request
  for the same source, configuration and options (`ProjectConflict.CompletingRivalLocksOut`).
- Reopening a prepared recipe depends on the JSON reader: its bounds, and that it reads the
  printed doubles back exactly (`Processing.ReopenInvertsPrepare`). A reader that does not
  is shown to lose a recipe in `Processing.SomethingPreparesAndIsLost`. Acquisition works
  from a plan that was itself read back from its canonical text
  (src/onshape_geometry.rs:396-422), so its numbers survive; whether the prepared document
  stays within the bounds remains a condition, named `AcquiresReadable`.
- An export that finds a stored encoding resolves exactly if planning would and the row
  shows a usable query parameter (`EncodingProtocol.ExportHitResolvesExactly`). A planning
  run may store a row that does not, and then exports for its key fail for ever
  (`EncodingProtocol.PlanningBlocksExport`, `EncodingProtocol.NoQueryBlocksExports`).
- `decode_rfc8187_filename` refuses every value that names a language
  (`PercentCoding.LanguagesAreRefused`).

## Model

| member | source | states |
|---|---|---|
| Measured.MeasuringWriter.Write | src/generator_runner.rs:437-451 | one write never crosses the limit: a buffer that could is refused before any byte reaches the file, and count and digest always describe exactly the bytes written, short writes included |
| Measured.MeasuringWriter.CopyFrom | src/generator_output_checkpoint.rs:143-157 | for any chunking and any short writes, a copy that ends well wrote exactly the concatenation, and over a file that makes progress it ends well exactly when the concatenation fits the limit |
| Measured.MeasureCopy | src/generator_output_checkpoint.rs:159-188 | a measured copy is accepted exactly for bytes of the declared length and digest, however the source is chunked |
| Measured.VerifyObjectBody | src/storage.rs:302-330 | the streamed check stops early on excess, yet accepts exactly the streams whose concatenation has the declared length and digest |
| Artifacts.Advance | src/db.rs:2796-2798 | the timestamp expression is strictly later than the stored one under any clock, and otherwise the clock |
| Artifacts.Database.StageOrResumeGeneratorArtifact | src/db.rs:2671-2752 | the transaction on the row table has exactly the effect and answer of the staging function that StageExact characterises |
| Artifacts.FailExact | src/db.rs:2754-2761 | a failed upload demotes a pending unmarked generator row and no other, keeps its declaration, and never changes whether a declaration can be staged |
| Artifacts.FailReadyExact | src/db.rs:2763-2770 | a failed check demotes exactly a ready unmarked row that still carries the revision given, under a new revision, so that repeating the call does nothing |
| Artifacts.Database.CompleteGeneratorArtifact | src/db.rs:2772-2805 | the two-statement transaction has exactly the effect and answer of the completion function that CompleteExact characterises |
| Artifacts.WithdrawExact | src/db.rs:2221-2244 | an operator withdrawal marks exactly an unsuperseded row, keeps its declaration, and afterwards no staging, completion, failure or withdrawal of it succeeds or changes anything |
| Artifacts.StageExact | src/db.rs:2671-2752 | staging succeeds if and only if the arguments agree and the row is new with a free object key, or intact, unsuperseded and declared identically; a resumed row is untouched and a new one is the only change |
| Artifacts.StageOnFields | src/db.rs:2671-2752 | the same column by column: what the file and the request must be, that a row resumed is this declaration in every column, and that a new row is this declaration staged now |
| Artifacts.LoadsExactlyIfResumable | src/db.rs:3363-3428 | an artifact loads if and only if staging what it declares again would resume it |
| Artifacts.CompleteExact | src/db.rs:2772-2805 | completion succeeds exactly on an intact row with the given key; it then makes that row ready under a later timestamp, and of the other rows changes exactly the ready ones equal to it in source, configuration, options and output kind, each superseded by it as replaced |
| Publication.SafeSegmentsAreLogicalPaths | src/generator_publication.rs:40-72 | what target validation admits as a file name, the row checks admit as a logical path |
| Publication.ObjectStore.VerifyExactObject | src/storage.rs:149-177 | absent a fault, the metadata and body checks together accept exactly the declared object |
| Publication.RecordExact | src/generator_publication.rs:126-137 | a failed check demotes the row exactly if it is still pending where a pending one was seen, or still ready at the revision that was seen; one made ready since, or at another revision, is left alone |
| Publication.RetainCandidate | src/generator_publication.rs:164-225 | bytes are retained if and only if the output is of this processing and invocation, its declaration is allowed and true of them, and the retention file does not fail |
| Publication.PublishGeneratorOutput | src/generator_publication.rs:227-326 | the step-by-step publication, with failures at any storage request, refines one function of tables and storage (see Recovery.PublishExact) |
| Publication.ReconcileGeneratorArtifact | src/generator_publication.rs:330-398 | the step-by-step reconciliation refines one function of tables and storage (see Recovery.FailedReconciliation and Recovery.RecoverExact) |
| PublicationProtocol.NextKeepsTable | src/db.rs:2671-2805 | every step of any worker, and every operator withdrawal, keeps the table invariant (intact declarations, one ready row per output, sound and acyclic pointers) and moves every row only forward |
| PublicationProtocol.RunKeepsTable | src/db.rs:2671-2805 | so does every run of any number of workers and recipes |
| PublicationProtocol.OneReadyPerOutput | src/db.rs:2772-2805 | in every reachable state at most one artifact per source, configuration, options and output kind is ready |
| PublicationProtocol.SupersededIsForever | src/db.rs:2590-2592 | no declaration ever changes, and a superseded row never changes at all |
| PublicationProtocol.SupersessionEnds | src/db.rs:2772-2805 | following superseded_by from any row stays within one output and ends, at an unsuperseded row or at one an operator withdrew |
| PublicationProtocol.CompletionKeepsOneReady | src/db.rs:2796-2803 | superseding the ready rivals in the completing transaction is what keeps one ready row per output |
| PublicationProtocol.CompletionKeepsRank | src/db.rs:2796-2803 | new pointers lead to the completed row, which outranks everything, so no cycle can arise |
| PublicationSafety.NextKeepsInv | src/generator_publication.rs:227-398 | every step keeps what workers know: what each staged or loaded is still the declaration of its row, and every write ever issued carries that declaration |
| PublicationSafety.WritesAgree | src/generator_publication.rs:272-305 | all writes ever issued to one key carry identical bytes, those the row declares, even from concurrent or dead workers |
| PublicationSafety.ReadyRowsAreNotUploaded | src/generator_publication.rs:272-305 | a worker that resumed a ready row never uploads: it can only verify |
| PublicationSafety.WithdrawalIsExact | src/generator_publication.rs:126-137 | a failed re-check changes the table if and only if the row is identical to what was read, and then only demotes that row |
| PublicationSafety.WithdrawalSawContinuousReadiness | src/db.rs:2763-2770 | no ABA: if the withdrawal takes effect, the row was ready and unchanged at every moment since the worker read it, with clocks stalled or running backwards |
| PublicationSafety.OnlyCompletionMakesReady | src/db.rs:2772-2805 | a row becomes ready only by a completion, by a worker of that very artifact |
| PublicationSafety.HeadedAt | src/storage.rs:149-177 | a worker that reads an object had first been told, by a request of its own, that it has the declared type and length |
| PublicationSafety.CheckedAt | src/generator_publication.rs:284-325 | a worker about to complete had itself read the exact declared object from storage earlier in the run |
| PublicationSafety.ReadyFollowsOwnCheck | src/generator_publication.rs:227-326 | even with storage corrupted from outside, every transition to ready is preceded by an exact check of the stored object by the completing worker, which had the same job and had seen the same row, reused worker numbers included |
| PublicationSafety.ReadyIsStored | src/generator_publication.rs:227-398 | without outside corruption every ready artifact's object exists with exactly the declared type, length and digest, in every reachable state, late writes included |
| PublicationSafety.StoredStays | src/storage.rs:121-146 | a correctly stored object stays so: every write that can still land at its key carries the same object |
| PublicationSafety.NewRowsAreStaged | src/db.rs:2671-2752 | rows appear only by staging sealed output, declared as the publication target says |
| PublicationSafety.ReadinessEndsExactly | src/db.rs:2763-2805 | a ready row stays ready through every event but three: the completion of another artifact equal to it in source, configuration, options and output kind, a failed check of that very row, and a withdrawal |
| PublicationSafety.RetiredBy | src/db.rs:2763-2805 | over any run, a row ready once and not later was retired in between by one of those events while it was ready |
| PublicationRuns.PublishesAlone | src/generator_publication.rs:227-326 | in the protocol a publishing worker that runs undisturbed, with failures at any storage request, has exactly the effect of the publication function |
| PublicationRuns.ReconcilesAlone | src/generator_publication.rs:330-398 | and a reconciling worker exactly that of the reconciliation function |
| PublicationContract.SafeSegmentsAreShown | src/generator_publication.rs:40-72 | the names targets admit are those of at most 255 characters that url_path_segment leaves as they are, without the dot names and the tilde |
| PublicationContract.PublishOnFields | src/generator_publication.rs:227-326 | fault-free publication succeeds if and only if target, recipe and output agree field by field, the declaration is true of the bytes, and the row is absent with a free key or is this declaration, unsuperseded and, if ready, stored as declared |
| PublicationContract.PublishedOnFields | src/generator_publication.rs:227-326 | success under any faults leaves the row ready with this declaration in every column and the object with the declared type and these bytes under its key |
| PublicationContract.FaultsAreReported | src/generator_publication.rs:227-326 | for publishable output: which failure is reported under any combination of faults, whether the object was written, and whether the row is demoted |
| PublicationContract.ReconcileOnFields | src/generator_publication.rs:330-398 | reconciliation confirms if and only if the row is the target's declaration in every column, unsuperseded, of an allowed result, and the stored object is as declared; it reports absence exactly if there is no row |
| Recovery.RecoverBoundRequest | src/bambu_project.rs:433-468 | reconciliation first and the snapshot only if that fails, once recipe and snapshot are reopened, refines the function RecoverExact characterises |
| Recovery.StagingAdmitsPublishable | src/db.rs:2671-2752 | staging admits a publication exactly when no row, or an intact unsuperseded row of the same declaration, stands at its identity |
| Recovery.PublishExact | src/generator_publication.rs:227-326 | publication with any failures reports success only with the artifact ready under this declaration and these bytes stored; without failures it succeeds exactly when the artifact is publishable and no ready object is damaged; other keys are untouched |
| Recovery.PublishRetiresRivals | src/db.rs:2796-2803 | a publication that stages a new row and succeeds supersedes every ready artifact of the same output |
| Recovery.FailedReconciliation | src/generator_publication.rs:374-397 | a failed re-check leaves the record pending and intact, ready for the snapshot |
| Recovery.RetryPublishes | src/bambu_project.rs:440-468 | after any reconciliation that could not confirm, publishing the snapshot succeeds exactly when it is publishable, damaged ready rows included |
| Recovery.RecoverExact | src/bambu_project.rs:425-468 | one fault-free recovery ends ready with exact bytes if and only if the record is confirmable or the snapshot publishable; what storage holds never matters to the latter |
| ProjectSafety.NextKeepsInv | src/bambu_project.rs:372-553 | every step of every execution, and of the publications they spawn, keeps: bindings complete and about sealed snapshots, jobs and rows declared by a bound request |
| ProjectSafety.PublicationStep | src/bambu_project.rs:425-511 | the request layer refines the publication protocol: each step is at most one of its steps and spawns only jobs of the request that is bound |
| ProjectSafety.BindingIsPermanent | src/db.rs:1854-1888 | recipe hash and snapshot are set together, at most once, and never altered, over all interleavings, crashes and retries |
| ProjectProtocol.BindExact | src/db.rs:1854-1888 | a row is bound if and only if it is this request's and unbound in both columns, or bound to the same recipe and snapshot already |
| ProjectProtocol.ReadingExact | src/bambu_project.rs:372-430 | an execution acquires exactly for a row of its own that is wholly unbound, recovers exactly if the bound recipe is stored and can be read, and ends otherwise |
| ProjectSafety.BoundFitsRequest | src/db.rs:1854-1888 | in every reachable state what a request is bound to is for its source and this deployment, and the snapshot's result truly declares the bytes kept |
| ProjectSafety.BoundReadersNeverReacquire | src/bambu_project.rs:425-468 | an execution that read a bound row never acquires, runs the generator or persists anything |
| ProjectSafety.PublicationsAgree | src/bambu_project.rs:425-553 | all executions that come to publish a request, at any times, publish one recipe, one declaration and the same bytes |
| ProjectSafety.BindingFixesOutput | src/db.rs:1854-1888 | what a request is bound to determines the output down to its bytes |
| ProjectProtocol.StoredRecipeExact | src/db.rs:1901-1921 | the recipe an execution bound is read back identically if and only if its text is within the bounds of the reader and its numbers survive; otherwise reading fails |
| ProjectOrigins.RunKeepsOrigins | src/onshape_geometry.rs:800-905 | every recipe an execution carries, or a request is bound to, was acquired for that very request by one earlier event of the run |
| ProjectOrigins.RecipeFixesRequest | src/generator_inputs.rs:200-228 | a recipe carries its translation ids, so if no id is given out twice, requests bound to one recipe are one request |
| ProjectOrigins.BoundIsReadable | src/onshape_geometry.rs:396-422 | if acquisition accepts only documents that read back as they are, every bound recipe does |
| ProjectSafety.OwnedIsPublishable | src/bambu_project.rs:322-336 | without any assumption on translation ids, the retained output of a bound request is publishable exactly when its names are safe and its artifact row is absent, or its own and unsuperseded |
| ProjectSafety.OwnRowsRecover | src/bambu_project.rs:433-468 | under that condition exactly, recovering from its own recipe succeeds whatever storage holds; for fresh translation ids see ProjectRecovery.RecoveryIsExact |
| ProjectRecovery.RowIsOwn | src/generator_inputs.rs:200-228 | with fresh translation ids a row of a bound request is always its own, so owning it means no more than that it is unsuperseded |
| ProjectRecovery.RecoveryIsExact | src/bambu_project.rs:425-468 | from every reachable state and any storage contents, one fault-free recovery of a bound request ends ready with the exact retained bytes and an unchanged declaration, if and only if its stored recipe is readable, its names are safe and its artifact row is absent or unsuperseded |
| ProjectRecovery.UnsupersededRequestsRecover | src/bambu_project.rs:440-468 | where acquisition accepts only readable documents, a request with safe names recovers exactly unless its artifact is superseded |
| ProjectRecovery.RunRecovers | src/bambu_project.rs:425-468 | the whole branch as steps of the protocol: one execution with one reconciling and one publishing worker, undisturbed, has exactly the effect of the recovery function, reading the stored recipe included |
| ProjectRecovery.RecoveryIsReachable | src/bambu_project.rs:425-468 | so every run that has bound a request can be continued by listed events after which, under that condition exactly, the artifact is ready, alone for its output, with the exact bytes stored |
| ProjectConflict.CompletingRivalLocksOut | src/db.rs:2796-2803 | the condition does fail: in a run with fresh ids and readable recipes a second request that differs only in policy completes, which supersedes the artifact of the first, and from then on no recovery of the first succeeds |
| ProjectConflict.RepeatedIdWouldLockOut | src/db.rs:2717-2745 | and fresh ids are needed: were a translation id repeated, a second request could be bound to the recipe of the first and find a row that is unsuperseded but not its own |
| Checkpoint.CheckpointStore.Reopen | src/generator_output_checkpoint.rs:190-235 | reopening answers exactly from receipt and byte evidence, and syncs the root first |
| Checkpoint.CheckpointStore.Persist | src/generator_output_checkpoint.rs:237-285 | persisting succeeds exactly for valid measured output whose name is free or already reopens; it replaces nothing, and on success the name is durable and reopens to this output |
| Checkpoint.IdentityFixesOutput | src/generator_output_checkpoint.rs:237-257 | a snapshot identity determines the output, bytes included |
| Checkpoint.NextKeepsInv | src/generator_output_checkpoint.rs:237-285 | every producer step, crash and power loss keeps: entries present before the run untouched, all others complete and synced, and every producer's output fit to keep |
| Checkpoint.NamesHoldCompleteSnapshots | src/generator_output_checkpoint.rs:237-285 | at every moment a name holds what it held before the run, or one complete directory whose receipt hashes to it and whose bytes match |
| Checkpoint.NothingIsReplaced | src/generator_output_checkpoint.rs:272-281 | as long as a name is present its files do not change, malformed ones included |
| Checkpoint.LinkedStays | src/generator_output_checkpoint.rs:282-284 | an entry linked durably is never lost or altered again |
| Checkpoint.ReturnedNamesReopen | src/generator_output_checkpoint.rs:190-285 | a name that persist returned reopens to exactly the persisted output ever after, through crashes, power losses and other producers |
| Checkpoint.ProducersAgree | src/generator_output_checkpoint.rs:272-281 | producers that return one name persisted one output |
| Checkpoint.MalformedNamesAreNeverReturned | src/generator_output_checkpoint.rs:273-281 | malformed evidence under a name makes its producers fail, whichever way they meet it |
| Checkpoint.CopiedProducersFinish | src/generator_output_checkpoint.rs:258-284 | from any reachable state a producer anywhere past its copy finishes by itself within eight steps, unless malformed evidence holds its name |
| Checkpoint.PersistsAlone | src/generator_output_checkpoint.rs:237-285 | at any point of any run a new producer left alone returns if and only if its output is fit to keep and its name is free or reopens |
| Checkpoint.SurvivingExact | src/generator_output_checkpoint.rs:258-284 | what a power loss may take: every entry not linked durably, and the content of every snapshot not synced in full |
| CheckpointRefinement.PersistableExact | src/generator_output_checkpoint.rs:122-134 | output is fit to keep if and only if processing, invocation and result are this recipe's, the result is true of the bytes, and the receipt is within its limit |
| CheckpointRefinement.ReopenedExact | src/generator_output_checkpoint.rs:190-235 | a directory reopens to an output if and only if that is fit to keep, the name hashes its receipt, and both files hold it |
| CheckpointRefinement.RetainedStays | src/generator_output_checkpoint.rs:190-285 | seen as the snapshot map the request layer assumes, the directory only grows |
| CheckpointRefinement.RetainedIsSealed | src/generator_output_checkpoint.rs:122-134 | what it retains satisfies the seal publication asks for |
| CheckpointRefinement.ReturnedIsRetained | src/bambu_project.rs:529-553 | persist returning is that layer's atomic step: from then on the map holds the persisted bytes under the identity the request is bound to |
| JobQueue.FirstExists | src/db.rs:2337-2360 | the claim order has a first element on any non-empty set of jobs |
| JobQueue.SomethingIsClaimable | src/db.rs:2337-2370 | if any job is eligible, a first one in claim order is |
| JobQueue.EnqueueExact | src/db.rs:2303-2335 | enqueueing starts the job afresh, without any lease, unless it is queued, running, or ready and not forced; nothing else changes, and enqueueing again does nothing |
| JobQueue.Queue.ClaimNextJob | src/db.rs:2337-2370 | leases a claimable job (JobQueue.ClaimableExact) under the next attempt (JobQueue.LeasedExact), and returns none if and only if no queued job is due and no running lease has expired |
| JobQueue.ClaimableExact | src/db.rs:2347-2355 | the claim order in terms of the rows: due queued jobs before expired ones, then the earlier retry time, counting the creation time where there is none, then the older job |
| JobQueue.LeasedExact | src/db.rs:2340-2346 | a claimed job runs under the next attempt and can be claimed again exactly from the expiry of its lease on |
| JobQueue.Queue.ExtendJobLease | src/db.rs:2372-2381 | takes effect exactly for a running job under the attempt given |
| JobQueue.ExtendExact | src/db.rs:2372-2381 | then the job can be claimed by others exactly from the new expiry on, and nothing else changes |
| JobQueue.Queue.FinishJob | src/db.rs:2383-2408 | takes effect exactly for a running job under the attempt given |
| JobQueue.FinishExact | src/db.rs:2383-2408 | then the job has exactly the status and error given, no lease and no retry time, and no other job changes |
| JobQueue.Queue.RecordJobFailure | src/db.rs:2410-2438 | takes effect exactly for a running job under the attempt given |
| JobQueue.FailureExact | src/db.rs:2410-2438 | then the summary is kept; below the maximum the job can be claimed exactly from the end of the delay on, at the maximum it is failed and never can |
| JobQueue.Queue.SupersedeReadyJob | src/db.rs:2440-2456 | takes effect exactly for a ready job |
| JobQueue.SupersedeExact | src/db.rs:2440-2456 | then the job is superseded, can never be claimed, and keeps its error and attempt |
| JobQueue.RetryExact | src/db.rs:3036-3090 | retrying starts afresh exactly the failed jobs in scope that have a payload; afterwards none is left, and retrying again does nothing |
| JobLeases.NextKeepsInv | src/db.rs:2303-2456 | every queue operation keeps the history sound: claims distinct per generation, uses behind claims, nothing after a close |
| JobLeases.LeasesAreFenced | src/db.rs:2337-2438 | within a generation no attempt is leased twice; every extension or close concerns the newest claim so far; after its close a lease never appears again |
| JobLeases.LeasesAndDelaysAreKept | src/db.rs:2337-2438 | in every run, from a claim, an extension or a failure with attempts left to the next claim of the job, nothing else being logged for it, the lease or the delay passes in full |
| JobLeases.UseIsExact | src/db.rs:2372-2438 | a holder's extend, finish or failure takes effect exactly when the job runs under its attempt number, and then concerns its own lease exactly when the job was not reset since |
| JobLeases.StaleHolderClosesNewLease | src/db.rs:3036-3090 | so fencing fails across resets: a concrete run in which a stalled worker closes the lease another worker holds |
| JobLeases.RetriesAreBounded | src/db.rs:2410-2438 | in one generation at most the maximum number of failures is recorded, and one that made the job failed is the last entry of its generation |
| JobLeases.AttemptPassesMaximum | src/db.rs:2337-2370 | in every run, a claim leases an attempt beyond the maximum if and only if it reclaims a running job, its lease expired, whose attempt has reached the maximum |
| JobLeases.AttemptsAreUnbounded | src/db.rs:2337-2370 | so attempts are not bounded: for every n, claims of 900 seconds under an advancing clock lease a job n times with no failure recorded |
| Rationals.ParseInvertsText | src/configuration_encoding.rs:191-234 | decimal text parses back to its number |
| Rationals.LowestIsUnique | src/configuration_encoding.rs:191-234 | equal fractions in lowest terms with positive denominators are identical |
| Rationals.AcceptsExactlyPrintedLowest | src/configuration_encoding.rs:191-234 | the accepted string pairs are exactly the printed fractions in lowest terms |
| Rationals.CanonicalTextIsUnique | src/configuration_encoding.rs:191-234 | every rational has one accepted pair of strings, and only one |
| Rationals.ValuesExact | src/configuration_encoding.rs:191-234 | a number, a length in metres or an angle in degrees or radians is accepted exactly as a printed fraction in lowest terms, other units never and other kinds of value always |
| Rationals.ValidateTypedValues | src/configuration_encoding.rs:191-234 | the loop that stops at the first bad value accepts exactly the maps all of whose values are accepted |
| Encodings.QueryIsOnlyStricter | src/configuration_encoding.rs:262-306 | a record good for export is good for planning, with the same encoded id |
| Encodings.ExportNeedsQuery | src/configuration_encoding.rs:262-306 | a record is good for export if and only if it is good for planning and shows a usable query parameter of its answer |
| Encodings.ValidIdentifies | src/configuration_encoding.rs:262-306 | a validated record yields the handoff of its own key and id |
| Encodings.ValidateExact | src/configuration_encoding.rs:262-306 | a record is valid if and only if its key, context and request are those expected and its answer shows the record's own id, visible and within the bound, and for an export the record's usable query parameter; the resolution carries the answer's id |
| Encodings.FreshRecordExact | src/configuration_encoding.rs:235-260 | an answer makes a record if and only if its id is visible and within the bound and, for an export, its query parameter usable; the record shows that id and the whole answer |
| Encodings.ExpectedExact | src/configuration_encoding.rs:165-189 | which sources and values are accepted, and what key, context and request they fix |
| Encodings.HandoffExact | src/configuration_encoding.rs:549-579 | a handoff is valid if and only if the stored selection expects its key and the stored row is valid and shows its id |
| Encodings.FreshIsValid | src/configuration_encoding.rs:425-460 | a record built from an acceptable response passes the validation later readers apply |
| Encodings.KeyDeterminesExpected | src/configuration_encoding.rs:165-189 | one key belongs to one origin, source and configuration |
| Encodings.EncodingStore.RetainTypedSelection | src/configuration_encoding.rs:478-498 | inserts the selection if there is none, and succeeds exactly when the stored one is this one |
| Encodings.EncodingStore.Resolve | src/configuration_encoding.rs:373-476 | undisturbed resolution asks the encoder exactly when no row is stored, overwrites nothing, and succeeds exactly when the selection agrees and the stored row, or else the answer, is valid; what it returns is the id and query parameter of the stored answer, or of the encoder's if it was asked |
| EncodingProtocol.NextKeepsResolver | src/configuration_encoding.rs:373-498 | every step of every resolver keeps what the others rely on |
| EncodingProtocol.ResolversAgree | src/configuration_encoding.rs:373-476 | however resolvers race and whatever the encoder answers, all that succeed on a key return the id of the one stored row, for ever |
| EncodingProtocol.ReturnedIdIsAnswered | src/configuration_encoding.rs:373-476 | however resolvers race, the id and query parameter returned are those of an answer the encoder gave for that key during the run, or of the row stored before it |
| EncodingProtocol.LosersAgree | src/configuration_encoding.rs:457-475 | a resolver that lost the race takes the winner's row if and only if that is valid for it and shows the id, and for an export the query parameter, of its own answer |
| EncodingProtocol.ExportsResolveAgain | src/configuration_encoding.rs:340-371 | an export comes to encode only after its own lookup found no row and the version still resolved to what it is bound to |
| EncodingProtocol.HandoffsStayValid | src/configuration_encoding.rs:549-579 | every handoff returned passes validate_handoff in every later state |
| EncodingProtocol.OnlyAbsenceLeadsToEncoding | src/configuration_encoding.rs:373-460 | whoever asks the encoder had read the absence of a row earlier in the run |
| EncodingProtocol.PresentRowsAreFinal | src/db.rs:1253-1278 | a stored row, valid or not, is never overwritten; for its key nobody comes to encode, and if it is invalid nobody succeeds |
| EncodingProtocol.HitResolvesExactly | src/configuration_encoding.rs:363-371 | a resolver that finds a row succeeds, undisturbed, if and only if the row is valid for it and the typed selection is free or agrees |
| EncodingProtocol.ExportHitResolvesExactly | src/configuration_encoding.rs:363-371 | an export that finds a row succeeds if and only if planning would and the row shows a usable query parameter |
| EncodingProtocol.NoQueryBlocksExports | src/configuration_encoding.rs:340-371 | in any run, once a row without a usable query parameter is stored, no export for its key ever resolves |
| EncodingProtocol.PlanningBlocksExport | src/configuration_encoding.rs:425-460 | and a run gets there: planning succeeds, stores such a row, and the export that follows fails |
| Layout.CollectFiles | src/generator_runner.rs:310-328 | declared paths are collected if and only if they are distinct |
| Layout.WalkUp | src/generator_runner.rs:329-338 | the parent chain of a file is its non-empty proper ancestors, refused exactly when one of them is a declared file |
| Layout.New | src/generator_runner.rs:305-344 | succeeds if and only if the declared paths are distinct and none lies beneath another; the directories are then exactly their non-empty proper ancestors |
| Layout.AllReached | src/generator_runner.rs:352-370 | a worklist that runs empty has reached every entry of the tree, by induction on depth |
| Layout.Verify | src/generator_runner.rs:346-381 | the walk ends on every finite tree and accepts exactly when everything on disk is declared with the right kind and everything required is there |
| Layout.FaultsAreFatal | src/generator_runner.rs:346-381 | an inspection that fails on any entry, or on the root, refuses the tree |
| Layout.AcceptsBeforeExactly | src/generator_runner.rs:346-381 | before the run that means: the files are the declared ones minus candidate and result |
| Layout.AcceptsAfterExactly | src/generator_runner.rs:346-381 | after the run: the declared ones, the candidate alone being optional |
| Layout.StagingIsAccepted | src/generator_runner.rs:486-541 | the tree staging builds passes the check before the run, and one that gains the result, or result and candidate, passes the check after it |
| Manifest.WalkParents | src/generator_protocol.rs:603-614 | the parent walk ends on every map, reports exactly the chains that do not end, and what it reports lies on a cycle |
| Manifest.IndexObjects | src/generator_protocol.rs:514-583 | duplicate identities or paths are refused, nothing else is, and the index maps every object |
| Manifest.ValidateObjects | src/generator_protocol.rs:514-615 | accepts if and only if identities and paths are distinct, parents exist and the parent relation is acyclic; a refusal names a real fault |
| Manifest.EndedChainsHaveNoCycle | src/generator_protocol.rs:603-614 | a chain that ends never returns to where it started |
| Manifest.AcyclicChainsEnd | src/generator_protocol.rs:603-614 | without cycles every chain ends, by pigeonhole |
| Manifest.AcyclicIffRanked | src/generator_protocol.rs:603-614 | acyclic parents are exactly those with a rank that decreases along every chain |
| Processing.NormalizeIsIdempotent | src/onshape_annotation.rs:639-645 | normalizing settings twice is normalizing them once |
| Processing.DecideExact | src/deployed_generator.rs:200-233 | a recipe is supported if and only if its compatibility document agrees with the deployed one in all six fields; otherwise the field named differs |
| ProcessingContract.PathsExact | src/generator_protocol.rs:979-1011 | a relative path is one to 64 path names joined by slashes, within 1024 characters |
| ProcessingContract.BlockersExact | src/onshape_annotation.rs:538-583 | blockers are accepted exactly if distinct and at most 256, each with 1 to 64 distinct targets, at most 16,384 targets in all |
| ProcessingContract.ContextExact | src/onshape_annotation.rs:698-741 | settings fit the expected objects if and only if they place them in order with the same numbers in affine matrices, and the blockers are exactly the auxiliary objects, with raw geometry as targets |
| ProcessingContract.ManifestExact | src/generator_protocol.rs:514-615 | a manifest is valid if and only if its identities are those of its content, its objects are distinct in name and path, under inputs/, with ranked parents among them, and if available all is proven and some object is raw geometry |
| ProcessingContract.PrepareExact | src/generator_processing.rs:143-276 | preparation succeeds if and only if manifest, settings, deployment and paths agree as listed |
| ProcessingContract.PreparedRecipe | src/generator_processing.rs:143-276 | and every field of the recipe it makes, with negative zeros written as zero and nothing else changed |
| Processing.PreparedIsInOrder | src/generator_processing.rs:143-276 | a prepared recipe places exactly the manifest's objects, in order, with the expected matrices |
| Processing.OccurrencesExact | src/generator_processing.rs:352-394 | one occurrence per object, in order, with distinct identities |
| Processing.PreparingAgain | src/generator_processing.rs:286-343 | preparing from a prepared recipe's own parts reproduces it |
| Processing.ReopenInvertsPrepare | src/generator_processing.rs:286-350 | reopening a prepared recipe under the same deployment returns the identical value if and only if it is supported, its text is within the reader's bounds and its numbers survive printing and reading; otherwise nothing |
| Processing.ReopenIsExact | src/generator_processing.rs:344-350 | a successful reopen returns precisely the stored hash and text, which hash to each other, and occurrences recomputed in order |
| Processing.EditedRecipesAreRejected | src/generator_processing.rs:344-350 | an edited text under the same hash never reopens, under any deployment |
| Processing.OtherDeploymentsRefuse | src/generator_processing.rs:293-301 | any difference in the deployed document makes a stored recipe unreadable |
| Processing.SomethingPreparesAndReopens | src/generator_processing.rs:143-350 | these statements are about something: a concrete invocation, negative zero included, is prepared and reopens under any reader of exact numbers that admits its text |
| Headers.SplitHeaderParameters | src/onshape.rs:673-705 | the scanning loop computes the split defined by recursion on the header, quoting and escaping respected |
| Headers.UnquoteHeaderValue | src/onshape.rs:707-725 | the unescaping loop computes the unquoting of which ParametersRoundTrip says that it gives quoted and bare values back |
| Headers.ScanEscaped | src/onshape.rs:673-705 | inside quotes an escaped value is collected whole, semicolons included |
| Headers.UnescapeEscaped | src/onshape.rs:707-725 | unescaping inverts escaping on every string |
| Headers.TokensAreReadable | src/onshape.rs:662-670 | every token of section 5.6.2 of RFC 9110 is a name the parser reads back |
| Headers.ParametersRoundTrip | src/onshape.rs:662-670 | parser inverts printer: every list of parameters with token names, each value between quotes or, where it holds no quote, semicolon or outer space, bare, is read back as it was meant |
| Headers.PaddingIsIgnored | src/onshape.rs:662-670 | white space around names and values, any of the 25 characters with that property, changes nothing |
| Headers.LookupExact | src/onshape.rs:645-660 | a name is taken from the first parameter that has it, in any case, with a value |
| Headers.AttachmentNameArrives | src/onshape.rs:624-660 | a name sent as filename* arrives character for character, whatever the fallback and with or without quotes around either |
| Headers.BareNamesArrive | src/onshape.rs:624-660 | so does one in the usual spellings without quotes, filename*=UTF-8''... and filename=token |
| Headers.PlainNameArrives | src/onshape.rs:645-651 | a name sent only as filename arrives character for character, quoted, or bare where it needs no quotes |
| Headers.PublishedNameArrives | src/generator_publication.rs:275-284 | the disposition stored with a published object, written without escaping, reads back as its logical path, because target validation admits only safe names |
| Utf8.DecodeEncode | src/onshape.rs:735-754 | from_utf8 inverts as_bytes on every string |
| Utf8.EncodeDecode | src/onshape.rs:735-754 | and accepts only encodings: no overlong forms, surrogates or truncated sequences |
| PercentCoding.PercentDecode | src/onshape.rs:735-754 | the decoding loop computes the decoding defined by recursion on the bytes |
| PercentCoding.SegmentRoundTrip | src/storage.rs:332-342 | percent_decode inverts url_path_segment on every string |
| PercentCoding.SegmentIsInjective | src/storage.rs:332-342 | distinct strings have distinct segments |
| PercentCoding.SegmentCharacters | src/storage.rs:332-342 | a segment consists of unreserved characters and percent signs |
| PercentCoding.ShownExact | src/storage.rs:332-342 | exactly letters, digits, hyphen, underscore, dot and tilde stand for themselves; everything else becomes an escape |
| PercentCoding.AnyCaseIsRead | src/onshape.rs:757-763 | an escaped text decodes to the same name with its hexadecimal digits in either case |
| PercentCoding.UnescapePath | src/storage.rs:219-230 | decoding a path of encoded segments gives the joined originals, slashes kept |
| PercentCoding.PublicUrlRestoresKey | src/storage.rs:219-230 | the key can be decoded from the path of its public URL, for every key and base |
| PercentCoding.PublicUrlIsInjective | src/storage.rs:219-230 | distinct keys have distinct public URLs |
| PercentCoding.ExtendedRoundTrip | src/onshape.rs:727-733 | an RFC 8187 value with an empty language, in any spelling of the charset, decodes to the name it was made from |
| PercentCoding.OtherCharsetsAreRefused | src/onshape.rs:727-733 | without a language a value decodes if and only if its charset is a spelling of UTF-8 |
| PercentCoding.LanguagesAreRefused | src/onshape.rs:727-733 | a value that names a language is refused, which section 3.2.1 of RFC 8187 would allow |

## Left out

- HTTP, S3, SQLite and asynchronous-runtime mechanics, process spawning, signals and clean-up: only the effect of each step, or its failure, is kept.
- Ordinary (non-generator) artifact rows, `mark_artifact_set_ready`, `transition_artifact_set_status` and `supersede_ready_artifacts_for_output`: unguarded writers of other rows; the invariants are about generator rows and the guarded transitions.
- The recipe, occurrence and object tables beside the artifact row: `load_generator_artifact` also compares them with the prepared recipe; they only add refusals.
- Row deletion and the columns for requests and raw payloads: never written by the generator paths.
- The parts of `validate_deployment`, `validate_prepared` and `validate_profile` that compare the deployment with its own documents, and the catalog, parameter and source checks of `execute_inner`: each only ends an execution early, as an abandoned execution does.
- `enqueue` beyond inserting the request row, `execute_job`'s status mapping, failure codes and categories, and status text: settled by reading one match.
- Acquisition, geometry, annotation carriers and selection: their result, inputs that prepare to a recipe and an accepted output, is chosen by the environment.
- The grammar of `num-bigint` decimal text is taken from that library's documented behaviour: an optional sign, digits and underscores.
- Statuses other than ready, failed and superseded passed to `finish_job`: `Queue.FinishJob` takes any, the lease history only those callers use.
- JSON text bounds on stored evidence, and the constants inside the encoding context: both are fixed per deployment; the context hash keeps all that varies.
- Ownership, permission, symbolic-link and Git-checkout checks: operating-system facts. In `Layout` a symbolic link is an entry of another kind, as `DirEntry::file_type` reports it.
- Files changing while `Layout.Verify` walks them: the generator process has ended by then.
- The receipt's and the recipe's printed length: given as a function, so that the byte limits are part of the conditions.
- The remaining fields of manifests and requests, their digest and media-type grammars, capability ordering and display texts: deterministic checks of single fields, the same at prepare and at reopen.
- `InputManifest::validate` returns the first failure of all its checks; `Manifest.ValidateObjects` covers the checks across objects, in their order.
- Headers that are not visible ASCII never reach `content_disposition_parameters`; the model parses any string.
- `delete_prefix`, object listing, metrics and export request templates: no invariant spans them.
- Recovery.RecoverBoundRequest: starts once the stored recipe and the snapshot have been reopened; the whole branch is proved as a run, `ProjectRecovery.RunRecovers`.
- Translation ids are fresh by hypothesis on the run (`FreshTranslations`), since the remote gives them out.
