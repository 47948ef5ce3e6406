# Verified models of the audit ledger, folder agent, uploads and governance rules

This project models the stateful and algorithmic cores of the repository in Dafny and proves
what their callers rely on. `dafny verify dfyconfig.toml` checks everything.

Each module models one source file, or one half of a large one.

| module | what it models |
|---|---|
| `TenantScope` | tenant scopes, their equality and their storage key |
| `AuditLedger`, `AuditVerification` | the hash-chained, multi-tenant audit ledger: append with idempotency keys; the verifier that regroups and re-sorts; seals |
| `RelativePaths`, `GrantContainment`, `ReversibleMove`, `OverlappingCommits` | the reversible file mover: path containment on the level of characters, collision-free names, plan, commit and undo as single file-system steps on a disk that may store wrong bytes, and all interleavings of commits that overlap |
| `StableFileDetector` | the debounce detector, as a class over its pending map and content index |
| `FolderIntake` | the intake service, with every admission split at its `await` and all interleavings of the two sections |
| `FolderSync` | the sync queue, with every flush suspended at each upload and all interleavings with enqueue and reject |
| `ArtifactUpload` | the domain's upload session state machine |
| `MultipartPlan` | the provider port's multipart plan, parts, receipts and complete request, and its agreement with `ArtifactUpload` |
| `UtcTimestamps` | the arbitrary-precision UTC timestamp comparator (RFC 3339, section 5.6) and the deadline check |
| `LocaleNegotiation` | Accept-Language negotiation (RFC 9110, sections 12.5.4 and 12.4.2) |
| `ArtifactGovernance` | derived versions, content placements and evidence references, and stores built only through their constructors |
| `DataQuality` | rule evaluation, repair preview and repair |
| `Common`, `StableSort`, `Decimal`, `PartArithmetic` | shared values, the stable sort `Array.prototype.sort` promises, decimal rendering, ceiling division |

Four conventions hold throughout.

* Code that changes state step by step is a class or a method whose contract equates the new state
  with a function of the old one. The laws are proved about that function, over whole runs where
  there are runs.
* Hashing, JSON layout, Unicode normalisation, `Intl`, `Date.parse` and the regular-expression field
  checks are function-valued parameters (`Port`, `Formats`, `Intl`, `fingerprint`). Nothing is
  assumed of them except where a lemma names it: digests that `text` leaves alone in
  `ReachableLedgerVerifies`, no canonical tag written `*` in `ConsolidationIsInvisibleInHeaders`. No
  digest is assumed injective: the tamper-evidence results end in equal events or in a collision.
* Input that a parser may refuse is an `Option`; the source's error codes are kept, in the source's
  order.
* An operation that can refuse has a lemma saying, about its result alone, which inputs it accepts,
  what it then answers, and which first fault each code names (`AppendAcceptedIff`,
  `UndoAcceptedIff`, `RecordAcceptedIff` and their like). A text that is read has one saying what it
  means for every text (`TimestampsAreTexts`, `CandidatesAreSaid`, `NormalizedIs`).

## Where the code promises less than one might expect

* **Digest normalisation.** Append stores the digest after `text(...)`; verify compares the raw one.
  An append keeps a ledger verifiable exactly when `text` leaves the new digest alone
  (`AppendedLedgerVerifiesIff`); `PaddedDigestFailsVerification` is a port for which it does not.
* **Grant prefixes.** Planning never leaves a grant exactly when every prefix named after a directory
  that planning would accept is not the empty one and, if its slash-terminated form ends in a doubled
  slash, is covered by another prefix (`PlansStayInsideIff`). The grant `in`, `in//` is such a one, and
  so is `in`, `..//`; `in//` alone is not (`CoveredDoubledSlash`, `UnusableDoubledSlash`,
  `LoneDoubledSlash`). With the prefix `""` an accepted plan moves `in/a` to `/a`
  (`EmptyPrefixPlansOutsideGrant`).
* **Absolute destinations.** Absolute input is refused, but the plan for the empty directory or for a
  bare drive such as `C:` is an absolute path, and for no other directory
  (`PlannedDestinationAbsoluteIff`).
* **Undo.** It does not check what its rename landed. It gives back the original file map exactly when
  those are the original bytes (`UndoRestoresCommit`).
* **Overlapping commits.** Every call of a commit is awaited and nothing reserves its destination. What
  is said of one commit is said of a commit nobody overlaps. However commits overlap, none overwrites a
  file exactly when no two verified copies share a destination (`OverlapNeverOverwritesIff`); two that
  do can both finish and leave only the second file (`SharedLosesContent`).
* **Event keys.** Intake looks at the event ledger only before its `await`. Two waiting admissions of
  one event that resume one after the other are both admitted exactly when each read on its own would
  be, and the two reads differ in content and in any period and duplicate key they carry
  (`OverlapAdmitsTwiceIff`); with other admissions between them, exactly when each read is admissible
  to the ledgers it meets (`OverlapBetweenIff`). Both are said of an empty pending map, which intake
  always finds when it is the detector's only user. `BurstAdmitsTwiceIff` is about two watcher events
  from the start. Without overlap it cannot happen
  (`OneAdmissionPerEvent`).
* **Rejecting during a flush.** A flush sends its snapshot. It holds nothing that was rejected before
  the flush began (`FlushSendsNothingRejectedBefore`); a projection rejected later can still be sent
  exactly when a flush under way has an item of it ahead of the one it awaits (`RejectedIsSentIff`).
* **Queue keys.** Items that share a key share a place in the queue. No item is ever lost exactly when
  the key tells items apart (`NoItemIsLostIff`). The source joins id, version, class and bytes with
  colons before hashing, so a projection id that itself holds colons can meet another one's key.
* **Circles of derivation.** The guard refuses a version as its own source, not as a source of its
  ancestors. A registration keeps the lineage free of circles exactly when no source descends from the
  version (`RegistrationKeepsAcyclicIff`); a version stored as an original and registered again as
  derived closes one (`RederivedOriginalClosesCircle`).
* **Affected rows.** `allowNull` takes null rows out of the denominator but not out of the affected
  rows. The count stays within the denominator exactly when the null rows that break the rule are no
  more than the other rows that do not (`AffectedWithinDenominatorIff`, `NullRowExceedsDenominator`).
* **Repair evidence.** Where operations share a cell, an operation finds another value than the
  preview showed exactly when an earlier one left it there; the recorded evidence differs exactly when
  the fingerprints of the two values do (`EvidenceMatchesPreviewIff`).
* **Part-count cap.** Under the declared size limits a plan never has more than 2560 parts, so the
  10,000-part check of the provider port cannot fail (`CapUnreachable`).

## Model

| member | source | states |
|---|---|---|
| TenantScope.ScopeKeyIdentifiesScope | packages/domain/src/tenant-scope/v1.ts:127-173 | Two scopes have the same storage key if and only if they are the same scope, which is also what the field-by-field comparison decides |
| AuditLedger.FindFinds | packages/domain/src/audit/v1.ts:280-284 | The lookup by idempotency key and scope returns a stored event with both, or there is none |
| AuditLedger.AppendAcceptedIff | packages/domain/src/audit/v1.ts:253-322 | For a record that says what the input says and stands behind its scope, an append to any ledger is accepted if and only if the first stored event under its key, if any, is the very same event and a new event's digest has a text; a foreign event under the key is a conflict, a digest without a text an invalid chain |
| AuditLedger.RecordExistsIff | packages/domain/src/audit/v1.ts:253-312 | There is such a record if and only if no field is missing, for all four actor types, and both texts have a text |
| AuditLedger.AppendRefusesFirstFault | packages/domain/src/audit/v1.ts:253-289 | An append with a field missing is refused with the code of the first missing group: identifiers, action, scope, actor, texts, revision and time, summary |
| AuditLedger.AppendReplaysOrExtends | packages/domain/src/audit/v1.ts:280-322 | An accepted append (`AppendAcceptedIff` says which are) either replays a stored event of the same scope, key and id and leaves the ledger alone, or adds one event that carries the input, is new under its key, continues its scope's sequence and links to its last digest |
| AuditLedger.StepKeepsWellFormed | packages/domain/src/audit/v1.ts:280-322 | One append keeps every scope linked 1, 2, 3, ..., idempotency keys distinct within a scope, and digests as the port gave them |
| AuditLedger.RunKeepsWellFormed | packages/domain/src/audit/v1.ts:253-322 | So does every interleaved run of appends over any number of scopes |
| AuditLedger.RunOnlyAppends | packages/domain/src/audit/v1.ts:314-322 | No run removes, changes or reorders a stored event |
| AuditLedger.StepStaysInScope | packages/domain/src/audit/v1.ts:280-322 | What one append does to a scope depends on that scope's events alone, and it does nothing to any other scope |
| AuditLedger.ProjectionIsOwnRun | packages/domain/src/audit/v1.ts:253-322 | Non-interference: the events of a scope after any interleaved run are those of its own appends run alone |
| AuditLedger.ReplayReturnsTheSameEvent | packages/domain/src/audit/v1.ts:280-289 | After any later appends of anyone, repeating an accepted append returns its first event and the unchanged ledger |
| AuditLedger.ReusedKeyConflicts | packages/domain/src/audit/v1.ts:285-289 | A used idempotency key answers the stored event for the same event id and a conflict for every other |
| AuditVerification.VerifyScope | packages/domain/src/audit/v1.ts:336-345 | The loop over one ordered scope accepts exactly the chains in which every position has its sequence, its predecessor's digest and a digest that recomputes |
| AuditVerification.GroupByScope | packages/domain/src/audit/v1.ts:328-334 | The map holds exactly the scopes that occur, each with its events in arrival order |
| AuditVerification.VerifyAuditChain | packages/domain/src/audit/v1.ts:324-348 | Grouping, sorting and checking accept a list if and only if, as a bag, its digests recompute, no position is taken twice and every event has its predecessor |
| AuditVerification.VerdictIsConsistency | packages/domain/src/audit/v1.ts:324-348 | The sorted, position-by-position verdict equals that order-free description |
| AuditVerification.VerdictIgnoresOrder | packages/domain/src/audit/v1.ts:334-336 | Every permutation of the input gets the same verdict, ties in sequence included |
| AuditVerification.ReachableLedgerVerifies | packages/domain/src/audit/v1.ts:253-348 | Every ledger reachable from empty by any interleaving of appends verifies, for ports whose digests `text` leaves alone |
| AuditVerification.AppendedLedgerVerifiesIff | packages/domain/src/audit/v1.ts:312-358 | A verified ledger still verifies after an append that adds an event if and only if `text` left that event's digest alone |
| AuditVerification.PaddedDigestFailsVerification | packages/domain/src/audit/v1.ts:312-358 | There are a port and an append that is accepted and yields a ledger verify refuses |
| AuditVerification.SharedDigestSharesHistory | packages/domain/src/audit/v1.ts:194-211 | Two accepted chains that share a digest anywhere agree on its position and on everything before it, or the two chains hold two different records with one digest |
| AuditVerification.TamperEvidence | packages/domain/src/audit/v1.ts:324-358 | Two accepted single-scope lists ending in the same digest hold the same events, of the same scope, or they hold two different records with one digest |
| AuditVerification.SealCoversFromOne | packages/domain/src/audit/v1.ts:360-396 | A seal starts at sequence 1 and ends at its event count, which is the number of the scope's events |
| AuditVerification.SealGrantedIff | packages/domain/src/audit/v1.ts:360-396 | A seal is granted if and only if the scope has events, they are consistent and the root digest has a text |
| AuditVerification.SealRefusesFirstFault | packages/domain/src/audit/v1.ts:360-396 | A seal is refused for a missing scope, then a missing time, then a scope no event has; every other refusal is an invalid chain |
| AuditVerification.SealPinsEvents | packages/domain/src/audit/v1.ts:360-396 | Two seals with the same root digest were made over the same events of the same scope, or the sealed events hold a collision of the digest or of the root |
| AuditVerification.SealSurvivesLaterAppends | packages/domain/src/audit/v1.ts:360-396 | After any later appends the first eventCount events of the scope still make the very same seal, root digest included |
| RelativePaths.NormalizedIs | apps/desktop/src/application/reversible-file-move.service.ts:49-51 | Normalisation drops the leading slashes of either kind, turns the other backslashes and changes nothing else |
| RelativePaths.AbsoluteIffAtRoot | apps/desktop/src/application/reversible-file-move.service.ts:53-55 | A path is absolute if and only if it begins with a slash of either kind, or with a drive letter, a colon and one |
| RelativePaths.EscapesIffDotDotComponent | apps/desktop/src/application/reversible-file-move.service.ts:49-65 | The four string tests hold if and only if `..` is one of the slash-separated components of the normalised path |
| RelativePaths.WithinPrefixIff | apps/desktop/src/application/reversible-file-move.service.ts:67-73 | A path is within a prefix if and only if it is the directory the prefix names, one slash at its end left out, or lies below it |
| RelativePaths.CandidateShape | apps/desktop/src/application/reversible-file-move.service.ts:84-95 | The first probe is the file name below the directory; probe k puts -k in front of the last dot, or at the end of a name without one |
| RelativePaths.CandidateInjective | apps/desktop/src/application/reversible-file-move.service.ts:84-95 | Different probes try different names, for every file name |
| RelativePaths.CandidateDoesNotEscape | apps/desktop/src/application/reversible-file-move.service.ts:84-95 | Suffixing a plain name below a directory that does not escape never makes a path that does |
| RelativePaths.TidyPrefixContains | apps/desktop/src/application/reversible-file-move.service.ts:67-73 | Under a tidy prefix, whatever plain name is put into a contained directory is contained |
| RelativePaths.PrefixContainsIffTidy | apps/desktop/src/application/reversible-file-move.service.ts:67-73 | A prefix alone contains every such name if and only if it is tidy |
| GrantContainment.GrantContainsIffTidy | apps/desktop/src/application/reversible-file-move.service.ts:67-73 | A whole grant contains every plain, non-empty name put into every contained directory that is neither absolute nor escaping if and only if each prefix named after such a directory is not the empty one and, ending in a doubled slash, is covered by another prefix |
| GrantContainment.CoveredDoubledSlash | apps/desktop/src/application/reversible-file-move.service.ts:67-73 | The grant of `in` and `in//` meets that condition |
| GrantContainment.LoneDoubledSlash | apps/desktop/src/application/reversible-file-move.service.ts:67-73 | The grant of `in//` alone does not |
| GrantContainment.UnusableDoubledSlash | apps/desktop/src/application/reversible-file-move.service.ts:57-73 | The grant of `in` and `..//` does, since no accepted directory is `../` |
| ReversibleMove.FirstFreeExists | apps/desktop/src/application/reversible-file-move.service.ts:89-95 | Pigeonhole: among the first number-of-files plus one probes one is free |
| ReversibleMove.UniqueDestination | apps/desktop/src/application/reversible-file-move.service.ts:79-96 | Probing ends within number-of-files plus one probes at the first name not in use |
| ReversibleMove.PlanMove | apps/desktop/src/application/reversible-file-move.service.ts:99-146 | A plan is rejected with the first guard that fails, else it fingerprints the source and names the first free destination below the requested directory |
| ReversibleMove.PlanAcceptedIff | apps/desktop/src/application/reversible-file-move.service.ts:99-118 | A request passes if and only if both paths are relative, neither has a `..` component, both lie in a directory of the grant and the source is there; it is refused with the first of these that fails |
| ReversibleMove.PlannedDestinationDoesNotEscape | apps/desktop/src/application/reversible-file-move.service.ts:105-133 | For all strings, no planned destination has a `..` component |
| ReversibleMove.PlannedDestinationStaysInGrant | apps/desktop/src/application/reversible-file-move.service.ts:105-133 | For all strings and files, an accepted request plans inside a grant that meets that condition |
| ReversibleMove.PlansStayInsideIff | apps/desktop/src/application/reversible-file-move.service.ts:99-133 | No accepted request over any files ever plans a destination outside the grant if and only if the grant meets that condition |
| ReversibleMove.PlannedDestinationAbsoluteIff | apps/desktop/src/application/reversible-file-move.service.ts:53-55 | Although absolute input is refused, an accepted request plans an absolute path if and only if its directory is empty or a bare drive |
| ReversibleMove.EmptyPrefixPlansOutsideGrant | apps/desktop/src/application/reversible-file-move.service.ts:67-95 | With the prefixes `in` and the empty one, moving `in/a` into the empty directory is accepted and plans `/a`, outside the grant |
| ReversibleMove.CommitMove | apps/desktop/src/application/reversible-file-move.service.ts:149-192 | The commit's file-system steps leave exactly the specified sequence of file maps and the specified answer, for whatever the disk stores and whatever lands |
| ReversibleMove.CommitAcceptedIff | apps/desktop/src/application/reversible-file-move.service.ts:149-192 | For any plan, files and disk, a commit is accepted if and only if the plan is named, the source has the expected and the planned fingerprint, the destination is free and both copies verify; it is refused with the first of these that fails, and the receipt says what was moved |
| ReversibleMove.CopyStandsAside | apps/desktop/src/application/reversible-file-move.service.ts:166-186 | Past its guards a commit first puts what the disk stores under a suffixed name; a copy that does not verify goes again, one that does is published |
| ReversibleMove.CommitNeverLosesContent | apps/desktop/src/application/reversible-file-move.service.ts:166-179 | At every intermediate state bytes with the planned fingerprint stand at the source or at the destination |
| ReversibleMove.CommitOverwritesNothing | apps/desktop/src/application/reversible-file-move.service.ts:162-179 | No step gives an existing file other bytes, and only the temporary name, the source and the destination come or go |
| ReversibleMove.CommitEndsCleanly | apps/desktop/src/application/reversible-file-move.service.ts:149-192 | A rejected commit leaves the file map as it was; an accepted one moved the file and touched nothing else |
| ReversibleMove.UndoMove | apps/desktop/src/application/reversible-file-move.service.ts:195-213 | Undo renames the file back, landing whatever the disk lands, if and only if those four conditions hold; otherwise it is refused and touches nothing; it never overwrites a file |
| ReversibleMove.UndoAcceptedIff | apps/desktop/src/application/reversible-file-move.service.ts:195-213 | For any receipt and files, an undo is accepted if and only if the receipt is named, the moved file is there, its old place is free and it has the receipt's fingerprint; it is refused with the first of these that fails, and moves that one file or nothing |
| ReversibleMove.UndoRestoresCommit | apps/desktop/src/application/reversible-file-move.service.ts:149-213 | After an accepted commit undo succeeds; it restores the original file map if and only if its rename lands the original bytes, and when that rename keeps its bytes, if and only if the commit kept them, which an injective fingerprint forces |
| OverlappingCommits.AloneIsCommit | apps/desktop/src/application/reversible-file-move.service.ts:149-192 | The single steps of one commit, alone, end after at most eight with the files and the verdict of the commit |
| OverlappingCommits.GoneFileStops | apps/desktop/src/application/reversible-file-move.service.ts:162-179 | A call on a file that is gone ends its commit and changes nothing |
| OverlappingCommits.OverlapKeepsContent | apps/desktop/src/application/reversible-file-move.service.ts:155-179 | However any number of commits overlap and whatever the disk stores, while no two verified copies share a destination the content of each is at its source or at the destination of a commit of that source |
| OverlappingCommits.OverlapNeverOverwritesIff | apps/desktop/src/application/reversible-file-move.service.ts:162-173 | However commits that each pass their guards overlap, no step overwrites an existing file if and only if no two whose copies verify were planned into one destination |
| OverlappingCommits.SharedLosesContent | apps/desktop/src/application/reversible-file-move.service.ts:162-179 | On a disk that keeps every byte, two commits of different sources into one destination can both finish and leave only the second file |
| StableFileDetector.Detector.ObserveFile | apps/desktop/src/application/stable-file-detector.ts:72-126 | One observation changes the pending map, and its insertion order, and answers as the detector's transition function says |
| StableFileDetector.Detector.Tick | apps/desktop/src/application/stable-file-detector.ts:128-137 | A tick removes exactly the entries pending for too long and reports them in insertion order |
| StableFileDetector.Detector.RestartWatcher | apps/desktop/src/application/stable-file-detector.ts:143-145 | A restart forgets what was pending and keeps the content index |
| StableFileDetector.PartialIffName | apps/desktop/src/application/stable-file-detector.ts:50-58 | A path is a partial or lock file if and only if the name after its last slash, of either kind, begins with `~$` or ends in one of the four extensions |
| StableFileDetector.ObserveDecides | apps/desktop/src/application/stable-file-detector.ts:72-126 | In any state, a partial file is refused, another is pending unless its stamp has held for the debounce interval, and then the answer tells remembered content from new; only that path leaves the pending map or changes in it |
| StableFileDetector.PendingEntryIs | apps/desktop/src/application/stable-file-detector.ts:77-106 | A path that stays pending has the stamp and content last told, the time its stamp last changed and the time it was first seen |
| StableFileDetector.ContentIsRemembered | apps/desktop/src/application/stable-file-detector.ts:139-141 | After any run the index knows exactly the contents that were remembered |
| StableFileDetector.ExpiredIffSeenLongAgo | apps/desktop/src/application/stable-file-detector.ts:128-137 | After any run a tick expires exactly the paths that have been pending without a break since they were first seen, at least the longest pending time ago |
| StableFileDetector.PendingIsAnchored | apps/desktop/src/application/stable-file-detector.ts:77-106 | After any run, each pending entry's stamp was first shown at its recorded time and nothing has disturbed it since |
| StableFileDetector.StableMeansStill | apps/desktop/src/application/stable-file-detector.ts:104-125 | STABLE at t means that the same size and time were first shown no later than t minus the debounce and no observation of the path since carried another stamp |
| StableFileDetector.RestartCountsAnew | apps/desktop/src/application/stable-file-detector.ts:143-145 | After any run, the first look at a whole file after a restart is pending, however long the file had been still |
| FolderIntake.FolderIntakeService.BeginAdmission | apps/desktop/src/application/folder-intake.service.ts:76-95 | The section before the await: escape, profile and event-key checks, with the new state and the decision they give |
| FolderIntake.FolderIntakeService.FinishAdmission | apps/desktop/src/application/folder-intake.service.ts:96-167 | The section after it: the fingerprint checks in order, up to two looks at the detector, and the ledgers updated only for an admission |
| FolderIntake.ProfileIffSuffix | apps/desktop/src/application/folder-intake.service.ts:46-51 | The profile of a path is told by its extension, in either case |
| FolderIntake.BeginDecides | apps/desktop/src/application/folder-intake.service.ts:76-95 | Before the await a path that escapes is refused first, then an extension of no supported profile, then an event already admitted; only the queue changes, by one full review item for each quarantine |
| FolderIntake.FinishDecides | apps/desktop/src/application/folder-intake.service.ts:96-190 | After the await the file is refused for the first of the reading's reason, a foreign schema, a taken period, a taken duplicate key; otherwise the detector's answer decides; each quarantine queues its full review item |
| FolderIntake.TwoLooksDecide | apps/desktop/src/application/folder-intake.service.ts:116-151 | For any pending map and any two debounces, the two looks release a whole file if and only if its stamp has held by one of the two times, told apart by whether its content is remembered |
| FolderIntake.FinishAdmitsOnce | apps/desktop/src/application/folder-intake.service.ts:96-167 | An admission needs a content, period and duplicate key not seen before, and the ledgers grow by exactly what it used; a quarantine adds exactly its own review item |
| FolderIntake.AtMostOneAdmission | apps/desktop/src/application/folder-intake.service.ts:101-158 | In every interleaving, with others using the detector in between, no two admissions share a content fingerprint, a period key or a duplicate key |
| FolderIntake.OneReviewPerQuarantine | apps/desktop/src/application/folder-intake.service.ts:177-190 | The review queue is exactly the QUARANTINE decisions, in order, with their event ids and reasons |
| FolderIntake.ReviewQueueOnlyGrows | apps/desktop/src/application/folder-intake.service.ts:177-190 | No step removes or changes a review item |
| FolderIntake.EventKeyIdentifies | apps/desktop/src/application/folder-intake.service.ts:91 | The event key is injective in path, size and time for all paths, bars in them included |
| FolderIntake.OneAdmissionPerEvent | apps/desktop/src/application/folder-intake.service.ts:91-153 | When admissions of one event never overlap, each event is admitted at most once in the whole run |
| FolderIntake.OverlapAdmitsTwiceIff | apps/desktop/src/application/folder-intake.service.ts:92-158 | For any two reads, two waiting admissions of one event that resume one after the other are both admitted if and only if each read passes every check as the ledgers stand, the path is whole and each content new, and the two differ in content and in any period and duplicate key they carry |
| FolderIntake.OverlapBetweenIff | apps/desktop/src/application/folder-intake.service.ts:92-158 | With any other admissions begun and finished in between, two admissions of one event are both admitted if and only if each read is admissible to the ledgers it meets, and then the two differ in content and in any period and duplicate key |
| FolderIntake.RepeatedArrivalWaitsTwice | apps/desktop/src/main/folder-watcher-lifecycle.ts:64-71 | An arrival that passes the checks before the await passes them again while the first waits |
| FolderIntake.BurstAdmitsTwiceIff | apps/desktop/src/main/folder-watcher-lifecycle.ts:64-71 | From the start, two watcher events in a row admit one event twice under exactly that condition |
| FolderIntake.TwoLooksSettle | apps/desktop/src/application/folder-intake.service.ts:116-151 | With an equal debounce, two looks leave an empty pending map empty, never answer PENDING, and answer STABLE if and only if the path is whole and the content new |
| FolderIntake.IntakeNeverAnswersPending | apps/desktop/src/main/index.ts:160-172 | With intake the detector's only user and the debounces equal, no admission in any interleaving is answered PENDING, whatever the clock says |
| FolderSync.FolderSyncService.EnqueueApprovedProjection | apps/desktop/src/application/folder-sync.service.ts:58-82 | A rejected projection is refused with its reason and nothing changes; any other is put under its key |
| FolderSync.FolderSyncService.Flush | apps/desktop/src/application/folder-sync.service.ts:84-106 | A flush nobody overlaps delivers a prefix of the queue in insertion order, stops at the first failure with its reason and keeps the rest unchanged |
| FolderSync.FolderSyncService.MarkProjectionRejected | apps/desktop/src/application/folder-sync.service.ts:108-113 | The deleting loop leaves exactly the items of other projections, in their places, and remembers the reason |
| FolderSync.EnqueueRefusedIff | apps/desktop/src/application/folder-sync.service.ts:58-113 | After any interleaving, enqueueing is refused if and only if the projection was rejected, with the reason of its last rejection, and is otherwise queued under its key |
| FolderSync.AnsweredWereQueued | apps/desktop/src/application/folder-sync.service.ts:58-82 | The items answered QUEUED in a run are exactly those enqueued while their projection was not rejected |
| FolderSync.PutFacts | apps/desktop/src/application/folder-sync.service.ts:76-80 | Setting a key keeps keys distinct and changes that key's item only |
| FolderSync.PutKeepsOrder | apps/desktop/src/application/folder-sync.service.ts:76-80 | A new key goes last, a known key keeps its place |
| FolderSync.DeliveriesDrain | apps/desktop/src/application/folder-sync.service.ts:84-106 | Nobody overlapping, n deliveries of a flush take the first n items out of the queue and into what the server accepted, and change nothing else |
| FolderSync.NothingQueuedIsLost | apps/desktop/src/application/folder-sync.service.ts:58-113 | In every interleaving of enqueues, rejections and any number of overlapping flushes, each key ever answered QUEUED is still queued, was accepted by an upload or belongs to a rejected projection; so is each item, down to its own projection and bytes, unless another item shares its key; and no queued item belongs to a rejected projection |
| FolderSync.NoItemIsLostIff | apps/desktop/src/application/folder-sync.service.ts:66-80 | No run ever loses an item if and only if the key tells items apart |
| FolderSync.FlushSendsNothingRejectedBefore | apps/desktop/src/application/folder-sync.service.ts:88-93 | No running flush holds an item of a projection rejected before that flush began |
| FolderSync.RejectedIsSentIff | apps/desktop/src/application/folder-sync.service.ts:88-112 | After a rejection in any state, some continuation starts an upload for the projection if and only if a flush already under way has an item of it ahead of the one it awaits |
| FolderSync.RejectedDuringFlushIsStillSent | apps/desktop/src/application/folder-sync.service.ts:88 | An instance from the start: two projections queued, a flush begun, the second rejected; after the first upload the second is still the next to be sent |
| PartArithmetic.CeilDivBounds | packages/domain/src/artifact-upload/v1.ts:166 | The part count is the one whose last part is neither empty nor longer than a part |
| PartArithmetic.CeilDivAtMost | packages/domain/src/artifact-upload/v1.ts:166 | The part count is the least one, and at least 1, whose parts hold everything |
| PartArithmetic.CountIsUnique | packages/provider-ports/src/ports-v1.ts:130 | No other count has that property |
| ArtifactUpload.CreatedIsValid | packages/domain/src/artifact-upload/v1.ts:120-190 | An accepted creation is a valid open session at revision 1 with the agreed terms |
| ArtifactUpload.CreateAcceptedIff | packages/domain/src/artifact-upload/v1.ts:120-190 | Creation is accepted if and only if every field parses, the sizes are in their limits, the expiry is not known to be at or before the creation and 10,000 parts are enough; the refusals come in the order of the fields |
| ArtifactUpload.CreatedHasTheTerms | packages/domain/src/artifact-upload/v1.ts:166-189 | The session created says exactly what was agreed, with the fewest parts that hold the expected bytes |
| ArtifactUpload.RecordAcceptedIff | packages/domain/src/artifact-upload/v1.ts:192-240 | Recording is accepted if and only if the session is open, the upload not after the expiry, the revision its own, the part well formed and of its place's size, and what is recorded under its number is the same content; otherwise the code is that of the first of these that fails |
| ArtifactUpload.RecordAddsThePart | packages/domain/src/artifact-upload/v1.ts:225-239 | An accepted recording of a recorded number changes nothing; that of a new one adds this one part in its place and raises the revision |
| ArtifactUpload.RecordStaysValid | packages/domain/src/artifact-upload/v1.ts:192-240 | Recording keeps parts strictly increasing, in range, and every part but the last exactly of part size |
| ArtifactUpload.BeginAcceptedIff | packages/domain/src/artifact-upload/v1.ts:242-259 | Finalization begins if and only if the session is open, the revision its own, the digest well formed, the parts are 1 to the last in order, their bytes the expected size and the digest the expected one; otherwise the code is that of the first of these that fails |
| ArtifactUpload.EndingAcceptedIff | packages/domain/src/artifact-upload/v1.ts:261-323 | Completing, aborting and expiring are each accepted exactly under their own conditions, with their own codes, and change the state, the revision and the verified object only |
| ArtifactUpload.SizeCheckDecides | packages/domain/src/artifact-upload/v1.ts:250-254 | With all parts present they are numbered 1, 2, 3, ..., and the sum check passes if and only if the last part is what the full ones leave over, an amount that always fits |
| ArtifactUpload.TotalsAreSafe | packages/domain/src/artifact-upload/v1.ts:253 | No partial sum of a valid session leaves the safe integers |
| ArtifactUpload.RunStaysValid | packages/domain/src/artifact-upload/v1.ts:192-323 | Every session any run reaches is valid; finalizing and completed ones hold all parts, the last of exactly the right size |
| ArtifactUpload.FinalizedAddsUp | packages/domain/src/artifact-upload/v1.ts:242-259 | The parts of a finalizing or completed session add up to the expected size |
| ArtifactUpload.FinalizedCheckedDigest | packages/domain/src/artifact-upload/v1.ts:242-259 | A run that reached finalizing or completed contains an accepted begin with the expected digest |
| ArtifactUpload.KeepsTerms | packages/domain/src/artifact-upload/v1.ts:192-323 | No run changes what was agreed at creation |
| ArtifactUpload.RevisionCountsChanges | packages/domain/src/artifact-upload/v1.ts:192-323 | The revision grows by exactly the number of steps that changed the session |
| ArtifactUpload.TerminalStatesAbsorb | packages/domain/src/artifact-upload/v1.ts:192-323 | Completed, aborted and expired sessions refuse everything and never change |
| ArtifactUpload.LifeCycle | packages/domain/src/artifact-upload/v1.ts:192-323 | Each accepted operation takes exactly the state change it is for, and expiry needs the deadline reached |
| ArtifactUpload.RerecordChangesNothing | packages/domain/src/artifact-upload/v1.ts:225-230 | Recording a recorded number again changes nothing: the same content is accepted, whenever it was uploaded, and other content is a digest mismatch |
| ArtifactUpload.RecordingIgnoresOrder | packages/domain/src/artifact-upload/v1.ts:192-240 | Recording acceptable, distinctly numbered parts in any two orders, each at the revision it finds, gives the same session |
| MultipartPlan.PlanGrantedIff | packages/provider-ports/src/ports-v1.ts:111-141 | A plan is granted if and only if reference, digest, object size and part size are in their limits; it keeps them, and has the fewest parts that hold the object |
| MultipartPlan.CapUnreachable | packages/provider-ports/src/ports-v1.ts:131 | Under those limits a plan has at most 2560 parts, so the 10,000-part check cannot fail |
| MultipartPlan.PartGrantedIff | packages/provider-ports/src/ports-v1.ts:179-199 | A part is granted if and only if its number, bytes and digest are within the limits, and is what was asked for |
| MultipartPlan.ReceiptGrantedIff | packages/provider-ports/src/ports-v1.ts:271-355 | A receipt is granted if and only if the part has a number of the plan and exactly that number's bytes; it repeats the part's number, digest and length and is registered with them for this upload |
| MultipartPlan.FittingReceiptsWereGranted | packages/provider-ports/src/ports-v1.ts:318-420 | The receipts completion takes at a place are those that were granted for this upload and a part of that number |
| MultipartPlan.PartsPartitionObject | packages/provider-ports/src/ports-v1.ts:271-278 | Every planned part has between 1 and part-size bytes, and together they are the object |
| MultipartPlan.SplitThenJoin | packages/provider-ports/src/ports-v1.ts:271-278 | Cutting bytes to the planned lengths and joining them is the identity |
| MultipartPlan.JoinThenSplit | packages/provider-ports/src/ports-v1.ts:271-278 | Joining chunks of the planned lengths and cutting again gives the same chunks |
| MultipartPlan.SplitAndJoinAreInverse | packages/provider-ports/src/ports-v1.ts:271-278 | Both, for every defined plan and whole objects |
| MultipartPlan.ChunksMakeFittingReceipts | packages/provider-ports/src/ports-v1.ts:179-355 | Each chunk of a split object can be defined as a part and uploaded, and its receipt is the one completion wants at that place |
| MultipartPlan.DefineCompleteRequest | packages/provider-ports/src/ports-v1.ts:379-436 | A complete request is granted if and only if the receipts are those of this upload, one for each part in order, untouched; the total check after the loop never refuses |
| MultipartPlan.FinalizedSessionMatchesPlan | packages/provider-ports/src/ports-v1.ts:130-278 | For equal sizes, a finalizing or completed domain session has exactly the plan's parts: count, numbers and lengths |
| MultipartPlan.PlannedPartsFinalize | packages/domain/src/artifact-upload/v1.ts:242-259 | An open domain session holding exactly the plan's part lengths is accepted for finalization |
| UtcTimestamps.UtcDate.SetUTCFullYear | packages/provider-ports/src/common-v1.ts:337 | The civil day becomes the given one, and the time of day stays |
| UtcTimestamps.UtcDate.SetUTCHours | packages/provider-ports/src/common-v1.ts:338 | A time that exists becomes the time of day and the civil day stays; a larger one carries into the days that follow |
| UtcTimestamps.ComparableUtcTimestamp | packages/provider-ports/src/common-v1.ts:326-342 | Mutating the date step by step gives the epoch second the calendar formula gives for the fields of the text, and the fraction as written |
| UtcTimestamps.TextReadsBack | packages/provider-ports/src/common-v1.ts:323-342 | Round trip: the zero-padded text of any fields, with any digit fraction, matches, and is compared as those fields |
| UtcTimestamps.TimestampsAreTexts | packages/provider-ports/src/common-v1.ts:323-324 | A value matches the pattern if and only if it is such a text |
| UtcTimestamps.CompareIsLexical | packages/provider-ports/src/common-v1.ts:344-359 | For timestamps of a valid date and time the comparison orders the first nineteen characters as strings, and then the fractions |
| UtcTimestamps.FieldsCarry | packages/provider-ports/src/common-v1.ts:335-339 | Fields beyond the calendar carry: month 13 is in the next year, every day has 86400 seconds, seconds beyond 60 count as 59 |
| UtcTimestamps.EpochIsSafe | packages/provider-ports/src/common-v1.ts:340 | No matching timestamp leaves the safe integers, so that check never refuses |
| UtcTimestamps.DayNumberCountsDays | packages/provider-ports/src/common-v1.ts:337 | The day number is the calendar's: the next civil day, over months, years and leap days, is one more |
| UtcTimestamps.EpochIsDayZero | packages/provider-ports/src/common-v1.ts:335-337 | 1 January 1970 is day zero |
| UtcTimestamps.EpochOrderIsCalendarOrder | packages/provider-ports/src/common-v1.ts:335-339 | For calendar-valid fields the epoch second orders as the fields do, most significant first |
| UtcTimestamps.LeapSecondIsNextSecond | packages/provider-ports/src/common-v1.ts:338-339 | Second 60 is the instant of second 0 of the next minute, carried through days and years, and one after second 59 |
| UtcTimestamps.LexOrderIsValueOrder | packages/provider-ports/src/common-v1.ts:355-358 | For digit strings of one length the string order is the order of the fractions they write |
| UtcTimestamps.CompareIsSignOfDifference | packages/provider-ports/src/common-v1.ts:344-359 | For any two matching timestamps, fractions of any length, the answer is the sign of the exact difference of their instants |
| UtcTimestamps.CompareIsATotalOrder | packages/provider-ports/src/common-v1.ts:344-359 | So it is antisymmetric and transitive, although every pair pads to its own width |
| UtcTimestamps.TimedOutIffDeadlineReached | packages/provider-ports/src/common-v1.ts:736-759 | For every context, abort signal and now: an unregistered context or invalid now is refused first, then an aborted one, then one whose timestamps cannot be compared; otherwise it is timed out if and only if the exact instant of now is not before the deadline |
| UtcTimestamps.TimeoutIsForever | packages/provider-ports/src/common-v1.ts:736-759 | Once timed out, a context is timed out at every later now, unless it is reported aborted |
| LocaleNegotiation.ConsolidateDuplicateRanges | packages/i18n/src/locale-v1.ts:74-88 | The loop over the map gives the best candidate of each range, ranges in order of first appearance |
| LocaleNegotiation.QualityIsWeight | packages/i18n/src/locale-v1.ts:12-65 | A q-value is read if and only if it is well formed: 0.d1d2d3 weighs 100 d1 + 10 d2 + d3 thousandths, missing digits zero, and 1 with zeros at most weighs 1000 |
| LocaleNegotiation.CandidatesAreSaid | packages/i18n/src/locale-v1.ts:28-119 | However a header is cut at its commas, its candidates are exactly what its first 64 parts say, in their order: range, locale by language, quality, place and number of subtags |
| LocaleNegotiation.OneRangeNegotiates | packages/i18n/src/locale-v1.ts:28-140 | A header of one range of language `vi` or `en`, with a quality above zero, negotiates that language's locale |
| LocaleNegotiation.OnlyItsLanguageDecides | packages/i18n/src/locale-v1.ts:39-124 | In every header a locale is decided only by a range of its own language or by a wildcard |
| LocaleNegotiation.NothingSaidIsDefault | packages/i18n/src/locale-v1.ts:110-140 | A missing, empty or overlong header, or one part that says nothing usable, negotiates Vietnamese |
| LocaleNegotiation.UserLocaleOverrides | packages/i18n/src/locale-v1.ts:147-169 | A user's own tag of a supported language overrides every header, and any other tag is ignored |
| LocaleNegotiation.ConsolidatedKeepsBest | packages/i18n/src/locale-v1.ts:74-88 | Nothing is invented, and a dropped candidate is always covered by one at least as good of the same range |
| LocaleNegotiation.DecidingDecides | packages/i18n/src/locale-v1.ts:90-124 | The sorts find the range that must decide a locale: its most specific explicit one, then quality, then order; the wildcard only when there is none |
| LocaleNegotiation.ConsolidationIsInvisible | packages/i18n/src/locale-v1.ts:74-140 | Consolidation never changes the negotiated locale, for all candidate lists with distinct orders whose canonical form decides the range |
| LocaleNegotiation.ConsolidationIsInvisibleInHeaders | packages/i18n/src/locale-v1.ts:28-140 | Candidates parsed from any header are such a list |
| LocaleNegotiation.NegotiateHeader | packages/i18n/src/locale-v1.ts:110-140 | The method that consolidates, scores and sorts in place returns the locale the header negotiates, of which the rows above say what it is |
| LocaleNegotiation.NegotiatedIsBest | packages/i18n/src/locale-v1.ts:122-139 | The result beats every other locale: greater effective quality, or equal and decided by the earlier range, then by preference; with no positive quality it is the default |
| ArtifactGovernance.ValidateDerivedArtifactVersion | packages/domain/src/artifact-governance/v1.ts:173-193 | A derivation is accepted if and only if it is allowed, and is otherwise refused with the first source's first problem, widening last |
| ArtifactGovernance.FirstProblemDecides | packages/domain/src/artifact-governance/v1.ts:177-192 | Allowed means: there are sources, none has a problem, and the derived mode is no wider than each of theirs |
| ArtifactGovernance.FirstProblemIsFirst | packages/domain/src/artifact-governance/v1.ts:177-187 | The reported problem is that of the first source that is not proper: an own or repeated identifier, then a foreign scope, then a status other than active |
| ArtifactGovernance.Minimum | packages/domain/src/artifact-governance/v1.ts:191 | The least of the mode ranks |
| ArtifactGovernance.PlacementRespectsMode | packages/domain/src/artifact/v1.ts:240-284 | A placement is created if and only if all fields parse, scope and content match the version, Local content stays on the device and Cloud content in the cloud; it says what was asked for |
| ArtifactGovernance.PlacementRefusesFirstFault | packages/domain/src/artifact/v1.ts:240-272 | A refused placement names its first fault |
| ArtifactGovernance.AvailabilityAcceptedIff | packages/domain/src/artifact/v1.ts:287-305 | Marking a placement is accepted if and only if the mark is one and the revision its own; a mark it has changes nothing, another one raises the revision |
| ArtifactGovernance.EvidenceAcceptedIff | packages/domain/src/artifact/v1.ts:409-450 | Evidence is created if and only if all fields parse, the scope is the version's, the coordinate fits and a Local version is cited without an excerpt; it says what was asked for, or is refused with its first fault |
| ArtifactGovernance.BuildIsGoverned | services/api/src/features/iae/application/derived-artifact.service.ts:56-118 | Every store built by admitting, deriving, registering again, restating status, placing, re-marking and citing, in any order, has sound edges, placements and evidence |
| ArtifactGovernance.ModesNarrowAlongLineage | packages/domain/src/artifact-governance/v1.ts:187-192 | Along any path of derivations the scope stays and the data mode never widens |
| ArtifactGovernance.LocalAncestorKeepsContentLocal | packages/domain/src/artifact/v1.ts:265-438 | In every built store, a version with a Local transitive ancestor is Local, has no cloud placement and no evidence with an excerpt |
| ArtifactGovernance.LineageStaysInTenant | packages/domain/src/artifact-governance/v1.ts:184-185 | In every built store, all ancestors of a version, its placements and its evidence share one tenant scope |
| ArtifactGovernance.RegistrationKeepsAcyclicIff | services/api/src/features/iae/application/derived-artifact.service.ts:69-107 | Registering a derivation keeps a store free of circles if and only if none of its sources descends from the version |
| ArtifactGovernance.LineageIsAcyclic | services/api/src/features/iae/application/derived-artifact.service.ts:69-107 | When every derivation is registered for a version id new to the store, no version is ever its own ancestor |
| ArtifactGovernance.RederivedOriginalClosesCircle | services/api/src/features/iae/adapter/prisma-artifact-repository.adapter.ts:217-227 | An original stored first and then registered again, unchanged, as derived from its own derivative becomes its own ancestor |
| DataQuality.EvaluateContract | packages/domain/src/data-quality-guard/v1.ts:282-413 | Evaluation is refused exactly for an invalid header, then an invalid rule, then repeated rule ids; otherwise it reports, rule by rule, the findings with reason, severity, id, value kind and place, the counts, states and pass rate, and passes if and only if no row breaks any rule |
| DataQuality.EvaluateRule | packages/domain/src/data-quality-guard/v1.ts:343-398 | The loop over the rows collects exactly the rule's findings and its result |
| DataQuality.BreaksByKind | packages/domain/src/data-quality-guard/v1.ts:347-374 | Which values break which rule: missing and blank ones a required field; everything but numbers between the bounds, and NaN, a range; non-members an allowed set; values of another type a type |
| DataQuality.RepetitionBreaks | packages/domain/src/data-quality-guard/v1.ts:353-357 | A row breaks the unique rule if and only if it holds a value that an earlier row holds |
| DataQuality.FindingsSay | packages/domain/src/data-quality-guard/v1.ts:316-342 | Each finding names rule, reason, severity and row, and the value there with its kind, fingerprint and locator; findings come row after row |
| DataQuality.ValueKindIs | packages/domain/src/data-quality-guard/v1.ts:169-176 | A value is reported as missing, null, a truth value, a whole number, another number, a date-like text or another text |
| DataQuality.ResultSays | packages/domain/src/data-quality-guard/v1.ts:310-390 | A rule's result counts and names its findings in order, passes if and only if there are none, and considers every row, less the null ones where null is allowed |
| DataQuality.FindingsAreBreaks | packages/domain/src/data-quality-guard/v1.ts:343-375 | The findings of a rule are the rows that break it, each with the value it holds, and nothing else |
| DataQuality.PassesIffNoFindings | packages/domain/src/data-quality-guard/v1.ts:376-398 | All rules pass if and only if no row breaks any rule |
| DataQuality.UniqueFlagsRepetitions | packages/domain/src/data-quality-guard/v1.ts:353-357 | The unique rule flags exactly the non-null rows less the distinct non-null values |
| DataQuality.AffectedWithinDenominatorIff | packages/domain/src/data-quality-guard/v1.ts:310-385 | The affected count stays within the denominator if and only if nulls are counted or the null rows that break the rule are no more than the other rows that do not |
| DataQuality.NullRowExceedsDenominator | packages/domain/src/data-quality-guard/v1.ts:310-350 | A required field that may be null, null in the only row, has one affected row and none counted |
| DataQuality.PreviewShows | packages/domain/src/data-quality-guard/v1.ts:456-464 | A preview shows for each operation what its cell holds, undefined for a row or field that is not there, and its replacement |
| DataQuality.ApplyRepair | packages/domain/src/data-quality-guard/v1.ts:473-493 | Writing cell by cell into a copy gives the sequential result and its evidence, and fails if and only if an operation names a row that is not there |
| DataQuality.SequentialIsSimultaneous | packages/domain/src/data-quality-guard/v1.ts:480-484 | For all operations, sequential writing is the simultaneous update by last writes; other cells and the number of rows are kept |
| DataQuality.CellAfterWrites | packages/domain/src/data-quality-guard/v1.ts:480-484 | A cell holds its last replacement, or what it held before if it was not written |
| DataQuality.RepairIgnoresOrder | packages/domain/src/data-quality-guard/v1.ts:480-484 | On pairwise distinct cells every order of the operations gives the same rows |
| DataQuality.EvidenceMatchesPreviewIff | packages/domain/src/data-quality-guard/v1.ts:456-493 | An operation finds in its cell what the preview showed if and only if no earlier operation left another value there, and its recorded fingerprint is that of the previewed value if and only if the value left there has the same fingerprint |
| DataQuality.RepairAgreesWithPreview | packages/domain/src/data-quality-guard/v1.ts:451-493 | On pairwise distinct cells every cell ends with the previewed value and the evidence fingerprints the previewed before and after |
| DataQuality.CoveringRepairPasses | packages/domain/src/data-quality-guard/v1.ts:343-493 | For rules other than unique and replacements sound on their field, re-evaluation passes if and only if every flagged cell was replaced |
| StableSort.SortIgnoresOrder | packages/domain/src/artifact-upload/v1.ts:235 | A stable sort gives the same list for every permutation of elements its order separates |
| Decimal.RenderInjective | apps/desktop/src/application/folder-intake.service.ts:91 | Different numbers have different decimal forms |

## Left out

- AuditVerification.ReachableLedgerVerifies: assumes digests that `text` leaves alone; AppendedLedgerVerifiesIff shows that the premise is exact.
- OverlappingCommits.OverlapNeverOverwritesIff: the two calls that check and read the source are one step, and only commits of this service act on the files.
- ReversibleMove.CommitMove: requires that the temporary name is free, as the source's random suffix makes it; bytes read are the bytes stored, so a read that lies is not modelled.
- StableFileDetector.Detector.ObserveFile: the pending entries are map values instead of objects changed in place; they never leave the map, so no alias is lost.
- FolderIntake.EventKeyIdentifies: sizes and times are whole numbers; fractional millisecond times are not modelled.
- FolderSync.FolderSyncService.Flush: the contract is for a flush that nobody overlaps; overlapping flushes are the steps of NothingQueuedIsLost.
- FolderSync.FolderSyncService.EnqueueApprovedProjection: the SHA-256 key is a function of the projection that is not assumed injective; NoItemIsLostIff says what that costs.
- PartArithmetic.CeilDivBounds: the ceiling is exact; it equals the source's floating-point division because all sizes are safe integers and all part sizes are far below them.
- MultipartPlan.DefineCompleteRequest: the registration of plans, uploads and receipts in weak maps is an optional receipt state and an upload handle; record-descriptor checks are left out.
- UtcTimestamps.TimeoutIsForever: the abort signal and the registration of contexts are inputs of the check.
- DataQuality.EvaluateContract: the run id and the dataset identifiers echoed into the run and into each finding's evidence are left out; rules come in parsed or refused; the pass rate is the exact quotient; the 32-bit fingerprints are not assumed injective.
- DataQuality.CellAfterWrites: rows are maps from field names. A field named `__proto__`, which the source accepts in a proposal but does not write as a cell, and fields such as `constructor`, which the source reads from the object prototype when a row has none, are not modelled; the same goes for every member that reads or writes a cell.
- DataQuality.ApplyRepair: the check that proposal and dataset name the same version, the derived version id and its digest are left out.
- ArtifactGovernance.ModesNarrowAlongLineage: does not say that an ancestor was stored before its descendant, because registering a stored version again makes that false.
- ArtifactGovernance.BuildIsGoverned: a registration that a repository refuses leaves the store unchanged, as its transaction does; the lineage record is the list of sources, one for each derived version; versions are taken as already constructed by `createArtifactVersionV1`; evidence coordinates are an optional value with the outcome of the geometry check.
- Tenant identifiers are 36 characters without a colon, which is all the key needs of the identifier check.
- Summary sanitising, seal attestations and their signing ports: straight-line field checks around the modelled seal.
- `normalizeRule`, dataset construction, artifact retention, lineage records: one-branch field validation.
- Electron, React and Nest wiring, the watcher adapter, network uploads and clocks: their results are parameters of the steps modelled here.
