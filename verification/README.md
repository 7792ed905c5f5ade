# Biometric verification platform: a verified model

This project models the parts of the platform where an error would be silent: the hash-chained
audit log, the fingerprint matcher, the one-to-one verification workflow, tenant keys with the
secrets and evidence encrypted under them, the limits on guessing, the job queue, the small
codes (MRZ, base32, TOTP) and the decision orchestrator. What the code does one SQL statement
at a time is a state machine whose steps are those statements, so the results about it hold for
every interleaving of any number of callers. What an object does to its own fields is a class,
and what a loop computes is a method proved against a specification.

## Files

| part | files |
|---|---|
| Audit log | `Json`, `JsonCanonical`, `JsonReorder`, `JsonOrder`, `EngineJson`, `JsonSchemes`, `AuditGuard`, `AuditChain`, `Hashing`, `AuditTamper`, `AuditProtocol`, `AuditExport`, `AuditOverlap`, `AuditTogether` |
| Matcher | `Matcher`, `MatcherProofs`, `MatcherMeaning` |
| Verification workflow | `Decision`, `Workflow`, `WorkflowProofs`, `WorkflowFacts`, `WorkflowService`, `WorkflowReach`, `WorkflowErasure`, `WorkflowRuns` |
| Keys, secrets, evidence | `Keys`, `Decimal`, `Secrets`, `SecretsText`, `Evidence`, `EvidenceLife`, `EvidenceService`, `EvidencePurge`, `EvidenceLeak` |
| Guess limits | `StepUp`, `StepUpProgress`, `Login`, `RateLimit` |
| Job queue | `Jobs`, `JobsProgress` |
| Codes | `Mrz`, `Documents`, `DocumentsMeaning`, `Totp`, `TotpNumbers` |
| Orchestration | `Ledger`, `LedgerTamper`, `Orchestrator` |

`dafny verify dfyconfig.toml` checks everything.

## Assumptions

- The clock is a parameter and never goes back; random identifiers, keys, salts and nonces are
  parameters, fresh where the code relies on it.
- SHA-256 prints as 64 hexadecimal characters. It is nowhere assumed injective: a result that
  rests on it not colliding names the two texts, among those actually hashed, that would collide.
- Authenticated encryption is an ideal box (`Secrets.Ideal`): it opens under the key and context
  it was sealed with and under no other.
- Floating-point numbers are reals. The matcher's sine and cosine are functions satisfying the
  angle-addition identities, with a positive pi (`MatcherProofs.TrigLaws`).
- One SQL statement is atomic. The advisory lock is granted to one session at a time.

## What the code does differently from its documentation

- `chainDigest` says its scheme is identical to the engine's `digest`. The two hash one text of a
  value if and only if every string and key stays within ASCII below DEL, every number prints alike
  and is finite, and no array index among an object's keys is out of text order:
  `JsonSchemes.SchemesAgreeIff`. The engine escapes everything beyond that range and sorts keys by
  code point; JavaScript prints it raw, sorts by UTF-16 code unit and enumerates array indices first.
  `JsonSchemes.NineAndTenDiffer` and `JsonSchemes.SurrogatesSortFirst` are two values that hash
  differently. (Each text still identifies its value: `JsonCanonical.CanonicalIff`,
  `LedgerTamper.EngineTextIff`.)
- The redaction guard says it makes writing biometric or secret material impossible. It does not
  look inside arrays; `AuditGuard.GuardCompleteIff` says exactly when it keeps its word.
- `withTransaction` of the in-process database runs every transaction on one session, so the
  advisory lock is granted again and the chain can fork: `AuditProtocol.ForkFreeIffExclusive`.
- `audit.export` reads the segment twice, so its file can hold rows after the recorded bound:
  `AuditExport.FileIsSegmentIff`, `AuditExport.FileCanExceedSegment`. Two exports at once can export
  one segment twice, which the high-water mark is said to rule out: it does exactly when exports
  wait for each other (`AuditOverlap.ConsecutiveIffSerial`, `AuditOverlap.OverlapExportsTwice`).
- `rotateTenantDek` is two statements without a transaction. The newest key is active in every state
  of every run, but between those two, exactly when rotations wait for each other and none is cut
  short (`Keys.ServedIffSerialised`). Two overlapping rotations (`Keys.OverlappingRotationsHalt`) or
  one that stops between its statements (`Keys.StoppedRotationHalts`) leave the tenant without an
  active key, and every later fetch then fails for good (`Keys.HaltedForever`).
- `runDueJobs` counts a success before recording it, so a job whose success update throws is
  counted twice: `Jobs.CountsAgreeIff`, `Jobs.CountedTwice`. A claimed job can still be recorded
  exactly while its batch was neither aborted by a failure update that throws nor killed
  (`Jobs.RecordableIff`); otherwise it stays running for ever. `Jobs.BatchAbandoned` and
  `Jobs.WorkerKilled` are the two ways, and there is no other (`Jobs.NothingIsLostIff`).
- A retention that stops between its upload and its insert, or a deletion that stops between its
  update and the removal, leaves an object in storage for good, and nothing else does:
  `EvidenceLeak.LeakedIff`, `EvidenceLeak.NothingLeaksIff`, with one run of either kind.
- `consumeCaptureSession` uses the session up before it looks at purpose and modality.
- A deletion overwrites the ciphertext of the templates it revokes. It destroys all of its
  subject's ciphertexts exactly when no template of the subject was revoked by its consent before
  any deletion (`WorkflowErasure.DeletionDestroysIff`); a person who withdraws first and is deleted
  afterwards keeps one (`WorkflowRuns.WithdrawnKeepsCiphertext`).
- A policy that requires attack detection of a finger takes the comparison's word for it, while the
  model checked is the one the analysis names, if any. An approval under it had its
  attack-detection model checked exactly when the analysis named one
  (`WorkflowRuns.PadCheckedIff`), which is always so only if the provider's two answers agree
  (`WorkflowRuns.PadAlwaysCheckedIff`, `WorkflowRuns.PadUncheckedRun`). The engine's do.
- A biometric under review is said never to be approved. The outcome is review or worse in every
  context exactly when some modality is rejected or some required name is missing or under review
  in its last entry (`Orchestrator.NeverBelowReviewIff`); an entry under review is ignored exactly
  when its name is not required, a later entry has its name, or something else holds the person
  back (`Orchestrator.ReviewIgnoredIff`). `Orchestrator.UnrequiredReviewApproved` and
  `Orchestrator.OverriddenReviewApproved` are approvals of either kind.

## Model

Rows marked *supporting* read one definition back or feed a result beside them; the others are the
results.

| member | source | states |
|---|---|---|
| JsonCanonical.CanonicalIff | platform/src/server/security/crypto.ts:17-32 | the canonical texts of two plain JSON values are equal exactly when the values mean the same, whatever the order of keys at any depth and with undefined fields dropped |
| JsonCanonical.CanonicalParses | platform/src/server/security/crypto.ts:17-32 | parsing the canonical text gives back the meaning of the value it was made from |
| JsonCanonical.SortKeysDeepNormalises | platform/src/server/security/crypto.ts:22-32 | sortKeysDeep keeps the meaning and leaves the keys of every nested object in one fixed order |
| JsonCanonical.SortKeysDeepIdempotent | platform/src/server/security/crypto.ts:22-32 | sortKeysDeep applied twice is sortKeysDeep |
| JsonReorder.SortKeysDeepIff | platform/src/server/security/crypto.ts:22-32 | sortKeysDeep gives one result for two values exactly when they differ in the order of keys alone, at any depth |
| JsonReorder.SortedMeaningIff | platform/src/server/security/crypto.ts:22-32 | on values as storage returns them it gives one result for two values exactly when they mean the same |
| JsonReorder.UndefinedFieldSorted | platform/src/server/security/crypto.ts:22-32 | *supporting:* with an undefined field two values of one meaning are sorted differently |
| JsonOrder.PlainOrderIff | platform/src/server/security/crypto.ts:16-32 | *supporting:* an object's canonical keys are in plain UTF-16 order if and only if its array indices agree with that order |
| JsonOrder.SortOrderIsUtf16 | platform/src/server/security/crypto.ts:27-29 | the order in which keys are sorted is the dictionary order of their UTF-16 code units, surrogate pairs included |
| JsonOrder.NineBeforeTen | platform/src/server/security/crypto.ts:16-32 | *supporting:* an object with the keys "9" and "10" is one where they do not |
| JsonSchemes.SchemesAgreeIff | platform/src/server/security/crypto.ts:16-32 | the platform's and the engine's texts of a value are equal if and only if its strings and keys are ASCII below DEL, its numbers are finite and print alike, and no array index is out of text order in any of its objects |
| JsonSchemes.DigestsAgreeIff | biocheck_engine/crypto.py:49-51 | the two digests agree on exactly the same condition, unless the hash collides on the two texts |
| JsonSchemes.NineAndTenDiffer | biocheck_engine/crypto.py:49-51 | the keys "9" and "10" make the two texts differ |
| JsonSchemes.SurrogatesSortFirst | biocheck_engine/crypto.py:49-51 | two keys beyond ASCII, neither an array index, are sorted in opposite orders, and the texts differ |
| EngineJson.PrintSplits | biocheck_engine/crypto.py:49-51 | whatever text follows, a printed value ends where it ends, and equal printed texts come from the same value |
| AuditGuard.GuardReach | platform/src/server/audit/service.ts:18-31 | the guard accepts details exactly when they are safe at every depth once every array is emptied |
| AuditGuard.SafeIsAcceptedAndArraysSafe | platform/src/server/audit/service.ts:18-31 | details are safe at every depth exactly when the guard accepts them and their arrays hold nothing unsafe |
| AuditGuard.GuardCompleteIff | platform/src/server/audit/service.ts:18-31 | the guard's verdict is safety if and only if details that are safe with their arrays emptied hold nothing unsafe in those arrays |
| AuditGuard.GuardCompleteWithoutArrays | platform/src/server/audit/service.ts:18-31 | for details without arrays the guard accepts exactly the safe ones |
| AuditGuard.ArrayPassesGuard | platform/src/server/audit/service.ts:18-31 | anything inside an array under an innocent key is accepted |
| AuditChain.VerifyAuditChain | platform/src/server/audit/service.ts:116-140 | answers true exactly when every row carries the hash of the row before it, the first none, and the digest of its own event behind that |
| AuditChain.AppendKeepsChain | platform/src/server/audit/service.ts:71-95 | a row appended to a log that verifies verifies after being stored and read back with its details' keys in any order |
| AuditChain.AuditTable.AppendAudit | platform/src/server/audit/service.ts:66-97 | the table grows by one row, spelled out: the next number, the event with the address, the hash of the last row, and the digest of the event behind that hash; it stays verified |
| AuditTamper.ChainDigestReadsMeaning | platform/src/server/security/crypto.ts:17-20 | the digest of an event does not depend on the key order of its details |
| AuditTamper.DigestText | platform/src/server/audit/service.ts:72-85 | the digest of an event is the hash of the previous hash followed by one JSON text, and that text reads, to its end, as an object of exactly nine names, each holding its own column: the organisation under organisationId, the actor's type under actorType, and so on to the details |
| AuditTamper.PreimageIff | platform/src/server/security/crypto.ts:17-20 | previous hash and canonical text can be told apart in the hashed text: equal hashed texts mean the same event and the same previous hash |
| AuditTamper.TamperEvident | platform/src/server/audit/service.ts:116-140 | two logs that verify and end in the same hash have the same length and, row by row, the same hashed fields, or two different texts hashed on them have one hash |
| AuditTamper.EditedRowFails | platform/src/server/audit/service.ts:116-140 | replacing one row by one that says something else makes verification fail unless the final hash changes or two different texts have one hash |
| AuditProtocol.ExclusiveNeverForks | platform/src/server/audit/service.ts:66-97 | with a session per transaction, any number of appenders interleaved at lock, read, insert, commit and rollback leave a log that verifies, in every reachable state |
| AuditProtocol.SharedSessionForks | platform/src/server/db/client.ts:36-48 | with one shared session a run of two appenders reaches a log that does not verify |
| AuditProtocol.ForkFreeIffExclusive | platform/src/server/db/client.ts:69-88 | no reachable log is forked if and only if each transaction has a session of its own |
| AuditTogether.PlatformNeverForks | platform/src/server/audit/service.ts:55-98 | the same of the digest the platform computes: appenders on their own sessions leave a verifying log in every reachable state |
| AuditProtocol.CommittedOnlyGrows | platform/src/server/audit/service.ts:86-97 | *supporting:* no step changes or removes a committed row, and new ones come after all others |
| AuditProtocol.AppendCommits | platform/src/server/audit/service.ts:66-97 | in every reachable state with the lock free, a transaction on an idle session runs from begin to commit and adds exactly its own row: the next number, its event with the details as stored, its address, the last committed hash and the digest behind it |
| AuditExport.ExportsCoverPrefix | platform/src/server/jobs/maintenance.ts:44-61 | in every reachable state the exported segments, end to end, are exactly the log up to the high-water mark, and each head hash is the hash of its segment's last row |
| AuditExport.ExportSpelledOut | platform/src/server/jobs/maintenance.ts:44-61 | in every reachable state export i is that of one stretch of 1 to 5000 rows that begins where export i - 1 ended, or the log; its bounds and head are those of the stretch, and its file starts with it and is exactly it if and only if no row came between the two reads or it is full |
| AuditExport.SelectMeans | platform/src/server/jobs/maintenance.ts:46-52 | *supporting:* a segment query returns the first 5000 rows from its bound on |
| AuditExport.HighWaterIsMax | platform/src/server/jobs/maintenance.ts:44-46 | *supporting:* the high-water mark is the largest bound recorded |
| AuditExport.FileIsSegmentIff | platform/src/server/jobs/maintenance.ts:47-56 | an exported file begins with its segment, and is exactly it if and only if nothing was committed between the two reads or the segment is full |
| AuditExport.FileCanExceedSegment | platform/src/server/jobs/maintenance.ts:47-56 | a run with one row committed between the two reads ends with a file longer than its segment |
| AuditOverlap.ConsecutiveIffSerial | platform/src/server/jobs/maintenance.ts:44-61 | with any number of export jobs interleaved, the segments cover the log up to the high-water mark in every run if and only if exports wait for each other |
| AuditOverlap.OverlapExportsTwice | platform/src/server/jobs/maintenance.ts:44-61 | a run in which two exports read the mark before either records ends with one segment exported twice |
| AuditExport.NoLateRow | platform/src/server/jobs/maintenance.ts:44-61 | *supporting:* a row that may be appended lies beyond every exported bound and changes no segment |
| AuditTogether.ProtocolStepIsAppends | platform/src/server/audit/service.ts:66-97 | every step of the append protocol, with any transactions in flight, leaves the committed log or extends it by rows the export machine could append one after another |
| AuditTogether.JobRuns | platform/src/server/jobs/maintenance.ts:44-61 | a run of appenders and export job together is, for the job, a run of its own machine |
| AuditTogether.NeitherWaits | platform/src/server/audit/service.ts:66-97 | *supporting:* no statement of either side waits for the other |
| AuditTogether.ExportsCoverCommitted | platform/src/server/jobs/maintenance.ts:44-61 | with appenders in flight the segments are exactly the committed log up to the high-water mark, with matching heads |
| AuditTogether.NoLateCommit | platform/src/server/audit/service.ts:66-97 | once a segment is exported, no transaction in flight then or begun later commits a row at or before its end, and the segment of the log stays what was exported |
| AuditExport.Exporter.RunExport | platform/src/server/jobs/maintenance.ts:44-61 | an uninterrupted export stores the very rows of the segment, records its bounds and head, and is the machine's five statements |
| Matcher.SuppressClose | sidecar-fingerprint-py/matcher.py:174-180 | computes the greedy suppression |
| Matcher.FindPartner | sidecar-fingerprint-py/matcher.py:256-265 | finds the nearest unused partner of the same kind within the tolerances, the first among equals |
| Matcher.CountInliers | sidecar-fingerprint-py/matcher.py:251-268 | counts the minutiae that find a partner under one alignment |
| Matcher.CompareTemplates | sidecar-fingerprint-py/matcher.py:226-271 | computes the score over all alignments |
| MatcherProofs.SuppressIsMaximal | sidecar-fingerprint-py/matcher.py:174-180 | the kept minutiae are a subsequence, any two of them at least the distance apart, and every dropped one is closer than that to a kept one before it |
| MatcherProofs.SuppressIdempotent | sidecar-fingerprint-py/matcher.py:174-180 | suppressing twice is suppressing once |
| MatcherProofs.ScoreInvariant | sidecar-fingerprint-py/matcher.py:221-271 | moving either template by any rotation and translation leaves the score unchanged |
| MatcherProofs.PartnersPair | sidecar-fingerprint-py/matcher.py:251-267 | the pairing of one alignment is one-to-one and joins minutiae of one kind within the tolerances |
| MatcherMeaning.MatchesIff | sidecar-fingerprint-py/matcher.py:240-263 | two minutiae pair up under an alignment exactly when they are of one kind, at most 12 pixels apart once the one is turned and moved, and their directions at most 20 degrees apart up to whole turns |
| MatcherMeaning.PartnersAreNearest | sidecar-fingerprint-py/matcher.py:251-267 | each minutia in turn is given the nearest of those it pairs up with that the ones before it left, the first among equals, and none exactly when there is none |
| MatcherProofs.ScoreIsBestOverlap | sidecar-fingerprint-py/matcher.py:226-271 | score * (size of a + size of b) is twice the best overlap: the number of pairs of one alignment, attained over the alignments of same-kind minutiae and exceeded by none |
| MatcherProofs.ScoreOneIff | sidecar-fingerprint-py/matcher.py:226-271 | the score is 1 exactly when some alignment pairs off two templates of one size completely |
| MatcherProofs.MovedCopyScoresOne | sidecar-fingerprint-py/matcher.py:174-271 | a suppressed nonempty template scores exactly 1 against itself, also after either copy is moved rigidly |
| Decision.ApprovedIff | platform/src/server/verification/decision.ts:50-113 | *supporting:* a policy approves exactly when every one of its thresholds holds |
| Decision.FaceVerdictIff | platform/src/server/verification/decision.ts:50-67 | *supporting:* when a face is rejected, and that an unusable capture is always reviewed |
| Decision.FingerVerdictIff | platform/src/server/verification/decision.ts:95-113 | *supporting:* when a finger is rejected, and when a match waits for missing attack detection |
| Decision.BetterMatchNeverHurts | platform/src/server/verification/decision.ts:62-112 | *supporting:* a higher match score never gets a worse verdict |
| WorkflowProofs.ApprovalsJustified | platform/src/server/verification/service.ts:297-591 | in every run each approved attempt spent a pending session of its organisation, environment, purpose and modality, read the newest active unexpired template of the subject, project and modality under a consent not withdrawn, had every model its two provider answers name approved, met every threshold and saw no recent high risk, each at the moment of its own read |
| WorkflowProofs.SessionsSpentOnce | platform/src/server/verification/service.ts:148-165 | in every run no capture session is spent by two attempts, two enrolments or one of each |
| WorkflowFacts.ConsumableIff | platform/src/server/verification/service.ts:148-159 | at every moment of every run a session is accepted exactly from the organisation and environment it was created for, less than ten minutes after its creation, if nothing consumed it before |
| WorkflowFacts.UnknownToken | platform/src/server/verification/service.ts:151-159 | *supporting:* a token no session was created for is never accepted |
| WorkflowFacts.VerificationBegins | platform/src/server/verification/service.ts:158-165 | an accepted session leads to a verification exactly when it was created for one, of the same modality, and to that request alone |
| WorkflowFacts.EnrolmentBegins | platform/src/server/verification/service.ts:158-165 | the same of an enrolment |
| WorkflowFacts.ApprovalSession | platform/src/server/verification/service.ts:151-165 | in every run the session behind an approval was created for a verification of that modality by the same organisation and environment, less than ten minutes before it was consumed, and consumed once |
| WorkflowFacts.ApprovalTemplate | platform/src/server/verification/service.ts:361-389 | the template behind an approval belonged, when it was looked up, to the subject, project and modality, was active, not past its expiry, under a consent not withdrawn, the newest such, and of the model that analysed the capture |
| WorkflowFacts.ApprovalPolicy | platform/src/server/verification/service.ts:169-256 | the policy behind an approval is the one configured for the environment and modality when it was read, or else the platform's thresholds, number by number |
| WorkflowFacts.ApprovalRisk | platform/src/server/verification/service.ts:408-416 | when an approval looked for risk, no high signal about its subject in its organisation was less than an hour old |
| WorkflowFacts.ApprovalMeasures | platform/src/server/verification/service.ts:375-407 | every model behind an approval was found in the registry for its purpose, and every measurement met its threshold, each written out |
| WorkflowProofs.ApprovalPrecedesWithdrawal | platform/src/server/verification/service.ts:86-108 | an approval looked its template up before that template was revoked and before its consent was withdrawn, however the statements interleave |
| WorkflowProofs.DeletedTemplatesNeverApprove | platform/src/server/privacy/subjectRights.ts:101-110 | after a subject's templates are revoked only a template enrolled later can approve that subject |
| WorkflowReach.ApprovalReached | platform/src/server/verification/service.ts:297-591 | the converse: whenever a fitting session is pending and every condition holds, a run of the verification's own statements ends in approval |
| WorkflowRuns.PadCheckedIff | platform/src/server/verification/service.ts:546-580 | in every run a fingerprint approved where attack detection is required passed it by the comparison's word, and its model was found in the registry exactly when the analysis named one |
| WorkflowRuns.PadAlwaysCheckedIff | platform/src/server/verification/service.ts:546-580 | every such approval of every run had its model checked if and only if the provider's two answers must agree |
| WorkflowRuns.PadUncheckedRun | platform/src/server/verification/service.ts:546-580 | a run under the default policy ends in an approval although no attack-detection model was looked up |
| WorkflowService.Database.ConsumeCaptureSession | platform/src/server/verification/service.ts:148-165 | for a pending session of the organisation and environment whose expiry is still to come, and no other, marks that session used and nothing else; it succeeds exactly when purpose and modality agree too |
| WorkflowService.Database.Assess | platform/src/server/verification/service.ts:375-416 | approves exactly when both provider answers are there, their models approved and the template's, every threshold met and no recent high risk; rejects only on the thresholds, so outages, unapproved or mismatched models and risk go to review |
| WorkflowService.Database.Verify | platform/src/server/verification/service.ts:297-591 | a verification run by itself records one attempt, approved if and only if session, template, consent, models, measurements and risk in the state it began in meet the conditions written out; rejected for a missing reference or a withdrawn consent exactly then |
| WorkflowService.Database.Withdraw | platform/src/server/verification/service.ts:86-108 | the state becomes that of the machine's two statements, receipt then templates; a second withdrawal changes nothing |
| WorkflowService.Database.DeleteSubject | platform/src/server/privacy/subjectRights.ts:67-137 | a legal hold blocks everything; otherwise the subject's active templates lose ciphertext and activity, its consents are withdrawn, its live evidence that the organisation owns is deleted with its objects, every other row stays, and the three counts are the numbers of such rows |
| WorkflowService.CiphertextOverwrittenIff | platform/src/server/privacy/subjectRights.ts:101-105 | *supporting:* a deletion overwrites the ciphertext of exactly the templates that were still active |
| WorkflowErasure.TemplateLife | platform/src/server/privacy/subjectRights.ts:101-110 | in every run an enrolled template is active exactly while neither its consent's nor its subject's templates were revoked since, and keeps its ciphertext unless a deletion came before any revocation by consent |
| WorkflowErasure.OverwrittenIff | platform/src/server/privacy/subjectRights.ts:101-105 | a deletion leaves a template of its subject overwritten exactly when the template was not revoked by its consent before any deletion |
| WorkflowErasure.DeletionDestroysIff | platform/src/server/privacy/subjectRights.ts:101-105 | a deletion destroys every ciphertext of its subject if and only if no template of the subject was revoked by its consent before |
| WorkflowRuns.WithdrawnKeepsCiphertext | platform/src/server/verification/service.ts:86-108 | a run from the empty database of enrolment, withdrawal and deletion ends with the ciphertext still there |
| WorkflowService.ErasedIsFinal | platform/src/server/privacy/subjectRights.ts:101-110 | after a deletion no lookup finds the subject's templates and every other subject's lookups are as before |
| WorkflowService.DeletionIsTwoStatements | platform/src/server/privacy/subjectRights.ts:101-110 | a deletion is two statements of the interleaved machine |
| Keys.VersionsContiguous | platform/src/server/security/kms.ts:68-100 | however fetches and rotations interleave, a tenant's versions are exactly 1..n and none but n is active |
| Keys.KeysNeverChange | platform/src/server/security/kms.ts:68-110 | a version once written keeps its key in every later state |
| Keys.FetchedKeyStays | platform/src/server/security/kms.ts:68-110 | a caller was handed the key stored under the version it was told, for good |
| Keys.SerialisedServes | platform/src/server/security/kms.ts:68-100 | in every run in which rotations wait for each other and none is cut short, with any fetches in between, the newest version is active except between a rotation's two statements |
| Keys.SerialisedFetch | platform/src/server/security/kms.ts:68-83 | a fetch that reads at such a moment is handed the newest version |
| Keys.ServedIffSerialised | platform/src/server/security/kms.ts:86-100 | every run keeps the newest version active if and only if rotations are required to wait for each other and not to be cut short |
| Keys.StoppedRotationHalts | platform/src/server/security/kms.ts:86-100 | a run of one rotation that stops between its statements ends with no active key and nobody left to recover it |
| Keys.HaltedForever | platform/src/server/security/kms.ts:68-100 | with version n retired, n + 1 missing and every rotation of n finished, failed or gone, no caller is ever handed a key again |
| Keys.PendingRecovers | platform/src/server/security/kms.ts:86-100 | with a rotation pending, at most two statements make version n + 1 active |
| Keys.OverlappingRotationsHalt | platform/src/server/security/kms.ts:86-100 | a run of two overlapping rotations from an empty table ends with no active key and nobody left to recover it |
| Keys.TenantKeys.Fetch | platform/src/server/security/kms.ts:68-83 | returns the newest version and its key, creating version 1 only when there is none |
| Keys.TenantKeys.Rotate | platform/src/server/security/kms.ts:86-100 | run to its end, makes version n + 1 the only active one and keeps every older key |
| Keys.TenantKeys.FetchVersion | platform/src/server/security/kms.ts:103-110 | finds the key of every version from 1 to n, retired or not, and of no other |
| Secrets.PrintedMatches | platform/src/server/security/secrets.ts:12-16 | the version and the box printed into the stored text are what parsing it yields, for every version and box |
| SecretsText.MatchIff | platform/src/server/security/secrets.ts:15-17 | parsing finds a version and a box exactly in texts of the form v, digits, .enc1: and a nonempty rest on one line, and finds those very parts |
| SecretsText.PlainTextRead | platform/src/server/security/secrets.ts:17-21 | text of any other form is read as it stands |
| SecretsText.StoredFormRead | platform/src/server/security/secrets.ts:22-23 | text of that form is opened under the key of the version it names, with the organisation and context it is read for, and fails where that version or that box is not found |
| Secrets.SecretsDecryptForever | platform/src/server/security/secrets.ts:10-24 | a secret encrypted under a key fetched at any moment of any run decrypts to its plaintext at every later moment |
| Secrets.AadInjective | platform/src/server/security/secrets.ts:12-23 | the bound context text identifies the organisation and the context |
| Secrets.SecretsAreBound | platform/src/server/security/secrets.ts:10-24 | a stored secret decrypts under its own organisation and context and under no other, even with the same key |
| Evidence.FetchIsExact | platform/src/server/privacy/evidence.ts:72-89 | at every moment of every run fetch returns exactly the retained bytes of a live row of the organisation and refuses everything else; a live row never lacks its object or its key |
| EvidenceLife.FetchIff | platform/src/server/privacy/evidence.ts:46-104 | told by the statements of the run alone: a fetch returns bytes exactly when they were uploaded for that organisation and identifier, the row was inserted and nobody has deleted it since, and otherwise nothing is found |
| EvidenceLife.StoredIff | platform/src/server/privacy/evidence.ts:53-104 | an object is in storage exactly when it was uploaded under that name and not removed since, and it is removed only after its row was marked deleted |
| Evidence.StorageIsExact | platform/src/server/privacy/evidence.ts:46-104 | storage holds the objects of rows being inserted, live rows and rows being erased, and no others |
| Evidence.RetainedBytesComeBack | platform/src/server/privacy/evidence.ts:46-104 | bytes retained once are what every later fetch returns until that row is deleted, through any other retentions, deletions and key rotations |
| Evidence.FetchAcrossMoments | platform/src/server/privacy/evidence.ts:72-84 | with other statements between fetch's three reads it still returns the retained bytes, or the object is gone and the row was deleted meanwhile |
| EvidenceService.SettledStorage | platform/src/server/privacy/evidence.ts:46-104 | with nothing half done, objects in storage and live rows correspond exactly |
| EvidenceService.Service.Retain | platform/src/server/privacy/evidence.ts:46-69 | refuses a blank purpose or a past expiry and changes nothing; otherwise adds one live row and one object, the bytes sealed under the version's key for that organisation and identifier, and the bytes can be fetched |
| EvidenceService.Service.Fetch | platform/src/server/privacy/evidence.ts:72-89 | returns the retained bytes of a live row of the organisation, and nothing else |
| EvidenceService.Service.DeleteObject | platform/src/server/privacy/evidence.ts:91-104 | deletes a live row of the organisation and its object once, and otherwise nothing; every other live row still gives back the same bytes |
| EvidenceService.Service.PurgeExpired | platform/src/server/privacy/evidence.ts:107-115 | run by itself, marks exactly the live rows whose expiry is not after now and counts them; every live row whose expiry is still to come is unchanged and gives back the same bytes |
| EvidencePurge.SweepLeavesNothing | platform/src/server/privacy/evidence.ts:107-115 | with any other statements in between, the rows a sweep marks had their expiry behind them when they were selected, at its end each is deleted with its object, and a live row past its expiry at the selection was inserted after it |
| EvidencePurge.SweepEnds | platform/src/server/privacy/evidence.ts:107-115 | at every moment of every run with a sweep at work some statements of its own bring it to its end |
| EvidencePurge.OthersGoOn | platform/src/server/privacy/evidence.ts:107-115 | *supporting:* any other statement runs just as without a sweep |
| EvidenceLeak.LeakedIff | platform/src/server/privacy/evidence.ts:46-115 | at every moment of every run an object stays in storage through every continuation, never fetched, if and only if its retention or deletion stopped halfway |
| EvidenceLeak.NothingLeaksIff | platform/src/server/privacy/evidence.ts:46-115 | no run leaks an object if and only if nothing stops halfway |
| EvidenceLeak.UploadLeaks | platform/src/server/privacy/evidence.ts:53-66 | a run in which a retention stops after its upload leaks its object |
| EvidenceLeak.DeletionLeaks | platform/src/server/privacy/evidence.ts:91-98 | a run in which a deletion stops after its update leaks its object |
| EvidenceService.Service.DeleteForSubject | platform/src/server/privacy/subjectRights.ts:111-117 | marks exactly the subject's live rows that the organisation owns, counts all of the subject's live rows, and every other live row gives back the same bytes |
| StepUp.Service.IssueOtp | biocheck_engine/stepup.py:92-109 | agrees with the transition function that the run theorems are about |
| StepUp.Service.VerifyOtp | biocheck_engine/stepup.py:111-137 | agrees with the transition function that the run theorems are about |
| StepUp.GuessBound | biocheck_engine/stepup.py:92-137 | in any run the guesses compared for one subject in an interval of length T number at most maxAttempts * (1 + floor((T + ttl) / cooldown)) |
| StepUp.SatisfiedIff | biocheck_engine/stepup.py:111-137 | *supporting:* a challenge is satisfied exactly by a right guess for a known, unused, unexpired challenge within its attempts and outside a lockout |
| StepUp.AttemptsAreTries | biocheck_engine/stepup.py:128-137 | a challenge's attempts field is the number of guesses compared for it |
| StepUp.ConsumedIsFinal | biocheck_engine/stepup.py:111-137 | a challenge confirmed, expired or exhausted is denied by every later verification, so it is confirmed at most once |
| StepUp.RunInv | biocheck_engine/stepup.py:92-137 | in every state of a run two challenges of a subject are a cooldown apart, and used-up attempts mean a used-up challenge |
| StepUp.LockoutHolds | biocheck_engine/stepup.py:92-137 | after an exhausted challenge nothing is issued or compared for the subject until the lockout is over |
| StepUpProgress.IssuedIff | biocheck_engine/stepup.py:92-109 | in every run an issue goes through exactly when no exhausted challenge of the subject is less than a lockout old and no issue to it less than a cooldown, the clock's zero counting as one |
| StepUpProgress.ConfirmedIff | biocheck_engine/stepup.py:111-137 | in every run a guess for an issued code is confirmed exactly when it is right, no later than the time to live after the issue, preceded by fewer than the allowed guesses and by no confirmation, and the subject is not shut out |
| StepUpProgress.EventsRun | biocheck_engine/stepup.py:92-137 | any issues and guesses in any order, with a clock that does not go back and a new identifier for each challenge, are a run |
| Login.Account.Login | platform/src/server/auth/service.ts:97-126 | agrees with the transition function that the run theorems are about |
| Login.WrongPasswordBound | platform/src/server/auth/service.ts:97-126 | in any run without a success, from any starting counter and with any other refusals in between, wrong passwords checked over T number at most 5 + floor(T / 15 minutes) |
| Login.SignedInIff | platform/src/server/auth/service.ts:97-126 | *supporting:* signing in takes an active unlocked account, the right password, a verified address and the second factor where enrolled or demanded; nothing else but a wrong password changes the counter |
| Login.LockedIff | platform/src/server/auth/service.ts:97-110 | in any run of a fresh account without a success the account is locked at a moment exactly when at least five wrong passwords were checked and the last of them less than fifteen minutes before |
| Login.AnsweredIff | platform/src/server/auth/service.ts:97-126 | how the next attempt of such a run is answered, case by case, and that a success starts the account afresh |
| Login.BoundIsReached | platform/src/server/auth/service.ts:97-110 | for every k some run checks exactly 5 + k wrong passwords over exactly k lockouts |
| RateLimit.HitKeepsPruned | platform/src/server/security/controls.ts:93-99 | a hit keeps the pruned list equal to the recent part of the bucket's whole history |
| RateLimit.FilterCounts | platform/src/server/security/controls.ts:95 | the list has one entry for each hit less than a window ago and no other |
| RateLimit.MemoryRateLimitStore.Hit | platform/src/server/security/controls.ts:93-99 | returns the number of hits of the bucket less than a window ago and touches no other bucket |
| RateLimit.MemoryRateLimitStore.Enforce | platform/src/server/security/controls.ts:115-122 | lets a call through exactly when the bucket's recent hits, this one included, are within the limit |
| RateLimit.AdmitsAtMostLimit | platform/src/server/security/controls.ts:91-122 | at most limit calls are let through in any half-open interval of one window's length |
| RateLimit.AdmitsIff | platform/src/server/security/controls.ts:93-122 | *supporting:* a call is let through exactly when the calls of its bucket less than a window before it, itself included, are within the limit |
| Jobs.HeldOnce | platform/src/server/jobs/framework.ts:52-60 | with any number of workers no job is held twice, and a job is running exactly while some batch holds it |
| JobsProgress.ClaimTakes | platform/src/server/jobs/framework.ts:52-60 | a claim takes only pending or failed rows whose time has come, at most the limit; with a place left it takes all of them, and without one those with the earliest times; nothing else changes |
| JobsProgress.ClaimIsPossible | platform/src/server/jobs/framework.ts:52-60 | *supporting:* a worker that is free can always make such a claim |
| JobsProgress.FailureRecorded | platform/src/server/jobs/framework.ts:74-86 | *supporting:* the row a recorded failure leaves, with one attempt more and its next time |
| JobsProgress.NextClaimIff | platform/src/server/jobs/framework.ts:54-86 | after its k-th attempt failed a job can be claimed again exactly from 1, 5, 15, 60 or, from the fifth on, 240 minutes later, and every claim from then with a place left takes it |
| JobsProgress.ScheduledThere | platform/src/server/jobs/framework.ts:35-45 | scheduling adds one pending row, with no attempts made, unless its dedupe key names a job already, and then changes nothing |
| Jobs.StartsBounded | platform/src/server/jobs/framework.ts:61-89 | a job's handler is started at most its maximum, one at least, plus once for each retry from the dead letters |
| JobsProgress.BoundIsReached | platform/src/server/jobs/framework.ts:50-91 | for every maximum m of at least one and every number r of retries some run from the empty queue starts one job m + r times, every start failing, and ends with it dead |
| Jobs.BuriedIffExhausted | platform/src/server/jobs/framework.ts:74-86 | a job that failed last is among the dead letters exactly when its attempts are used up |
| Jobs.DedupeIsUnique | platform/src/server/jobs/framework.ts:35-45 | a dedupe key names at most one job in every reachable state |
| Jobs.SucceededIsFinal | platform/src/server/jobs/framework.ts:50-91 | a job recorded as succeeded is never claimed, started or changed again |
| Jobs.CountsAgreeIff | platform/src/server/jobs/framework.ts:61-89 | a batch's counters add up to its runs if and only if none of its success updates failed |
| Jobs.CountedTwice | platform/src/server/jobs/framework.ts:66-87 | a run in which one job's success update throws ends with one run counted as a success and a failure |
| Jobs.AbandonedForever | platform/src/server/jobs/framework.ts:74-89 | *supporting:* jobs left over in an aborted or killed batch stay running in every later state |
| Jobs.RecordableIff | platform/src/server/jobs/framework.ts:50-91 | at every moment of every run some continuation records a claimed job if and only if its batch was neither aborted nor killed |
| Jobs.NothingIsLostIff | platform/src/server/jobs/framework.ts:50-91 | every running job of every run can still be recorded if and only if failure updates do not throw and workers are not killed |
| Jobs.BatchAbandoned | platform/src/server/jobs/framework.ts:74-87 | a run in which a failure update throws ends with an aborted batch still holding a running job |
| Jobs.WorkerKilled | platform/src/server/jobs/framework.ts:50-91 | a run in which a worker is killed while its handler runs loses the job although no update throws |
| Jobs.Runner.RunBatch | platform/src/server/jobs/framework.ts:61-90 | every job that had its turn ends as its handler and updates decide and every other row stays; the batch is finished exactly when no failure update threw, and otherwise stopped right after the first that did; the counters are those of its turns |
| Jobs.BatchCounts | platform/src/server/jobs/framework.ts:61-89 | those counters are the number of handlers that returned, of failures with attempts left and of failures without; they add up to the jobs run exactly when every success was recorded |
| JobsProgress.OutcomeSpelledOut | platform/src/server/jobs/framework.ts:64-88 | *supporting:* how a job of the batch ends, field by field |
| JobsProgress.RecordsSpelledOut | platform/src/server/jobs/framework.ts:64-88 | *supporting:* what the interleaved statements record: a failure is counted as dead exactly when it was the last attempt, and a retried job waits from that moment on |
| Mrz.CheckDigit | biocheck_engine/documents.py:56-63 | computes the 7-3-1 digit, or reports a character outside the alphabet |
| Mrz.ValueIsPlace | biocheck_engine/documents.py:56-61 | *supporting:* a character is worth its place in 0-9A-Z, in either case, the filler nothing, and no other character is read |
| Mrz.DigitByThrees | biocheck_engine/documents.py:56-63 | three more characters add seven times the first, three times the second and the third once, modulo ten |
| Mrz.WorkedDigits | biocheck_engine/documents.py:56-63 | *supporting:* the two examples of section 4.9 of ICAO Doc 9303 Part 3 have the digits 3 and 5 |
| Mrz.SubstitutionDetectedIff | biocheck_engine/documents.py:56-63 | a substituted character changes the digit exactly when the two values differ modulo 10 |
| Mrz.SwapDetectedIff | biocheck_engine/documents.py:56-63 | exchanging two characters changes the digit exactly when their distance is no multiple of 3 and their values differ modulo 5 |
| Mrz.GoodIff | biocheck_engine/documents.py:66-71 | a field is accepted exactly when the character in the digit's place is a digit or filler with the computed value |
| Mrz.FillerIsZero | biocheck_engine/documents.py:66-71 | a filler in the digit's place is accepted exactly where a zero would be |
| Documents.CheckField | biocheck_engine/documents.py:66-71 | decides a field and its digit, distinguishing bad from unreadable |
| Documents.ParseTd3 | biocheck_engine/documents.py:122-159 | fails exactly when some check of the passport line fails, reviews exactly when all hold and the date has passed, passes otherwise; the reasons are the failed checks in order, or the structure alone exactly when a field whose digit is asked for has a character outside the alphabet |
| Documents.ParseTd1 | biocheck_engine/documents.py:162-194 | the same for a card |
| Documents.ParseMrz | biocheck_engine/documents.py:95-102 | a cleaned reading of two lines of 44 or three of 30 has that layout's status and reasons, and every other shape fails |
| DocumentsMeaning.CleanedIs | biocheck_engine/documents.py:95-97 | cleaning goes line by line: a blank one goes, and of any other what stays is the text between its blanks with its letters raised |
| DocumentsMeaning.BlankIff | biocheck_engine/documents.py:97 | *supporting:* the characters that count as blank |
| DocumentsMeaning.PassportRead | biocheck_engine/documents.py:122-159 | a passport line put together from its printed fields fails unless document number, birth date, expiry, a personal number that is not empty, and all of them together carry their digits; it passes when moreover its day has not gone by |
| DocumentsMeaning.CardRead | biocheck_engine/documents.py:162-194 | the same for the two checked lines of a card, whose optional data counts in the whole alone |
| DocumentsMeaning.ExpiredIff | biocheck_engine/documents.py:74-85 | an expiry has passed exactly when the field is the print of a day that exists and today's date is a later number, year before month before day |
| DocumentsMeaning.Calendar | biocheck_engine/documents.py:82-85 | *supporting:* the days that exist from 2000 to 2099, month by month |
| Documents.ExpiryRoundTrip | biocheck_engine/documents.py:74-85 | every day from 2000 to 2099 is read back from its field, and nothing that is no such day is read as one |
| Documents.ComputedDigitsPass | biocheck_engine/documents.py:122-159 | any fields in the alphabet printed with their computed digits pass until they expire |
| Documents.Td3SubstitutionFails | biocheck_engine/documents.py:105-159 | in a reading that has not failed, a covered character replaced by one of another value modulo 10, or of none, fails the reading |
| Documents.Td3SwapFails | biocheck_engine/documents.py:105-159 | in a reading that has not failed, covered neighbours whose values differ modulo 5 changing places fail the reading |
| Documents.Td3DigitFails | biocheck_engine/documents.py:144-146 | *supporting:* changing the value of the composite digit fails the reading |
| Documents.DocNumberSubstitutionIff | biocheck_engine/documents.py:127-146 | in the document number a substitution is found if and only if it changes the value modulo 10 |
| Documents.UncoveredUnchecked | biocheck_engine/documents.py:122-159 | *supporting:* no change of nationality or sex is ever found |
| Documents.Td1SubstitutionFails | biocheck_engine/documents.py:105-194 | the substitution result for a card's covered positions |
| Documents.Td1SwapFails | biocheck_engine/documents.py:105-194 | the exchange result for a card's covered positions |
| Totp.EncodeSecret | platform/src/server/auth/totp.ts:8-15 | the encoding loop computes the base32 text |
| Totp.DecodeSecret | platform/src/server/auth/totp.ts:17-27 | the decoding loops compute the bytes, or report a character outside the alphabet |
| Totp.DecodeEncode | platform/src/server/auth/totp.ts:8-27 | decoding an encoded byte string gives its longest prefix of whole bytes |
| TotpNumbers.EncodeIsBase32 | platform/src/server/auth/totp.ts:8-15 | the encoded text, read as a number in base 32, is the bytes' number without the bits of an incomplete last symbol |
| TotpNumbers.PaddingIgnored | platform/src/server/auth/totp.ts:17-19 | *supporting:* padding at the end makes no difference to what is decoded |
| TotpNumbers.CaseIgnored | platform/src/server/auth/totp.ts:17-19 | *supporting:* nor does lower case |
| Totp.RoundTripIff | platform/src/server/auth/totp.ts:8-27 | the round trip is whole if and only if the length is a multiple of 5 |
| Totp.SixDigits | platform/src/server/auth/totp.ts:34-41 | truncation reads inside the digest, fits 31 bits, and prints the last six decimal places as six digits |
| Totp.TruncatedIsBigEndian | platform/src/server/auth/totp.ts:35-40 | the truncated number is the four bytes the digest's last byte points at, most significant first, without the sign bit |
| Totp.WorkedExample | platform/src/server/auth/totp.ts:34-41 | *supporting:* the digest of section 5.4 of RFC 4226 gives 872921 |
| Totp.AcceptedIff | platform/src/server/auth/totp.ts:45-47 | what is accepted at a moment is exactly the codes of its own step and the two beside it |
| TotpNumbers.CounterIff | platform/src/server/auth/totp.ts:30 | *supporting:* the step of a moment is c exactly in the thirty seconds from 30 c seconds after the epoch |
| TotpNumbers.MessageIsCounter | platform/src/server/auth/totp.ts:31-32 | *supporting:* the hashed message is eight bytes and, most significant first, the counter |
| Totp.AcceptedNearby | platform/src/server/auth/totp.ts:29-47 | a code made at g is accepted at every moment within 30 seconds of g |
| Totp.AcceptedFarAway | platform/src/server/auth/totp.ts:29-47 | a minute or more away it is accepted only if another step around that moment has the same code |
| Totp.MessagesDiffer | platform/src/server/auth/totp.ts:30-33 | different time steps hash different messages |
| Ledger.Chain.Append | biocheck_engine/audit.py:16-24 | the list grows by one entry, linked to the old head and hashed behind it, and stays chained |
| Ledger.Chain.Verify | biocheck_engine/audit.py:26-35 | answers true exactly when every entry is linked, also for a list that was changed behind its back |
| Ledger.LinksMean | biocheck_engine/audit.py:26-35 | *supporting:* linked means that every entry carries the hash of the one before it, the first none, and the digest of its own body behind that |
| Ledger.SameHeadSameLedger | biocheck_engine/audit.py:26-35 | *supporting:* two ledgers that verify and end in the same hash are the same entry by entry |
| LedgerTamper.EngineTextIff | biocheck_engine/crypto.py:49-51 | the engine's text is the same for two values exactly when they are equal up to the order of keys at every depth |
| LedgerTamper.PreimageIff | biocheck_engine/crypto.py:49-51 | the hashed text identifies the head before it and the event up to key order |
| LedgerTamper.HashedEntry | biocheck_engine/crypto.py:49-51 | *supporting:* the text hashed for an entry of one field, character by character: the hash before it, then the keys in order with the link among them |
| LedgerTamper.EscapesSpelledOut | biocheck_engine/crypto.py:49-51 | *supporting:* the escapes of six characters, one of them beyond the basic plane |
| LedgerTamper.TamperEvident | biocheck_engine/audit.py:26-35 | two ledgers that verify under the engine's digest and end in the same hash agree in length, links, hashes and events up to key order, or two different texts hashed on them have one hash |
| Orchestrator.Engine.Decide | biocheck_engine/orchestration.py:107-182 | the outcome is the worst of four terms, the reasons are exactly the rules that fired or the all-clear when none did, and both are what the ledger gains |
| Orchestrator.OutcomeIff | biocheck_engine/orchestration.py:107-191 | which of the four outcomes is given, in the signals' own fields: denied exactly for a rejected modality, a blocked device or a denied location; otherwise reviewed exactly for a required name that is missing or last under review, or a refused step-up; otherwise a step-up exactly for an unknown device or an elevated location the policy minds and no satisfied step-up may clear |
| Orchestrator.ReasonsIff | biocheck_engine/orchestration.py:127-185 | each reason is given exactly in its own case, written out, and the all-clear stands alone exactly when nothing was raised |
| Orchestrator.ApprovedIff | biocheck_engine/orchestration.py:107-182 | *supporting:* approval is given exactly when nothing is rejected, blocked, denied, missing, under review or refused and raised context was cleared |
| Orchestrator.NothingRescues | biocheck_engine/orchestration.py:107-182 | *supporting:* no device, location or step-up lifts a rejected biometric above rejection or a wanting required one above review |
| Orchestrator.OrderIgnored | biocheck_engine/orchestration.py:107-182 | the outcome does not depend on the order of distinctly named modalities or of the required names |
| Orchestrator.OutcomeMonotone | biocheck_engine/orchestration.py:107-182 | making any signal worse never makes the outcome better |
| Orchestrator.NeverBelowReviewIff | biocheck_engine/orchestration.py:107-182 | every device, location and step-up leave the outcome at review or worse if and only if some modality is rejected or some required name is missing or under review in its last entry |
| Orchestrator.ReviewIgnoredIff | biocheck_engine/orchestration.py:115-153 | an entry under review makes no difference in any context exactly when its name is not required, a later entry has its name, or the person is held back without it |
| Orchestrator.UnrequiredReviewApproved | biocheck_engine/orchestration.py:115-153 | a face under review is approved where only the finger is required |
| Orchestrator.OverriddenReviewApproved | biocheck_engine/orchestration.py:115-153 | a required face under review is approved when a later entry approves it |
| Orchestrator.UnrequiredReviewIgnored | biocheck_engine/orchestration.py:141-153 | *supporting:* a modality under review that is not required changes nothing |

## Left out

- Web pages, HTTP routes, configuration, the Java sidecar and image processing before the list of minutiae: plumbing and foreign libraries.
- Real cryptography, random generation, the AWS key service: ideal functions and parameters.
- serialise_template and deserialise_template: a fixed record printed as JSON with angles rounded to four places; rounding is not modelled.
- Floating-point rounding in the matcher and in the time-step division.
- Dates inside audit details: details are plain JSON values, where a date has become a string.
- Text in the MRZ, base32 and secret modules is ASCII where the code upper-cases characters or looks digits and letters up; the other fields of an MRZ result (names, nationality, sex, birth date) only copy characters.
- An MRZ expiry that is no date is not checked, so a passed reading is unexpired only when its expiry resolves.
- Workflow enrolment: a started enrolment may insert its template at any later moment and with any model; its quality, liveness and model checks are not modelled, so the results hold for more runs than the code has.
- Workflow errors other than an outage or an unapproved model end the request without an attempt; they are runs that stop early.
- Workflow review cases, webhooks and the audit rows the workflow writes.
- WorkflowService.Database.Verify: the row the lookup returns is a parameter constrained to be the newest usable template, because choosing it is the query's work.
- Keys: one tenant at a time; the rotation job's loop over tenants adds nothing to it.
- EngineJson: numbers that are not finite print under one name, and the engine's own text for a finite number is a parameter; half surrogate pairs do not occur in the model's strings.
- Secrets: version numbers are unbounded, where JavaScript numbers are exact below 2^53.
- EvidenceService.Service.PurgeExpired: it is run by one caller; among others EvidencePurge.SweepLeavesNothing holds, where a retention whose expiry passes between its check and its insert can still add an expired live row, which the next sweep removes.
- StepUp PINs: verifying a PIN changes no state, so nothing bounds the guesses; the bound is about one-time passwords.
- Login: attempts of one user follow one another; two at once can both read the same counter and lose an increment, so the bound is about sequential runs.
- RateLimit: each bucket has one window length, as every caller in the code gives it.
- Jobs: the claim is one atomic statement, as its comment says; a handler's own effects are not modelled.
- Orchestrator.Engine.Decide: correlation identifiers, detail texts of reasons and the signals map, which only copy inputs.
- Device trust, location distance, webhook delivery, dashboards, the role table and retention of idempotency records.
