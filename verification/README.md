# SentinelID: a verified model

SentinelID authenticates a person on an edge device and reports to a cloud service. This project models
the parts of it that carry state and promises, and proves those promises for all inputs and all runs.

The files follow the program:

- `Outbox`, `RetrySchedule`, `Telemetry`, `Exporter`, `ExporterService`, `EdgeMachine` — the edge side of
  telemetry: outbox rows, signing, batching, marking, retries.
- `CloudIngest`, `IngestService` — the ingest endpoint, as one loop-by-loop request and as phases of
  requests that interleave between their reads and their commits.
- `Delivery` — edge, lossy network and cloud composed into one step system.
- `Auth`, `AuthRuns`, `AuthRounds`, `AuthService`, `Detectors`, `AuthWithDetectors` — the authentication
  session, the policy, the handlers, and the blink and head-turn detectors.
- `Consistency` — a world in which all laws assumed below hold at once.
- `TokenBucket`, `Lockout`, `RateLimiter` — rate limiting and lockout.
- `Envelope`, `Templates`, `TemplateService`, `Audit`, `AuditService` — encrypted blobs, the template
  store under key rotation, and the hash-chained audit log.
- `Calibration`, `FrameControl`, `Perf`, `Series` — the threshold sweep, the frame-rate gate, rolling
  percentiles and chart buckets.

Classes carry the fields that the program updates in place; their methods are proved against functions on
values, and the lemmas are about those functions. Signatures, hashes, AEAD, key derivation, JSON text and
Python conversions are parameters with the laws they are used for (`Exporter.Correct`, `Exporter.OnlySigned`,
`Envelope.Lawful`, `Envelope.Binding`, `Audit.Sane`, `Audit.StrongChain`, `Gate.FullDigests` in `Lockout`);
`Consistency.SomeWorld` exhibits a world, and `Consistency.SomeCipher` a cipher, that meets those of the audit
log and of the blobs together. Clocks, random draws, network outcomes and the results of face detection are
inputs.

Where the code and its documentation, or two parts of the code, disagree, the model follows the code:

- The head-pose detector reports a completed turn only on a neutral frame, while the liveness evaluator
  asks for "left" or "right" on that same frame. `AuthWithDetectors.NeverAllowedInProduction` proves that
  with this detector no production session is ever allowed; everything else about sessions is therefore
  proved with "the active challenge is satisfied" as a free input.
- The rotation endpoint promises that on any failure the old key stays usable. That fails exactly when the
  key store fails after the rewrap committed (`Templates.RotationKeepsTemplateIff`).
- Rotation rewraps templates only, so an audit log verifies under a new key exactly when it holds no
  encrypted row (`Audit.VerifiesAfterRotationIff`).
- The cloud recognises duplicates by event id alone and fills in a missing request id, so a 202 guarantees
  the content of an event only if its id was new and it named its request, or its row was there already
  (`IngestService.AcceptedContentIff`). A stored row whose request id was filled in no longer verifies by
  itself; the store invariant is therefore about events as received.
- The cloud re-serialises the events it parsed; the signed bytes come back exactly when the posted object
  has no null and no value that had to be converted (`Telemetry.ReserialisedIffFaithful`), which every
  enqueued payload meets.
- Lockout is per client key, and the key is derived from the token a request presents, so it slows down
  repeated failures with one token, not attempts with different ones (`Lockout.LockedIff`,
  `Lockout.NewTokensAreNeverLocked`).
- The calibration report cannot recommend a threshold above 1. That costs an attainable target exactly when
  it lies below the share of impostors who score exactly 1 (`Calibration.MissedOutOfRangeIff`); otherwise the
  report is as good as any real threshold.
- A rotated key that was stored in the file is not found by a later process if the environment variable or
  the keychain has a key (`Templates.StoredKeyIsFoundIff`); the other results on rotation are about one
  process.
- Bucket keys join path and client with a colon, so a path that holds one can share a bucket
  (`RateLimiting.OwnBucketIff`, `RateLimiting.SharedBucket`).
- Token-bucket windows are indexed by call, not by time: several calls may share one clock reading.

## Model

| member | source | states |
|---|---|---|
| Delivery.NothingLostNothingTwice | apps/edge/sentinelid_edge/services/storage/repo_outbox.py:106-347 | in every state of every run of enqueue, send, lost request, lost response, crash between two row updates, replay, purge and any cloud activity: each enqueued event is in the cloud or still PENDING or DLQ; a SENT or purged row is in the cloud; no event id is in the cloud twice |
| Delivery.DeliveredIntact | apps/edge/sentinelid_edge/services/telemetry/exporter.py:190-387 | when its event ids are the device's own, whoever sends them again, what the cloud holds for a SENT or purged row is the record the device signed: owned by it, in every other field the event enqueued, apart from a request id filled in where there was none; exactly the signed record if and only if the event named its request |
| Delivery.DeadLetterInTime | apps/edge/sentinelid_edge/services/storage/repo_outbox.py:159-204 | with at least one attempt allowed and non-negative backoff and jitter, in every run a DLQ row has used exactly max attempts; its last failure came after its first, apart from the time attempts came after they were due, no sooner than initial * (1 - jitter) * (2^(max-1) - 1) seconds and no later than initial * (1 + jitter) * (2^(max-1) - 1), or a tenth of a second more per backoff where the first cannot exceed a tenth |
| Delivery.RetryInTime | apps/edge/sentinelid_edge/services/storage/repo_outbox.py:159-204 | in every run a row that failed k times is due again no sooner than 0.1 s and no later than the larger of 0.1 s and initial * (1 + jitter) * 2^(k-1) after its last failure; and, counted from its first, no later than all backoffs at their longest plus the time attempts came late |
| Delivery.InvInEveryRun | apps/edge/sentinelid_edge/services/telemetry/exporter.py:241-387 | the end-to-end invariant holds in every state of every run |
| Delivery.StepKeepsDelivery | apps/edge/sentinelid_edge/services/telemetry/exporter.py:241-387 | each step of edge, network or cloud keeps the end-to-end invariant |
| Delivery.AcknowledgedIsStored | apps/edge/sentinelid_edge/services/telemetry/exporter.py:333-387 | an answer whose counts cover the batch means every event of the batch is in the cloud, whatever requests interleaved |
| Delivery.OursOnlyInEveryRun | apps/cloud/api/ingest_router.py:247-275 | with private ids, every stored or in-flight event under one of them is a record this device signed |
| Delivery.BatchCarriesRecords | apps/edge/sentinelid_edge/services/telemetry/exporter.py:299-331 | the request built from the due rows carries exactly the signed records of those rows, in order |
| EdgeMachine.EdgeStepKeepsInv | apps/edge/sentinelid_edge/services/storage/repo_outbox.py:53-347 | every edge step keeps: nothing lost, payloads unchanged, only stored events marked SENT, attempts within budget, backoff on schedule |
| EdgeMachine.Perform | apps/edge/sentinelid_edge/services/storage/repo_outbox.py:53-347 | each step of the edge leaves the table as one call of the repository does: enqueue, error note, sent, failed, one replay or purge; all others leave it alone |
| EdgeMachine.PerformReplay | apps/edge/sentinelid_edge/services/storage/repo_outbox.py:292-321 | and so does the replay of several rows, whichever of the oldest the query picks |
| EdgeMachine.MarkKeepsInv | apps/edge/sentinelid_edge/services/telemetry/exporter.py:266-282 | marking one row, after which the process may crash, keeps the invariant |
| EdgeMachine.MaintenanceKeepsInv | apps/edge/sentinelid_edge/services/storage/repo_outbox.py:267-347 | replay, purge and error notes keep the invariant while an export is under way |
| EdgeMachine.StepsDrain | apps/edge/sentinelid_edge/services/storage/repo_outbox.py:130-204 | with at least one attempt allowed and without new rows or replays, no step adds attempts, and each mark strictly decreases the attempts left over PENDING rows |
| EdgeMachine.MarksAreBounded | apps/edge/sentinelid_edge/services/telemetry/exporter.py:223-282 | such a run marks rows at most as often as the attempts its first state had left |
| EdgeMachine.MarksCount | apps/edge/sentinelid_edge/services/telemetry/exporter.py:223-282 | the number of marks is the number of steps that mark a row |
| RetrySchedule.BackoffAtLeast | apps/edge/sentinelid_edge/services/storage/repo_outbox.py:181-184 | every backoff is at least initial * (1 - jitter) * 2^(k-1), and never below 0.1 s |
| RetrySchedule.BackoffAtMost | apps/edge/sentinelid_edge/services/storage/repo_outbox.py:181-184 | every backoff is at most the larger of 0.1 s and initial * (1 + jitter) * 2^(k-1) |
| RetrySchedule.LongestAddUp | apps/edge/sentinelid_edge/services/storage/repo_outbox.py:181-184 | the longest backoffs add up to initial * (1 + jitter) * (2^k - 1), or at most a tenth of a second more for each where the first cannot exceed a tenth |
| RetrySchedule.AttemptsLeftIs | apps/edge/sentinelid_edge/services/storage/repo_outbox.py:159-176 | the attempts left are, over the PENDING rows, the maximum less the attempts used |
| Outbox.PowersOfTwo | apps/edge/sentinelid_edge/services/storage/repo_outbox.py:181 | the backoff factor doubles: sums of exponents become products, from 2 on |
| RetrySchedule.FailureKeepsSchedule | apps/edge/sentinelid_edge/services/storage/repo_outbox.py:159-204 | one more failure of a due row keeps PENDING below and DLQ at the maximum, and keeps the schedule that adds up all backoffs between their shortest and their longest |
| RetrySchedule.MarkUsesUpAttempts | apps/edge/sentinelid_edge/services/storage/repo_outbox.py:106-204 | marking a waiting row SENT or failed strictly uses up attempts |
| Outbox.OutboxRepository.constructor | apps/edge/sentinelid_edge/services/storage/repo_outbox.py:50-51 | an empty outbox |
| Outbox.OutboxRepository.AddEvent | apps/edge/sentinelid_edge/services/storage/repo_outbox.py:53-76 | adds one PENDING row under a new id, with no attempts and no errors, due at once, and changes no other |
| Outbox.OutboxRepository.GetPendingEvents | apps/edge/sentinelid_edge/services/storage/repo_outbox.py:78-104 | only rows that are PENDING with their next attempt due, oldest first; a due row is left out only for the limit and is no older than any handed out |
| Outbox.OutboxRepository.SelectOldest | apps/edge/sentinelid_edge/services/storage/repo_outbox.py:91-101 | the oldest eligible rows, oldest first, up to the limit, as the queries order them |
| Outbox.OutboxRepository.MarkSent | apps/edge/sentinelid_edge/services/storage/repo_outbox.py:106-128 | turns the row SENT at this moment, clears its errors, keeps payload, age and attempts, and changes no other row |
| Outbox.OutboxRepository.MarkFailed | apps/edge/sentinelid_edge/services/storage/repo_outbox.py:159-204 | counts the attempt; below the maximum the next attempt is at now plus the larger of 0.1 s and initial * 2^(failures before) * (1 + draw), and at the maximum the row is DLQ; everything else stays |
| Outbox.OutboxRepository.NoteError | apps/edge/sentinelid_edge/services/storage/repo_outbox.py:206-238 | the first of the two commits of a failure changes only the error text |
| Outbox.OutboxRepository.MarkFailedWithError | apps/edge/sentinelid_edge/services/storage/repo_outbox.py:206-238 | both commits together are one failure with its error text |
| Outbox.OutboxRepository.ReplayDlqEvent | apps/edge/sentinelid_edge/services/storage/repo_outbox.py:267-290 | a DLQ row becomes PENDING with no attempts, no error and due now, with its payload; any other row is left alone |
| Outbox.OutboxRepository.ReplayDlqEvents | apps/edge/sentinelid_edge/services/storage/repo_outbox.py:292-321 | replays exactly the oldest DLQ rows up to the limit, each as above, and changes no other |
| Outbox.OutboxRepository.PurgeSentOlderThan | apps/edge/sentinelid_edge/services/storage/repo_outbox.py:323-347 | deletes exactly the SENT rows whose success, or creation where none is noted, is more than the retention days ago |
| CloudIngest.StoreSoundInEveryRun | apps/cloud/api/ingest_router.py:121-332 | for any interleaving of any requests: event ids stay unique, every stored event verified, as received, under the key of its registered device, every 202 is honoured, and no device key changes between any two moments |
| CloudIngest.StepKeepsInv | apps/cloud/api/ingest_router.py:201-322 | one phase of one request keeps all of that and only grows the store |
| CloudIngest.CommitSound | apps/cloud/api/ingest_router.py:247-322 | a commit after stale reads is sound: the unique constraints reject it, or all of it is right, with ingested + duplicated = received |
| CloudIngest.AllOrNothing | apps/cloud/api/ingest_router.py:247-332 | a commit adds the rows of all fresh events of the batch and nothing else, or changes nothing and answers 500 |
| CloudIngest.FreshAndExistingCount | apps/cloud/api/ingest_router.py:233-275 | with distinct ids, fresh and existing events add up to the batch |
| CloudIngest.FreshDistinct | apps/cloud/api/ingest_router.py:247-275 | the rows to insert have distinct ids |
| IngestService.IngestEndpoint.CheckEach | apps/cloud/api/ingest_router.py:179-199 | the signature loop passes exactly when every event verifies |
| IngestService.IngestEndpoint.Screen | apps/cloud/api/ingest_router.py:145-199 | 422 exactly for an event of another device; no refusal exactly if also the batch signature and every event signature verify; otherwise 401 |
| IngestService.IngestEndpoint.BuildRows | apps/cloud/api/ingest_router.py:247-275 | the row loop yields exactly the fresh events, in order, with the request id filled in |
| IngestService.IngestEndpoint.IngestEvents | apps/cloud/api/ingest_router.py:121-332 | a request served alone changes the database and replies as its phases do |
| IngestService.ServedAloneIff | apps/cloud/api/ingest_router.py:145-332 | served alone, 202 exactly when device ids agree, all signatures verify, the registered key matches, ids are distinct and the table takes every new row; 500 exactly when only the last fails |
| IngestService.RefusedAloneIff | apps/cloud/api/ingest_router.py:145-245 | served alone, 422 exactly for an event of another device, else 401 exactly for a signature that does not verify or a key other than the one registered, else 409 exactly for a repeated id; a refusal changes nothing |
| IngestService.AcceptedAlone | apps/cloud/api/ingest_router.py:201-315 | after a 202 alone: ingested counts the events whose ids were new, duplicated the others, registered says whether the device was new; a new device is stored with the request's key, a known one keeps all but the time it was last seen |
| IngestService.AcceptedContentIff | apps/cloud/api/ingest_router.py:233-275 | after a 202 an event is stored as sent exactly when its id was new and it named its request, or the row under its id is already that very event |
| IngestService.ContentCanChange | apps/cloud/api/ingest_router.py:247-251 | both failing cases happen: any other event under the same id, and any event without a request id, is acknowledged and not stored as sent |
| Telemetry.DictParsesBack | apps/edge/sentinelid_edge/services/telemetry/event.py:114-127 | dropping None fields loses nothing: a signed event of known type and outcome parses back to itself |
| Telemetry.DictInFull | apps/edge/sentinelid_edge/services/telemetry/event.py:114-127 | the object of a record holds every field under its own name, an optional one only if it is there |
| Telemetry.ReserialisedIffFaithful | apps/cloud/api/ingest_router.py:117-119 | whatever other values the request model converts, parsing and dumping restores a posted object exactly when it has no null and every number and flag has its declared type |
| Telemetry.NullIsNotRestored | apps/cloud/api/ingest_router.py:117-119 | any event posted with an explicit null session id is accepted and not restored |
| Exporter.SignableIgnoresSignature | apps/edge/sentinelid_edge/services/telemetry/signer.py:79-105 | the signed map of an event does not depend on its signature field |
| Exporter.EventSignatureCovers | apps/cloud/api/canonical.py:25-29 | two records have the same signed map exactly if they agree in every field except the signature |
| Exporter.BatchSignatureCovers | apps/cloud/api/canonical.py:32-44 | two batches have the same signed map exactly if they agree in batch id, device id, timestamp and the whole list of events |
| Exporter.AuthenticIsAsSigned | apps/cloud/api/ingest_router.py:145-199 | under a verifier that accepts exactly what was signed, a request that passes the checks carries the very batch and the very events that its signatures were made for |
| Exporter.AlteredEventIsRefused | apps/cloud/api/ingest_router.py:179-199 | so an event altered in any field after signing makes the endpoint refuse the request with 401 or 422 and store nothing |
| Exporter.AlteredBatchIsRefused | apps/cloud/api/ingest_router.py:156-177 | and so does a batch whose id, device, time or list of events is not what its signature was made for |
| Exporter.UsableIff | apps/edge/sentinelid_edge/services/telemetry/exporter.py:284-331 | a row is usable exactly if the event object it holds, directly or under "event", has an id and a signature and names this device |
| Exporter.EnqueuedIsUsable | apps/edge/sentinelid_edge/services/telemetry/exporter.py:190-211 | an enqueued payload passes the exporter's checks, and the cloud's model takes it exactly when type and outcome are known, reading back the signed record |
| Exporter.SignedRecordVerifies | apps/edge/sentinelid_edge/services/telemetry/signer.py:23-40 | the record signed on the edge verifies on the cloud's own serialisation |
| Exporter.HonestBatchIsAuthentic | apps/edge/sentinelid_edge/services/telemetry/exporter.py:284-331 | a batch of honest rows passes the device-id check and both signature checks |
| Exporter.AcceptedIsAcknowledged | apps/edge/sentinelid_edge/services/telemetry/exporter.py:333-387 | served alone, a reply acknowledges the batch exactly when it is a 202 |
| Exporter.HonestBatchAcknowledgedIff | apps/edge/sentinelid_edge/services/telemetry/exporter.py:333-387 | an honest batch is acknowledged exactly when the device is unregistered or registered with this key, ids are distinct and the table takes every new row |
| Exporter.UnknownEventPoisonsBatch | apps/cloud/api/ingest_router.py:46-103 | the cloud takes the batch exactly when all its events have known types and outcomes |
| ExporterService.TelemetryExporter.constructor | apps/edge/sentinelid_edge/services/telemetry/exporter.py:46-110 | an exporter with an empty outbox |
| ExporterService.TelemetryExporter.AddEvent | apps/edge/sentinelid_edge/services/telemetry/exporter.py:190-211 | forces the device id, signs and enqueues |
| ExporterService.TelemetryExporter.BuildIngestBatch | apps/edge/sentinelid_edge/services/telemetry/exporter.py:299-331 | the batch of all rows in order under this device's id and key, signed over exactly itself; None with an error exactly if some row is unusable |
| ExporterService.TelemetryExporter.MarkAllSent | apps/edge/sentinelid_edge/services/telemetry/exporter.py:266-272 | every row of the batch, and no other, is SENT |
| ExporterService.TelemetryExporter.MarkAllFailed | apps/edge/sentinelid_edge/services/telemetry/exporter.py:274-282 | every row of the batch, and no other, has one more failed attempt |
| ExporterService.TelemetryExporter.ExportBatch | apps/edge/sentinelid_edge/services/telemetry/exporter.py:241-282 | all rows SENT exactly after a 2xx whose ingested and duplicated counts cover the batch, all failed otherwise |
| ExporterService.TelemetryExporter.ExportPending | apps/edge/sentinelid_edge/services/telemetry/exporter.py:213-239 | sends at most one batch of the oldest due rows, and none below the batch size unless forced |
| AuthRuns.FirstAllowIsEarned | apps/edge/sentinelid_edge/api/v1/auth.py:345-544 | in production the first allow of a session implies a matching enrolled template, every primary challenge satisfied while active and before its own timeout, every scored risk below R2, and all risks below R1 or a completed step-up round |
| AuthRounds.FirstFinishIff | apps/edge/sentinelid_edge/api/v1/auth.py:407-547 | the converse as well, in every mode: the first finish of a live session, with a matching face and all risks below R2, is allowed exactly if its challenges were satisfied in turn, each before its timeout, with all risks below R1, or, where they were not, dev relaxation steps in; a step-up is asked for exactly if they were, with a risk of R1 or more; all else is denied |
| AuthRounds.SecondFinishIff | apps/edge/sentinelid_edge/api/v1/auth.py:483-547 | the next finish after a step-up, in the same terms: allowed exactly if the face matches, all risks are below R2, and the challenges of the new round were satisfied in turn and in time, or dev relaxation steps in; all else is denied |
| AuthRounds.RoundPassedIffMet | apps/edge/sentinelid_edge/services/liveness/evaluator.py:23-112 | a round is passed exactly if as many frames satisfied their challenge as it has challenges, and every frame came before the timeout of the challenge whose turn it was |
| AuthRuns.FirstAllowAlwaysMatches | apps/edge/sentinelid_edge/api/v1/auth.py:143-169 | in every mode, dev relaxation included, a first allow implies a matching face and risks below R2 |
| AuthRuns.FirstAllowMatchesLastCapture | apps/edge/sentinelid_edge/api/v1/auth.py:306-350 | in every mode the embedding that a first allow matched is that of the last capturing frame, whose own risk was below R2 if it was scored and absent if its scoring failed |
| AuthRuns.EmbeddingIsLastCapture | apps/edge/sentinelid_edge/api/v1/auth.py:306-330 | in every run the session holds the embedding of the last frame that captured one |
| AuthRuns.CaptureIsScoredIff | apps/edge/sentinelid_edge/api/v1/auth.py:338-350 | a capturing frame counts towards the risk exactly if its scoring does not fail |
| AuthRuns.UnscoredFrameReplacesEmbedding | apps/edge/sentinelid_edge/api/v1/auth.py:306-350 | the failing side: a frame whose scoring fails replaces the embedding and leaves the risk |
| AuthRuns.QualityIsLastGraded | apps/edge/sentinelid_edge/api/v1/auth.py:273-336 | in every run the quality codes, which dev relaxation reads, are those of the last frame that replaced them: no face, several faces, the fallback code, those given, or none |
| AuthRuns.FrameReplyIs | apps/edge/sentinelid_edge/api/v1/auth.py:215-403 | the reply to a frame, by the first check that stops it |
| AuthRuns.FrameIsCounted | apps/edge/sentinelid_edge/api/v1/auth.py:215-251 | a frame of a live session is counted unless dropped, beyond the budget it ends the session, and it leaves the decision alone |
| AuthRuns.FrameRaisesRisk | apps/edge/sentinelid_edge/api/v1/auth.py:338-350 | a score above the session's risk becomes it and adds its codes once; no other frame touches either |
| AuthRuns.LiveVerdictIff | apps/edge/sentinelid_edge/domain/policy.py:83-241 | the full verdict on a live session in every mode: allow, step-up or deny exactly under the stated conditions, dev relaxation included |
| AuthRuns.DecisionIsExplained | apps/edge/sentinelid_edge/domain/policy.py:132-241 | the codes of a decision on a live session name the first gate it failed, with the spoof codes where the risk decided |
| AuthRuns.FinishReports | apps/edge/sentinelid_edge/api/v1/auth.py:515-541 | a final verdict is recorded with its liveness flag and exactly the codes that apply, the policy's first and none added twice |
| AuthRuns.AllowChecksFaceAndRisk | apps/edge/sentinelid_edge/domain/policy.py:190-241 | an allow, by policy or by relaxation, passed the similarity and upper risk gates |
| AuthRuns.SoundInEveryRun | apps/edge/sentinelid_edge/services/liveness/evaluator.py:23-112 | in every run completed challenges precede the active one, and once a round is complete the liveness flag says whether all were passed |
| AuthRuns.FrameKeepsSound | apps/edge/sentinelid_edge/api/v1/auth.py:199-403 | a frame request keeps that invariant |
| AuthRuns.FinishKeepsSound | apps/edge/sentinelid_edge/api/v1/auth.py:407-547 | a finish request keeps that invariant |
| AuthRuns.StepPassesOnlyActive | apps/edge/sentinelid_edge/services/liveness/evaluator.py:44-77 | only a scored frame satisfying the active, unexpired challenge passes a challenge |
| AuthRuns.PassedHasWitness | apps/edge/sentinelid_edge/services/liveness/evaluator.py:44-77 | every challenge marked passed has such a frame in the past |
| AuthRuns.RiskNeverFalls | apps/edge/sentinelid_edge/api/v1/auth.py:345-350 | session risk never decreases over a run |
| AuthRuns.EveryScoreCounts | apps/edge/sentinelid_edge/api/v1/auth.py:345-350 | session risk is at least every scored frame's risk |
| AuthRuns.RiskIsSomeScore | apps/edge/sentinelid_edge/api/v1/auth.py:345-350 | it is zero or equals some scored frame's risk |
| AuthRuns.DecisionIsFinal | apps/edge/sentinelid_edge/domain/policy.py:132-149 | after a final decision every later finish in the session's lifetime returns it, and every frame is refused, in all modes |
| AuthRuns.FinishedStaysFinished | apps/edge/sentinelid_edge/domain/policy.py:132-149 | a finished session keeps its decision; one ended by the frame budget is denied |
| AuthRuns.AtMostOneStepUp | apps/edge/sentinelid_edge/api/v1/auth.py:483-513 | at most one step-up round is issued per session, whatever the configured maximum |
| AuthRuns.FrameBudgetHolds | apps/edge/sentinelid_edge/api/v1/auth.py:244-251 | at most MAX_FRAMES frames of a session pass the budget |
| AuthWithDetectors.NeverAllowedInProduction | apps/edge/sentinelid_edge/services/liveness/evaluator.py:61-70 | with the real head-pose detector no production run ever ends in allow |
| AuthWithDetectors.RealDetectorAllowsIff | apps/edge/sentinelid_edge/api/v1/auth.py:143-169 | with the real head-pose detector a live session is allowed exactly when dev relaxation lets it through |
| AuthWithDetectors.TurnsNeverPass | apps/edge/sentinelid_edge/services/liveness/evaluator.py:61-70 | with the real detector no turn challenge is ever passed |
| AuthWithDetectors.SomeTurn | apps/edge/sentinelid_edge/services/liveness/challenges.py:75-98 | every generated round asks for at least one turn |
| AuthService.AuthSession.constructor | apps/edge/sentinelid_edge/domain/models.py:58-84 | a new session |
| AuthService.AuthSession.MoveToNextChallenge | apps/edge/sentinelid_edge/domain/models.py:100-109 | advances unless at the last challenge |
| AuthService.AuthSession.MoveToNextStepUpChallenge | apps/edge/sentinelid_edge/domain/models.py:125-134 | the same within the step-up round |
| AuthService.AuthSession.StartStepUp | apps/edge/sentinelid_edge/domain/models.py:142-147 | enters a fresh step-up round and counts it |
| AuthService.AuthSession.ClearStepUp | apps/edge/sentinelid_edge/domain/models.py:149-153 | leaves the step-up round |
| AuthService.ProcessFrame | apps/edge/sentinelid_edge/services/liveness/evaluator.py:23-77 | past its timeout the active challenge is completed and not passed, whatever the frame shows; in time a satisfying frame completes and passes it, any other leaves it; the timeout is noted, nothing else changes |
| AuthService.EvaluateSessionResult | apps/edge/sentinelid_edge/services/liveness/evaluator.py:79-112 | once all required challenges are completed, sets the liveness flag to whether all were passed and notes it |
| AuthService.ShowFrame | apps/edge/sentinelid_edge/api/v1/auth.py:352-378 | judges, then moves on or evaluates, in the round in progress |
| AuthService.AddMissing | apps/edge/sentinelid_edge/api/v1/auth.py:345-350 | the loop keeps the known codes first, adds each missing one once, and nothing else |
| AuthService.AuthFrame | apps/edge/sentinelid_edge/api/v1/auth.py:199-403 | the handler updates the session and replies as the frame step on values does |
| AuthService.FinishAuthentication | apps/edge/sentinelid_edge/api/v1/auth.py:407-603 | the handler updates the session and answers as the finish step on values does: a step-up opens a fresh round, any other verdict ends the session with it; an unreadable template changes nothing and answers 500; a failing audit write answers 500 with the decision already final |
| AuthService.ReasonsToReport | apps/edge/sentinelid_edge/api/v1/auth.py:515-541 | the policy codes come first; the step-up outcome, the quality codes of a mismatch and the fallback code are added exactly when they apply, each once |
| Auth.MergedReasons | apps/edge/sentinelid_edge/api/v1/auth.py:345-350 | merging starts with the known codes, holds exactly the codes of both lists, and repeats none of the added ones |
| Auth.SpoofsInOrder | apps/edge/sentinelid_edge/domain/policy.py:120 | the spoof codes are picked out of a list as often as they occur and in order |
| Auth.SpoofsOfOne | apps/edge/sentinelid_edge/domain/policy.py:21-25 | exactly the three spoof codes are |
| Auth.FinalReasonsAre | apps/edge/sentinelid_edge/api/v1/auth.py:515-541 | which codes a final decision reports, exactly, with the policy codes first and nothing added twice |
| Detectors.BlinkDetector.constructor | apps/edge/sentinelid_edge/services/liveness/blink.py:16-21 | a fresh detector |
| Detectors.BlinkDetector.Update | apps/edge/sentinelid_edge/services/liveness/blink.py:23-71 | a blink is reported exactly when the history says so, and the counter is their number; six frames per blink |
| Detectors.BlinkDetector.Reset | apps/edge/sentinelid_edge/services/liveness/blink.py:73-79 | forgets the history |
| Detectors.BlinkIffReopensAndRested | apps/edge/sentinelid_edge/services/liveness/blink.py:50-69 | a frame is a blink exactly when the eye-aspect ratio is at least 0.2 right after two frames below, and neither the reset nor a blink is among the five frames before |
| Detectors.SixFramesPerBlink | apps/edge/sentinelid_edge/services/liveness/blink.py:60-67 | six times the blinks plus the quiet frames fit in the history |
| Detectors.HeadPoseDetector.constructor | apps/edge/sentinelid_edge/services/liveness/pose.py:23-28 | a fresh detector |
| Detectors.HeadPoseDetector.Update | apps/edge/sentinelid_edge/services/liveness/pose.py:30-95 | the left and right counters are the numbers of neutral frames that end seven frames of that direction |
| Detectors.HeadPoseDetector.Reset | apps/edge/sentinelid_edge/services/liveness/pose.py:97-103 | forgets the history |
| Detectors.EightFramesPerTurn | apps/edge/sentinelid_edge/services/liveness/pose.py:69-93 | eight frames of its own for each turn |
| Detectors.EndsTurnIff | apps/edge/sentinelid_edge/services/liveness/pose.py:55-93 | a turn ends exactly on a face within 15 degrees of straight ahead right after seven frames beyond them on one side |
| Detectors.TurnCheckNeverPasses | apps/edge/sentinelid_edge/services/liveness/evaluator.py:61-70 | the evaluator's check holds exactly for no direction, on a frame that ends a turn to either side; so for no turn challenge on any history |
| TokenBucket.LevelIsLeastSlack | apps/edge/sentinelid_edge/services/security/rate_limit.py:44-75 | closed form: the level a call finds is the least, over all windows ending with it, of capacity + rate * length - grants |
| TokenBucket.GrantIffFits | apps/edge/sentinelid_edge/services/security/rate_limit.py:56-75 | the level suffices exactly when one more grant overfills no window |
| TokenBucket.WindowBound | apps/edge/sentinelid_edge/services/security/rate_limit.py:44-75 | in any run the grants of any window are at most capacity + rate * length |
| TokenBucket.TokenBucket.constructor | apps/edge/sentinelid_edge/services/security/rate_limit.py:44-54 | a full bucket |
| TokenBucket.TokenBucket.Consume | apps/edge/sentinelid_edge/services/security/rate_limit.py:56-75 | grants exactly when no window would be overfilled, and records the call |
| RateLimiting.RateLimiter.constructor | apps/edge/sentinelid_edge/services/security/rate_limit.py:289-292 | no buckets yet |
| RateLimiting.RateLimiter.GetOrCreateBucket | apps/edge/sentinelid_edge/services/security/rate_limit.py:318-333 | one bucket per key, made on first use; as long as no path has a colon, with the allowance of its endpoint |
| RateLimiting.RateLimiter.Check | apps/edge/sentinelid_edge/services/security/rate_limit.py:294-316 | a client locked by the wall clock is refused without spending; otherwise allowed exactly when its own bucket, by the monotonic clock, fits; the bucket of every pair of endpoint and client that is apart stays as it was; as long as no path has a colon each pair has a bucket with its endpoint's allowance |
| RateLimiting.OwnBucketIff | apps/edge/sentinelid_edge/services/security/rate_limit.py:311-312 | two pairs of endpoint and client have buckets of their own exactly if they differ and do not overlap at a colon in one of the endpoints |
| RateLimiting.PlainPairsAreApart | apps/edge/sentinelid_edge/services/security/rate_limit.py:311-312 | for endpoints without a colon that means every two different pairs |
| RateLimiting.SharedBucket | apps/edge/sentinelid_edge/services/security/rate_limit.py:311-312 | the failing side: with a colon in a path two clients can share a bucket |
| RateLimiting.AllowanceInFigures | apps/edge/sentinelid_edge/services/security/rate_limit.py:276-288 | bursts of 20 and 12 per second for frames, 10 and 2 for start and finish, 30 and 10 for all other endpoints |
| Lockout.FailuresAreSpaced | apps/edge/sentinelid_edge/main.py:249-274 | under check, verify, record, the failures of a client key are apart by at least the lockout the earlier one set, and its entry mirrors them |
| Lockout.DispatchEffect | apps/edge/sentinelid_edge/main.py:249-274 | a locked or throttled request counts for nobody; otherwise a good token clears the client's entry, a bad one adds a failure and from the fifth on a lock; no other client is touched |
| Lockout.FailingUnderOneKeyIsSlow | apps/edge/sentinelid_edge/services/security/rate_limit.py:82-88 | for n from 40 on, the n-th failure of one client key without a success comes at least 3150 + 300 (n - 40) seconds after its fifth, in any history of requests by any clients |
| Lockout.LockedIff | apps/edge/sentinelid_edge/services/security/rate_limit.py:112-169 | a client key is locked exactly when it failed at least five times since its last success and the lockout for that number has not passed since the last failure |
| Lockout.FewAttemptsAreNeverLocked | apps/edge/sentinelid_edge/services/security/rate_limit.py:82-88 | a client key used in fewer than five requests is never locked, whatever other keys do |
| Lockout.SameClientIff | apps/edge/sentinelid_edge/main.py:221-235 | two requests are one client exactly when both present a token and the first sixteen digits of the two SHA-256 digests agree, or neither does and they come from one host |
| Lockout.BearerIff | apps/edge/sentinelid_edge/main.py:227-230 | a header presents a token exactly if it begins with "bearer " in letters of either case |
| Lockout.NewTokensAreNeverLocked | apps/edge/sentinelid_edge/main.py:221-274 | a request whose token differs from every earlier one in those digits is never refused by a lock |
| Lockout.TotalFromFifth | apps/edge/sentinelid_edge/services/security/rate_limit.py:82-88 | the exact total of all lockouts from the fifth failure on |
| Lockout.RestartsAreInvisible | apps/edge/sentinelid_edge/services/security/rate_limit.py:192-263 | while the file can be written and read, a process that restarts any number of times answers every query like one that never does |
| Lockout.RestartInvisibleIff | apps/edge/sentinelid_edge/services/security/rate_limit.py:192-263 | where writes or the read may fail, a restart goes unnoticed by all later queries exactly if the file agrees with the memory on every client, or, unread, if there is nothing to remember |
| Lockout.SameAnswersIff | apps/edge/sentinelid_edge/services/security/rate_limit.py:112-183 | two trackers answer everything alike from now on exactly if they agree now on every failure count and running lock |
| Lockout.LostWriteIsForgotten | apps/edge/sentinelid_edge/services/security/rate_limit.py:223-230 | the failing side: a failure whose write raises is forgotten by the next restart |
| Lockout.LockoutTracker.constructor | apps/edge/sentinelid_edge/services/security/rate_limit.py:97-110 | no entries |
| Lockout.LockoutTracker.IsLocked | apps/edge/sentinelid_edge/services/security/rate_limit.py:112-134 | the verdict, the time left, an expired lock cleared, and the file updated if that was written |
| Lockout.LockoutTracker.RecordFailure | apps/edge/sentinelid_edge/services/security/rate_limit.py:136-169 | counts the failure, sets the lock of the schedule, and updates the file if that was written |
| Lockout.LockoutTracker.RecordSuccess | apps/edge/sentinelid_edge/services/security/rate_limit.py:171-179 | forgets the client, in the file too if that was written |
| Lockout.LockoutTracker.Persist | apps/edge/sentinelid_edge/services/security/rate_limit.py:223-263 | a write that works holds exactly the entries with failures or a lock still running, and answers for every client as the memory does; one that raises leaves the file as it was |
| Lockout.LockoutTracker.Restart | apps/edge/sentinelid_edge/services/security/rate_limit.py:192-221 | the new process has what the file held, or nothing if it cannot be read |
| Envelope.UnwrapIffWrapped | apps/edge/sentinelid_edge/services/security/encryption.py:224-291 | a blob unwraps to a plaintext exactly when it is a wrapping of it for the same key, row and kind |
| Envelope.UnwrapWrap | apps/edge/sentinelid_edge/services/security/encryption.py:224-291 | unwrapping a wrapping gives the plaintext back |
| Envelope.WrapBindsKeyAndRow | apps/edge/sentinelid_edge/services/security/encryption.py:194-217 | a wrapping opens under its own master key and row id only |
| Envelope.KindsAreApart | apps/edge/sentinelid_edge/services/storage/repo_audit.py:299-351 | audit blobs and template blobs are never taken for each other |
| Envelope.BlobLayout | apps/edge/sentinelid_edge/services/security/encryption.py:194-247 | a blob byte by byte: magic, version 1, sixteen bytes of salt, twelve of nonce, and the ciphertext under a key derived for kind and row and bound to both |
| Templates.StoreRefinesOneTemplate | apps/edge/sentinelid_edge/services/storage/repo_templates.py:70-263 | over any interleaving of commits, deletions and rotations that store their key, the latest template is exactly the last committed embedding |
| Templates.RotationKeepsTemplateIff | apps/edge/sentinelid_edge/api/v1/admin.py:70-118 | a rotation attempt keeps the template readable exactly when the rewrap failed, the key was stored, or the table was empty |
| Templates.UnstoredKeyLosesTheTemplate | apps/edge/sentinelid_edge/api/v1/admin.py:98-104 | the failing side with any single enrolled template: it is unreadable after a committed rewrap whose key was not stored |
| Templates.RotationKeepsEveryRow | apps/edge/sentinelid_edge/services/storage/repo_templates.py:216-263 | a rewrap that fails, or whose key is stored, leaves every row readable as it was under the key in use |
| Templates.StoredKeyIsFoundIff | apps/edge/sentinelid_edge/services/security/encryption.py:75-171 | after an attempt to store a new key, raised or not, a later process finds it exactly if the keychain took it and answers again, or the file holds it and nothing looked at before has a key or refuses |
| Templates.RewrappedLoadsTheSame | apps/edge/sentinelid_edge/services/security/encryption.py:294-308 | rewrapped rows hold under the new key what they held under the old |
| Templates.VectorRoundTrip | apps/edge/sentinelid_edge/services/storage/repo_templates.py:27-36 | float32 vectors survive serialisation |
| Templates.BytesInOrder | apps/edge/sentinelid_edge/services/storage/repo_templates.py:27-36 | the bytes are the four of each float, one after the other |
| Templates.Latest | apps/edge/sentinelid_edge/services/storage/repo_templates.py:127-152 | the newest row, the last inserted on equal times |
| Templates.InsertedIsLoadedIff | apps/edge/sentinelid_edge/services/storage/repo_templates.py:70-152 | an inserted row is the template loaded from then on exactly if no other row is newer; otherwise the template stays what it was |
| TemplateService.MasterKeyProvider.constructor | apps/edge/sentinelid_edge/services/security/encryption.py:71-73 | nothing cached yet |
| TemplateService.MasterKeyProvider.GetMasterKey | apps/edge/sentinelid_edge/services/security/encryption.py:75-91 | the cached key, else that of the keychain, the environment or the file, in this order, else one generated and stored; an exception under the production guard, for a malformed environment value, or when no place takes it |
| TemplateService.MasterKeyProvider.StoreKey | apps/edge/sentinelid_edge/services/security/encryption.py:149-171 | writes the key to the keychain or, failing that and unless guarded, to the file, which after an exception holds the old key, none or the new one |
| TemplateService.TemplateRepository.constructor | apps/edge/sentinelid_edge/services/storage/repo_templates.py:57-64 | an empty table |
| TemplateService.TemplateRepository.StoreTemplate | apps/edge/sentinelid_edge/services/storage/repo_templates.py:70-97 | appends an encrypted row under a new id; without a key nothing changes |
| TemplateService.TemplateRepository.LoadLatestTemplate | apps/edge/sentinelid_edge/services/storage/repo_templates.py:127-152 | reads the newest row under the key in use; without a key it is unreadable |
| TemplateService.TemplateRepository.DeleteTemplate | apps/edge/sentinelid_edge/services/storage/repo_templates.py:177-188 | removes exactly the row of that id |
| TemplateService.TemplateRepository.DeleteAllTemplates | apps/edge/sentinelid_edge/services/storage/repo_templates.py:190-203 | empties the table and counts its rows |
| TemplateService.TemplateRepository.RewrapAllBlobs | apps/edge/sentinelid_edge/services/storage/repo_templates.py:216-263 | rewraps every row, or leaves every row as it was when there is no key, a blob does not open or an update raises |
| TemplateService.RotateMasterKey | apps/edge/sentinelid_edge/api/v1/admin.py:70-118 | the endpoint does what the rotation on values does, and reports success exactly when rewrap and key store both worked |
| TemplateService.CommitTemplate | apps/edge/sentinelid_edge/services/enrollment/sessions.py:165-175 | replaces whatever was enrolled; without a key it only deletes |
| Audit.SameHeadSameRecords | apps/edge/sentinelid_edge/services/storage/repo_audit.py:177-210 | two verifying logs with the same final hash hold the same records in the same order and number |
| Audit.EveryLogVerifies | apps/edge/sentinelid_edge/services/storage/repo_audit.py:65-129 | every log written under one master key verifies, legacy rows included |
| Audit.WriteKeepsVerifying | apps/edge/sentinelid_edge/services/storage/repo_audit.py:65-129 | a write appends exactly the event's normal form and keeps the log verifying |
| Audit.WriteReports | apps/edge/sentinelid_edge/services/storage/repo_audit.py:65-129 | the payload of a written row holds the event's id, time, type, outcome and codes, and similarity, risk, liveness, session and request each from the value of that name, None exactly for a null; a write fails exactly if the id is taken or a score does not convert |
| Audit.RowReadsIff | apps/edge/sentinelid_edge/services/storage/repo_audit.py:253-297 | how any row reads: a plaintext row as its columns, an encrypted one as the object in its blob with the row's values for missing fields, and only if id, type and outcome are the row's |
| Audit.NormalIff | apps/edge/sentinelid_edge/services/storage/repo_audit.py:220-251 | the normaliser yields a payload exactly if it holds each value under its own name in the type of the field |
| Audit.NormaliserIsStable | apps/edge/sentinelid_edge/services/storage/repo_audit.py:220-251 | a payload written, parsed and normalised again is the same payload |
| Audit.LegacyRowReads | apps/edge/sentinelid_edge/services/storage/repo_audit.py:280-297 | a plaintext row hashed in the same way reads back as its payload |
| Audit.PrefixVerifies | apps/edge/sentinelid_edge/services/storage/repo_audit.py:177-210 | every prefix of a verifying log verifies, so truncation shows only against a known head |
| Audit.VerifiesAfterRotationIff | apps/edge/sentinelid_edge/services/storage/repo_audit.py:299-351 | under another master key a verifying log still verifies exactly when no row is encrypted |
| Audit.RotationLosesTheLog | apps/edge/sentinelid_edge/services/storage/repo_audit.py:299-351 | the failing side with any one-event log: it verifies, and under any other master key it does not |
| Audit.RunVerifiesIff | apps/edge/sentinelid_edge/services/storage/repo_audit.py:177-210 | after any run of writes and rotations the log verifies under the key in use exactly when every encrypted row was written under it |
| AuditService.AuditRepository.constructor | apps/edge/sentinelid_edge/services/storage/repo_audit.py:50-63 | an empty log |
| AuditService.AuditRepository.GetLastHash | apps/edge/sentinelid_edge/services/storage/repo_audit.py:212-218 | the head of the chain, if any |
| AuditService.AuditRepository.WriteEvent | apps/edge/sentinelid_edge/services/storage/repo_audit.py:65-129 | on success appends one row with the event's stamped id and time, type and outcome, empty detail columns, the last hash, and a blob that reads back as a payload reporting the event; on an exception nothing changes |
| AuditService.AuditRepository.VerifyChainIntegrity | apps/edge/sentinelid_edge/services/storage/repo_audit.py:177-210 | true exactly when every row is readable and linked |
| AuditService.AuditRepository.GetEvents | apps/edge/sentinelid_edge/services/storage/repo_audit.py:131-175 | the newest events up to the limit in chronological order, or an exception if one is unreadable |
| AuditService.WrittenIsReadLast | apps/edge/sentinelid_edge/services/storage/repo_audit.py:65-175 | end to end: any read after a write returns last a record that reports the event just written, chained to the one before |
| Calibration.RunSweep | apps/edge/sentinelid_edge/services/vision/calibration.py:134-164 | the recommended threshold is optimal over all real thresholds in [-1, 1], ties to the largest; if the target is unattainable it has the least FAR, then FRR; the balanced point is the best of all; the curve is by increasing threshold |
| Calibration.EveryThresholdIsACandidate | apps/edge/sentinelid_edge/services/vision/calibration.py:134-141 | every real threshold in [-1, 1] has the rates of the next candidate |
| Calibration.RatesAreMonotone | apps/edge/sentinelid_edge/services/vision/calibration.py:139-141 | raising the threshold never raises FAR nor lowers FRR |
| Calibration.RatesAreShares | apps/edge/sentinelid_edge/services/vision/calibration.py:139-141 | FAR is the share of impostors at or above the threshold and FRR the share of genuine faces below it |
| Calibration.AttainableIff | apps/edge/sentinelid_edge/services/vision/calibration.py:148-164 | the target is attainable in [-1, 1] exactly when threshold 1 attains it |
| Calibration.MissedOutOfRangeIff | apps/edge/sentinelid_edge/services/vision/calibration.py:134-141 | some real threshold meets the target and none in [-1, 1] does exactly when the target is at least 0 and below the share of impostors who score exactly 1 |
| Calibration.RecommendedBeatsEveryThreshold | apps/edge/sentinelid_edge/services/vision/calibration.py:143-164 | in every other case the recommendation meets the target if any real threshold does, with no larger FRR |
| Calibration.LeastFar | apps/edge/sentinelid_edge/services/vision/calibration.py:162-164 | the first point of least FAR, then FRR |
| Calibration.TargetCanBeOutOfRange | apps/edge/sentinelid_edge/services/vision/calibration.py:134-141 | the case happens: one impostor who scores exactly 1 |
| FrameControl.VerdictsFollowHistory | apps/edge/sentinelid_edge/services/processing/frame_control.py:39-91 | whatever it evicts, a frame is admitted exactly when the session's last processed frame ended at least the minimum interval before |
| FrameControl.EvictionIsInvisible | apps/edge/sentinelid_edge/services/processing/frame_control.py:84-91 | eviction changes no verdict, compared with a controller that never evicts |
| FrameControl.RateBound | apps/edge/sentinelid_edge/services/processing/frame_control.py:39-67 | in any window a session gets at most 1 + fps * length processed frames |
| FrameControl.ProcessedAreSpaced | apps/edge/sentinelid_edge/services/processing/frame_control.py:39-67 | n processed frames span at least n - 1 intervals |
| FrameControl.FrameProcessingController.constructor | apps/edge/sentinelid_edge/services/processing/frame_control.py:25-37 | at least 1 fps and a time to live of at least 30 s |
| FrameControl.FrameProcessingController.TryAcquire | apps/edge/sentinelid_edge/services/processing/frame_control.py:39-54 | evicts the idle, then backs a session up while a frame is in flight, caps it within the minimum interval of its last processed frame, and admits it otherwise; all other sessions stay |
| FrameControl.FrameProcessingController.ReleaseFrame | apps/edge/sentinelid_edge/services/processing/frame_control.py:56-67 | frees the session and notes the end of a processed frame; all other sessions stay |
| FrameControl.FrameProcessingController.CleanupLocked | apps/edge/sentinelid_edge/services/processing/frame_control.py:84-91 | removes exactly the expired sessions |
| Perf.PercentileIsMonotone | apps/edge/sentinelid_edge/services/observability/perf.py:57-66 | the percentile of a sorted list grows with p and stays between minimum and maximum |
| Perf.PercentileHitsRanks | apps/cloud/api/admin_router.py:204-213 | it passes through every value at the percentile of its rank |
| Perf.PercentileIsLinear | apps/edge/sentinelid_edge/services/observability/perf.py:57-66 | between two ranks it runs straight from the one value to the next |
| Perf.PerfRegistry.constructor | apps/edge/sentinelid_edge/services/observability/perf.py:16-21 | an empty registry with a window of at least ten |
| Perf.PerfRegistry.ObserveMs | apps/edge/sentinelid_edge/services/observability/perf.py:23-29 | appends the duration, or zero for a negative one, to the history of its stage; each stage's window holds exactly its last observations, with total and count over all of them |
| Perf.PerfRegistry.Snapshot | apps/edge/sentinelid_edge/services/observability/perf.py:39-54 | p50 <= p95 <= max after rounding, over exactly the window; the mean is over the whole history |
| Series.BucketsConserve | apps/cloud/api/admin_router.py:471-547 | every count and sum over the buckets of an interval equals that over its rows |
| Series.OutcomesAddUp | apps/cloud/api/admin_router.py:505-512 | allow + deny + error = events, in each bucket and in all |
| Series.TallyCounts | apps/cloud/api/admin_router.py:505-523 | the counts of a bucket are those of its rows by outcome, any outcome but allow and deny being an error |
| Series.TallySums | apps/cloud/api/admin_router.py:513-523 | the sums of a bucket are over its rows that have a value, with their number |
| Series.GetEventsSeries | apps/cloud/api/admin_router.py:456-557 | contiguous buckets from the start's to the end's, hours up to 48 and days beyond, each with the counts and averages of exactly its rows; allow and deny are counted over all rows; the late-insert branch is never taken |

## Left out

- Face detection, embedding extraction, quality gates, risk heuristics, eye-aspect-ratio and yaw formulas: their results are inputs.
- SHA-256, Ed25519, HKDF, AES-GCM, `json.dumps`, SQLite and SQLAlchemy: only their laws are used; in particular canonical JSON bytes are taken to be a function of the object, and the chain hash to be injective and never the genesis value.
- TLS, pinning, URL policy, how the production guard is configured, CORS, HTTP plumbing, logging, admin and desktop user interfaces.
- Overlapping frame requests of one session: a handler contains no await, so a request is one step.
- `FrameControl` release after a failed acquire while another request is in flight: excluded by the same one-at-a-time handling.
- Rotation of audit payloads: the code does none; the consequence is stated, not repaired.
- Concurrent writers of the audit log, and its append order under them: one writer at a time.
- Telemetry runtime signals, export intervals and statistics: the step system lets an export, a purge or a crash come at any moment.
- Outbox statistics, DLQ listing, error sanitising and event identity deletion.
- Which values of other types the request model converts to a number or a flag: any conversion that keeps typed values is allowed.
- The session's stored similarity score and the response texts of the handlers.
- Enrollment sessions before the commit: accepted frames and quality reasons.
- `IngestMetrics` and the other admin queries: display only.
- The parsing of numbers out of text in the audit normaliser: conversions are parameters that may fail.
- float32 rounding and NaN scores: scores, risks and clocks are real numbers; where bytes are written, floats are their bytes.
- A clock that goes back: lockout, session, frame-rate and rate-limit results and the retry schedule (`Delivery.DeadLetterInTime`) take the clock they read, wall or monotonic, not to.
- Templates.StoreRefinesOneTemplate: rotations store their key and one process lives through these runs; the other case is `Templates.RotationKeepsTemplateIff`.
- ExporterService.TelemetryExporter.ExportBatch: one uninterrupted pass; crashes between two row updates are in `EdgeMachine` and `Delivery`.
