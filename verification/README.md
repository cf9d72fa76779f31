# Fleet manager: node store, scheduler, prober and feeds

This project models the core of a proxy fleet manager. A store of node rows carries a health
lifecycle, evidence from probes, publication leases and upstream generations. A scheduler claims due
rows, a prober tests them in batches through a shared Xray process, an upstream refresher reconciles
the rows with subscription sources, and a publisher writes the feed that clients and other fleets parse.

The model has three layers.

* **Tables and steps** (`Database`). `Db` is the state of the tables, `Step` has one case per operation
  of the store, each a SQL statement or transaction except that a claim is the SELECT and the UPDATE of
  one row together, and the total function `Next` is the effect of one step. A history is any
  sequence of timed steps from the empty store; `State(cfg, tr, i)` is the store after `i` of them.
  The main results quantify over all histories.
* **Programs**. `Store` is a class whose methods update the tables in place and are proved to be exactly
  the steps. `Upstream.Refresh`, `Scheduler.ClaimDue`, `App.ApplyBatch`, `Ports.PortPool`,
  `Bisection.Prober`, `Cohort.TestBatch`, `Feed.ParseSubscription`, `Quota.ForCapacity`,
  `Incident.CorrelatedIncident` and `SnapshotWindow.Publisher` are the imperative code around it.
* **Properties**, one module per subject: `Ledgers`, `Evidence`, `Scores`, `Lifecycle`, `Moves`, `Workers`,
  `Publication`, `SchedulerLoop`, `Claims`, `AntiFlapping`, `Delivery`, `Reconciliation`, `Retirement`,
  `RefreshProtocol`, `NotModified`, `RefreshTransparency`, `Validators`, `LostNode`, `Payload`.

Time is an integer number of milliseconds and `f64` is `real`. `0.5^x` is a function parameter of which
only `HalvingLaw` is used. Random jitter is `draw % (ceiling + 1)` for an arbitrary `draw`. The operating
system, Xray and the network appear as arbitrary functions and arguments.

## What does not hold, and exactly when it does

* A node that should be tested may never be tested again. While the scheduler keeps its order, a row that
  is neither INVALID nor RETIRED is out of every queue at every time exactly when it is TESTING or parked
  from RETIRED (`Lifecycle.StrandedIff`).
  * It stays TESTING when the process stops between the claim and the report: nothing resets it until a
    complete refresh retires it (`Workers.AbandonedTestStays`).
  * It is parked from RETIRED when a complete refresh retires it while it is under test and its report is
    nothing but a lack of ports. `LostNode.NodeIsLost` is a concrete history that ends so, with the source
    listing the node again; `Workers.ParkedRetiredStays` shows that it stays so until another complete
    refresh retires it again, and `Lifecycle.IngestRevivesIffNotParked` says exactly when an ingest
    revives a retired node: when it has not been parked. In this history the node is a latest member of
    its source although its origin is RETIRED (`LostNode.LostNodeIsLatestMember`), so
    `RefreshProtocol.LatestMembersAreNotRetired` is about the literal state.
* A port wait is a stutter of the six-state machine exactly when it meets a row that is invalid or not
  TESTING or WAITING_FOR_PORT (`Lifecycle.WaitStuttersIffIdle`). The scheduler's loop guarantees that as
  long as the one event of every node it parks is recorded (`SchedulerLoop.LoopIsInTurn`,
  `Workers.WorkersAreDisciplined`); other events may fail to be recorded. When that one fails,
  `src/src/app.rs:431-495` only logs the error and still parks the node, whose origin is then lost
  (`Lifecycle.UnrecordedReportIsLost`).
* A probe that reaches a row literally WAITING_FOR_PORT is judged against that state and not against the
  remembered one; `Lifecycle.ParkedProbeRefinesIff` says when the result agrees all the same. The
  scheduler's loop delivers no such probe (`Workers.ParkedRowsAreNotProbed`), so a parked retired row is
  brought back by a late download only if something outside the loop records one
  (`Lifecycle.ParkedRetiredIsResurrected`).
* The UPDATE of a claim looks at the test lease alone. If another statement changes the row after the
  SELECT, the claim is still a stutter exactly when the row was not left TESTING with an expired lease
  (`Lifecycle.LateClaimStuttersIff`), and it keeps the shape of the row exactly when the row still
  belongs to a queue (`Lifecycle.LateClaimKeepsShapeIff`).
* Dropping inconclusive events from a delivery is invisible exactly when none of them takes the
  (node, run, stage) key of a later conclusive one (`Delivery.NoiseIsInvisibleIff`).
* A 304 after an empty body brings an older membership back, unless the source never had one
  (`NotModified.EmptyBodyIsNotCached`).
* A 304 leaves the store of fetching the body it certifies exactly when that body has the identities of
  the last body of the source that was ingested, or none if none was (`NotModified.CopyStandsForIff`,
  `NotModified.HistoryCopyStandsForIff`; in terms of what the source served,
  `Validators.NotModifiedIsRightIff`). It always does when every served body carries a validator and is
  ingested (`Validators.TaggedAndReachedIsRight`). `Validators.WrongNotModified` gives three histories in
  which it does not: a refresh stops after recording the validator of a new body and before ingesting it;
  a new body comes without a validator, so that the COALESCE of `src/src/storage/mod.rs:965` keeps the old
  one; the very first refresh stops before its ingest, so that every later 304 counts as a success and
  copies nothing.
* Standard base64 without padding is decoded exactly when it needs no padding or contains neither `+` nor
  `/` (`Base64.StandardUnpaddedIff`); standard base64 with padding and URL-safe base64 with or without it
  always are. A payload that is not decoded is read as it stands, and its line rejected.
* Throughout a history every ACTIVE, PROBATION or DORMANT row has a logged successful download if and only
  if no operator revives it as a CANDIDATE that has never had one (`Lifecycle.ProvenRowsDownloadedIff`).
  `Lifecycle.PromotedCandidateIsUnproven` is the two-step history that breaks it: ingest, revive.

## Model

| member | source | states |
|---|---|---|
| Health.RetryIsBounded | src/src/health/mod.rs:121-129 | A failed node is retried no earlier than now and within a day, within six hours if it has downloaded before and is not dormant |
| Health.CeilingGrows | src/src/domain/evidence.rs:132-164 | The jitter ceiling never falls as the streak grows, stays under its cap, and for a dormant node is the 6/12/24 hour recovery step whatever the doubling |
| Health.CeilingDoubles | src/src/domain/evidence.rs:153-162 | For a node that is not dormant the ceiling starts at 5 minutes, or 30 if it never completed a download, doubles with every failure up to 6 or 24 hours, and is one failure ahead after a refusal |
| Health.EveryDelayIsDrawn | src/src/domain/evidence.rs:163-163 | Full jitter: every whole second from zero to the ceiling may be drawn |
| Evidence.ScoreBounds | src/src/storage/mod.rs:143-148 | For every event history the score lies in [1/65, 24/25] |
| Ledgers.StoredScoresAreBounded | src/src/storage/mod.rs:753-833 | In every history the stored score of every row lies in [1/65, 24/25] |
| Evidence.FailureWeightForcesLowScore | src/src/storage/mod.rs:730-752 | Decayed failure weight of 44 in the window forces the score below 0.35, whatever the successes |
| Evidence.EvidenceOrderFree | src/src/storage/mod.rs:730-752 | Alpha and beta depend on the multiset of events in the window only |
| Evidence.HarmlessEvent | src/src/domain/evidence.rs:32-103 | Recording an event of another node, or one without failure weight, never raises a node's failure weight at any clock, even when the 512-event window slides |
| Evidence.EvidenceIgnoresNoise | src/src/domain/evidence.rs:35-39 | While the window is not full, inconclusive events change neither alpha nor beta |
| Scores.FailureLowersScore | src/src/domain/evidence.rs:32-103 | In an open window recording anything but a success never raises the score, and lowers it strictly when it is a conclusive failure of the last 30 days that counts and the cap of 64 is not reached |
| Scores.SuccessRaisesScore | src/src/domain/evidence.rs:32-71 | Recording a success never lowers the score, and raises it strictly for a relay, HTTP or download success of the last 30 days below the cap of 24 |
| Scores.OldEventsDoNotCount | src/src/storage/mod.rs:730-731 | An observation more than 30 days old changes no score |
| Scores.WindowHoldsNewest | src/src/storage/mod.rs:730-731 | The window is the newest 512 of the node's events of the last 30 days, or all of them, later entries first among equal times |
| Scores.GraverFailureCountsMore | src/src/domain/evidence.rs:40-103 | Of two failures of one time the graver leaves the lower score now and ever after, strictly at that time below the cap: handshake timeout, other timeouts and failures, refusal, slow download, structural error |
| Scores.FurtherSuccessCountsMore | src/src/domain/evidence.rs:45-64 | Of two successes of one time the one that went further leaves the higher score: relay, HTTP, download, fast download |
| Scores.FirstObservation | src/src/domain/evidence.rs:32-103 | The score of a new node right after each kind of observation, for all stages and classes |
| Scores.FirstObservationHalved | src/src/domain/evidence.rs:105-111 | And its score when the half-life of that observation has passed |
| Scores.FreshFailuresSinkScore | src/src/storage/mod.rs:730-752 | That many fresh failures of one class bring the score under 0.35 whatever the log holds: 88 handshake timeouts, 44 other timeouts or failures, 22 refusals, 15 slow downloads, 6 structural errors |
| Scores.CapsAreReached | src/src/storage/mod.rs:751-752 | Three fast downloads at once give exactly 24/25 and eight structural errors exactly 1/65 |
| Database.NextRowWise | src/src/storage/mod.rs:663-1027 | Every step moves each surviving row by its own row function, adds only an ingested row, deletes only expired tombstones, and leaves all other rows alone |
| Store.Store.UpdatedRow | src/src/storage/mod.rs:819-824 | The columns written by the decision UPDATE, including the CASE columns that keep their old value |
| Store.Store.ApplyTestEvent | src/src/storage/mod.rs:663-833 | Missing node is an error, a repeated (node, run, stage) changes nothing and reports the stored values, otherwise one event is appended and the row decided |
| Store.Store.Claim | src/src/scheduler/mod.rs:401-454 | SELECT and UPDATE of one row as one step: it is claimed exactly when it is due in that queue; then it alone changes, to TESTING with its origin and the end of the lease |
| Store.Store.ReleaseTestLease | src/src/storage/mod.rs:1005-1011 | The release statement is exactly the Release step: a TESTING row goes back to its origin, free |
| Store.Store.MarkWaitingForPort | src/src/storage/mod.rs:1013-1027 | The wait statement is exactly the Wait step: a valid row is parked with its state as origin, for at least a second |
| Store.Store.IngestProxy | src/src/storage/mod.rs:876-900 | Insert or update by hash, membership row either way, with the columns of the new, the known and the revived row; true exactly for a new hash |
| Store.Store.IngestMany | src/src/storage/mod.rs:868-903 | The loop ingests the list in order and counts the rows inserted |
| Store.Store.BeginRefresh | src/src/storage/mod.rs:905-917 | Opens the generation after the last one |
| Store.Store.CopyCachedSourceGeneration | src/src/storage/mod.rs:973-997 | A 304 copies the newest older membership of the source, marks its rows as seen, and counts the members added |
| Store.Store.FinishRefresh | src/src/storage/mod.rs:919-943 | Complete exactly when every source of a non-empty list succeeded; an incomplete refresh changes nothing |
| Store.Store.ReviveNode | src/src/storage/mod.rs:1272-1278 | Revives DORMANT, PROBATION and CANDIDATE rows only, else an error and no change |
| Store.Store.ReviveDormant | src/src/storage/mod.rs:1266-1270 | Revives and counts all valid DORMANT rows |
| Store.Store.ScheduleManualTest | src/src/storage/mod.rs:1280-1294 | Makes a row due unless it is being tested; an error only for a missing node |
| Store.Store.CleanupRetired | src/src/storage/mod.rs:1296-1299 | Deletes and counts exactly the expired tombstones |
| Ledgers.RowsFollowTheLog | src/src/storage/mod.rs:753-833 | In every history both counters, last failing run, last success and download and the lease of each row are the replay of its events in the log |
| Ledgers.LeaseIsLatestSuccess | src/src/domain/evidence.rs:122-130 | The replayed lease is the maximum over logged successes of event time plus stage lease, and is absent when there are none |
| Ledgers.IndependentMeansTwoRuns | src/src/storage/mod.rs:769-775 | An independent-failure count of two means two logged conclusive failures of different runs with no success after the first |
| Ledgers.LedgerIgnoresNoise | src/src/health/mod.rs:46-61 | Replaying a log without its inconclusive events gives the same counters, last failing run and lease |
| Lifecycle.RowsAreShaped | src/src/storage/mod.rs:819-824 | In every history a TESTING row has an origin among the four queue states, and INVALID holds exactly when the row is structurally invalid |
| Lifecycle.HistoryRefines | src/src/health/mod.rs:67-98 | Mapping TESTING and WAITING_FOR_PORT to what they remember, claims, releases and waits are stutters; a recorded probe leads to each of the six states exactly when the new score, the failures, the residence and the observation demand it; the rest follow the six-state machine |
| Moves.MovesOfHistory | src/src/health/mod.rs:67-98 | Every move of a recorded observation in every ordered history, in terms of the new score and the event log alone: PROBATION to ACTIVE iff a download or a score of 0.70, to DORMANT iff below 0.15 with three failures since the last success; DORMANT to PROBATION iff a success at 0.70; ACTIVE to PROBATION iff resident, below 0.35 and two new runs failed; CANDIDATE to ACTIVE iff a download |
| Moves.StreakCountsFailures | src/src/health/mod.rs:46-53 | The streak column is the number of logged conclusive failures since the last success |
| Moves.IndependentCountsRuns | src/src/storage/mod.rs:769-775 | The independent-failure column is the number of those whose run differs from that of the conclusive failure before |
| Moves.ClassOnRecord | src/src/storage/mod.rs:819-824 | In every history the failure class on record is that of the node's last conclusive failure, whatever succeeded since |
| Moves.ActivatedWhenEntered | src/src/storage/mod.rs:819-824 | The activation column holds the time of the step that last made the row ACTIVE |
| Moves.StoredScoreIsCurrent | src/src/storage/mod.rs:730-752 | In every history a recorded probe stores the score of the node's evidence at that moment |
| Moves.RecordedObservationMovesScore | src/src/storage/mod.rs:730-752 | While the window is open it is no higher after a failure, and no lower after a success, than the evidence gave just before |
| Moves.FailuresNeverPromote | src/src/health/mod.rs:85-85 | Without a logged success PROBATION never becomes ACTIVE |
| Moves.NextTestOfHistory | src/src/health/mod.rs:109-129 | In every history a recorded probe sets the next test: the two intervals of an ACTIVE row, 15 minutes in PROBATION, 6 hours when DORMANT, 5 minutes else, 2 minutes when inconclusive, the bounded jitter after a failure |
| Lifecycle.RetiredIsLeftByIngestOrInvalidConfig | src/src/storage/mod.rs:883-891 | A mapped state RETIRED is left only by an ingest of the row's own hash or by an INVALID_CONFIG event of the row |
| Lifecycle.InvalidIsForever | src/src/health/mod.rs:67-69 | A row once INVALID stays INVALID in every continuation |
| Lifecycle.WaitStuttersIffIdle | src/src/storage/mod.rs:1013-1027 | A wait keeps the mapped state exactly when the row is invalid or not busy |
| Lifecycle.ParkedProbeRefinesIff | src/src/storage/mod.rs:677-684 | A probe of a literally parked row agrees with the six-state machine exactly in the listed cases |
| Lifecycle.RetiredUnderTestIsParked | src/src/storage/mod.rs:939-940 | A retirable row under test that is retired and then reports a lack of ports is parked from RETIRED |
| Lifecycle.IngestRevivesIffNotParked | src/src/storage/mod.rs:883-891 | An ingest revives a row whose mapped state is RETIRED if and only if it is literally RETIRED, that is, not parked |
| Lifecycle.ParkedRetiredIsStuck | src/src/scheduler/mod.rs:401-423 | No queue selects a row parked from RETIRED, and every statement but a probe or a wait of it leaves it parked or retires it |
| Lifecycle.ParkedRetiredIsResurrected | src/src/storage/mod.rs:677-684 | A download recorded from outside the scheduler's loop would make such a row ACTIVE |
| Lifecycle.UnrecordedReportIsLost | src/src/app.rs:431-495 | A wait that meets a TESTING row forgets its origin and takes it out of every queue |
| Lifecycle.LateClaimStuttersIff | src/src/scheduler/mod.rs:451-454 | A guarded UPDATE that finds the row changed keeps the mapped state if and only if the row is not TESTING with an expired lease |
| Lifecycle.LateClaimKeepsShapeIff | src/src/scheduler/mod.rs:451-454 | It leaves a well-shaped row if and only if the row is valid and still in, or parked from, one of the four queues |
| Lifecycle.StrandedIff | src/src/scheduler/mod.rs:401-423 | A row neither INVALID nor RETIRED is never selected by any queue, at any time, if and only if it is TESTING or parked from RETIRED |
| Lifecycle.ProvenRowsDownloadedIff | src/src/health/mod.rs:70-97 | At every point of a history a row whose mapped state is ACTIVE, PROBATION or DORMANT has a logged successful download, if and only if no step revives it as a CANDIDATE without one |
| Lifecycle.PromotedCandidateIsUnproven | src/src/storage/mod.rs:1272-1278 | The history of an ingest and a revival ends with a PROBATION row without a download |
| Workers.WorkersAreDisciplined | src/src/app.rs:330-497 | However the scheduler's statements interleave with refreshes, operators and other nodes' statements, no busy row is parked and no parked row is probed |
| Workers.InterleavedHistoryRefines | src/src/app.rs:330-497 | The refinement holds for all those interleavings |
| Workers.ParkedRowsAreNotProbed | src/src/app.rs:330-497 | In all those interleavings no recorded probe meets a parked row |
| Workers.ParkedRetiredStays | src/src/app.rs:330-497 | A row parked from RETIRED that the scheduler has let go of stays parked, through every ingest and operator action, until another complete refresh retires it |
| Workers.AbandonedTestStays | src/src/scheduler/mod.rs:41-46 | A TESTING row whose worker issues no further statement stays TESTING and out of every queue, through restarts, ingests and operator actions, until a complete refresh retires it |
| SchedulerLoop.FullTickIsBatch | src/src/app.rs:409-497 | With every event recorded, a tick's statements after the claims are those of the batch |
| SchedulerLoop.TickIsOrderly | src/src/app.rs:330-497 | The claims of a tick followed by its reports under new run ids: each node is claimed, then probed, then parked only after an event |
| SchedulerLoop.LoopIsInTurn | src/src/app.rs:309-497 | Any sequence of ticks, each possibly cut short by a stop of the process and with events that could not be recorded (but for those of parked nodes), interleaved in any way with refreshes, imports and operators, is in turn, so the discipline and the refinement follow |
| LostNode.NodeIsLost | src/src/storage/mod.rs:1013-1027 | A concrete history of refreshes, claim, retirement under test, port-starved report, wait and renewed ingest ends with the listed node parked from RETIRED |
| LostNode.LostNodeIsLatestMember | src/src/storage/mod.rs:883-900 | That history follows the refresh protocol, and the node is a latest member of its source with mapped state RETIRED |
| Publication.SnapshotIffCovered | src/src/storage/mod.rs:835-840 | A row is in the snapshot at a clock exactly when it is neither INVALID nor RETIRED and some logged success's lease outlasts the clock |
| Publication.SnapshotByHours | src/src/domain/evidence.rs:122-130 | In hours: a relay success publishes for half an hour, an HTTP success for two, a download for six, a fast one for twelve, nothing else at all |
| Publication.PublishedMeansRecentSuccess | src/src/domain/evidence.rs:122-130 | Every published node has a logged success within the last twelve hours |
| Publication.OnlyInvalidConfigUnpublishes | src/src/storage/mod.rs:835-840 | At a fixed clock a step removes a node from the snapshot if and only if it is a newly recorded INVALID_CONFIG event of it |
| Publication.PublishedUntilInvalidatedOrExpired | src/src/storage/mod.rs:936-940 | Over any stretch of steps a published node stays published unless invalidated or its lease ends |
| AntiFlapping.DemotionsAreFarApart | src/src/health/mod.rs:76-83 | With a monotone clock two ACTIVE to PROBATION moves of one node are at least the residence time apart, hence at least 15 minutes under a valid configuration |
| AntiFlapping.DemotionHasTwoFailedRuns | src/src/storage/mod.rs:769-775 | Every demotion happens at a score below 0.35 with two different runs failed conclusively since the last success |
| Delivery.RepeatsChangeNothing | src/src/storage/mod.rs:685-706 | Replaying observations in any at-least-once order equals keeping first occurrences |
| Delivery.RepeatedProbeIsNoOp | src/src/storage/mod.rs:685-706 | In any history, with anything in between, a repeated observation changes nothing |
| Delivery.NoiseIsInvisibleIff | src/src/storage/mod.rs:685-706 | Dropping inconclusive observations leaves the conclusive record unchanged if and only if none shadows a later conclusive one of the same key |
| Delivery.NoiseIsHarmless | src/src/health/mod.rs:46-61 | Without a shadow, counters, last failing run, lease and, while the window is open, alpha and beta are those of the delivery without noise |
| Delivery.NoiseCanShadow | src/src/storage/mod.rs:685-706 | A shadowing event keeps a success out of the ledger |
| Reconciliation.MissingCountsCompleteAbsences | src/src/storage/mod.rs:936-938 | In every history a non-manual row's counter is the number of complete refreshes since it was last seen by body or 304; partial refreshes never count |
| Reconciliation.ManualNeverMisses | src/src/storage/mod.rs:936-938 | A row that lists a manual source has counter 0 |
| Reconciliation.OnceManualIsNeverRetired | src/src/storage/mod.rs:936-940 | A row imported manually at any step lists a manual source, has counter 0 and is never retired at every later step |
| Reconciliation.RetirementNeedsCompleteAbsences | src/src/storage/mod.rs:939-940 | Retirement takes at least max(3, configured) complete refreshes without a sighting, twelve hours of age, an expired lease and no manual source |
| Reconciliation.ManualIff | src/src/storage/mod.rs:937-937 | A source is manual exactly when its name contains the word in any mixture of cases |
| Retirement.RetiresIff | src/src/storage/mod.rs:936-940 | In every history a step turns a row RETIRED if and only if it ends a complete refresh and the row is neither INVALID nor RETIRED, lists no manual source, has been missed by at least max(3, configured) complete refreshes since its last sighting, entered twelve hours ago, and no logged success covers the clock |
| Retirement.CreatedWhenEntered | src/src/storage/mod.rs:886-896 | The creation column holds the time at which the row entered |
| Retirement.LeaseCovers | src/src/storage/mod.rs:939-939 | The lease of a row has run out exactly when no logged success covers the clock |
| Retirement.ForgottenAfterThirtyDays | src/src/storage/mod.rs:1296-1299 | A retired row that is not served again, invalidated or parked is deleted by the first cleanup thirty days after its retirement, and by no earlier one |
| RefreshProtocol.HistoryIsCached | src/src/storage/mod.rs:973-997 | In every conforming history, abandoned refreshes included, the latest membership of each source that has one is its last ingested body and every identity in it has exactly one row, not literally RETIRED |
| RefreshProtocol.LatestMembersAreNotRetired | src/src/storage/mod.rs:936-940 | No row literally RETIRED belongs to any source's latest membership |
| RefreshProtocol.HistoryHasUniqueHashes | src/src/storage/mod.rs:876-900 | No two rows of a reachable store share a configuration hash |
| NotModified.StepKeepsAlike | src/src/storage/mod.rs:868-1027 | No statement of the store lets the raw text influence anything but the raw text |
| NotModified.CopyIsReingest | src/src/storage/mod.rs:973-997 | One 304 equals re-ingesting the last body, up to raw text |
| NotModified.CopyStandsForIff | src/src/storage/mod.rs:973-997 | A 304 leaves the store of ingesting a body if and only if that body has the identities of the last ingested body of the source, none if there is none |
| NotModified.HistoryCopyStandsForIff | src/src/upstream/mod.rs:112-121 | So for every 304 of every conforming history |
| Validators.CertifiedHasStoredTag | src/src/storage/mod.rs:958-971 | The certified body is the last one served with a validator, whose validator is the one on record |
| Validators.NotModifiedIsRightIff | src/src/upstream/mod.rs:83-133 | After any servings of a source, ingested or not, tagged or not, a refresh answered by a 304 equals one that fetches the certified body if and only if that has the identities of the last ingested one |
| Validators.TaggedAndReachedIsRight | src/src/upstream/mod.rs:89-103 | If every body carries a validator and is ingested, the certified body is the last ingested one |
| Validators.WrongNotModified | src/src/storage/mod.rs:965-965 | Three concrete histories whose next 304 leaves another store than the body it certifies |
| NotModified.NotModifiedIsTransparent | src/src/upstream/mod.rs:83-133 | Any chain of 304s, interleaved with probes, claims, imports and operators, leaves the same memberships, generations, counters, states and leases as ingesting the last body again where each 304 arrives |
| NotModified.EmptyBodyIsNotCached | src/src/storage/mod.rs:980-986 | A 304 stands for an empty body exactly when the source never had a member |
| RefreshTransparency.CopyCommutes | src/src/upstream/mod.rs:112-133 | A 304 and an ingest from another source in the same generation commute exactly |
| RefreshTransparency.RefreshIsTransparent | src/src/upstream/mod.rs:83-142 | A refresh with 304s leaves the store of the same refresh with every such answer replaced by the source's last body, ingested with the other bodies at the end |
| RefreshTransparency.HistoryRefreshIsTransparent | src/src/upstream/mod.rs:31-157 | This holds of every refresh after any conforming history |
| Upstream.Refresh | src/src/upstream/mod.rs:31-157 | One refresh is exactly its steps in order: begin, 304 copies as answers arrive, one ingest of all bodies, finish; the report counts sources, successes, accepted proxies (bodies and copied memberships), rejected lines and inserted rows |
| Upstream.RefreshConforms | src/src/upstream/mod.rs:83-142 | Whatever mix of bodies, 304s and failures is answered, and whether or not the refresh before was abandoned, a refresh follows the protocol |
| Upstream.RefreshExtendsHistory | src/src/upstream/mod.rs:31-157 | Appending a whole refresh to a conforming history gives a conforming history |
| Incident.CorrelatedIncident | src/src/scheduler/mod.rs:102-167 | The one-pass classifier computes the verdict defined by sums and sets over the failing reports |
| Incident.VerdictOrderFree | src/src/scheduler/mod.rs:102-167 | The verdict does not depend on report order |
| Incident.VerdictSurvivesFailure | src/src/scheduler/mod.rs:102-167 | One more failing report never withdraws an incident |
| Incident.VerdictIff | src/src/scheduler/mod.rs:102-154 | A batch is an incident if and only if it has three reports, at least the threshold share of them are conclusive failures, and two of those differ in source, protocol or server |
| Incident.ReasonIff | src/src/scheduler/mod.rs:155-161 | The reason is DNS when there is at least one DNS failure to two failing reports, else the endpoint by the same rule, else neither |
| App.ApplyReport | src/src/app.rs:410-496 | One report is applied as its events in order under one run id, then a wait or a release; returns whether a download succeeded |
| App.ApplyBatch | src/src/app.rs:356-497 | A batch is classified once and applied report by report with the incident rewriting |
| App.ReportIsDisciplined | src/src/app.rs:410-496 | Applying the report of a claimed node never parks a busy row or probes a parked one, and leaves the node out of TESTING |
| App.ReportIsLogged | src/src/app.rs:421-452 | A report of a new run adds to the log the first event of each of its stages and nothing else; under an incident failures enter as endpoint failures, successes and structural errors as they are |
| App.ReportParksIff | src/src/app.rs:412-495 | A claimed node is parked, for five seconds, exactly when its report consists of nothing but a lack of ports; otherwise it is back in one of the six states |
| App.IncidentIsNeutral | src/src/app.rs:424-437 | Under an incident the batch, however interleaved with statements that record nothing else on the node, raises no failure counter, shortens no lease and adds no failure weight on any node without an INVALID_CONFIG event |
| App.BatchIsNeutral | src/src/app.rs:424-437 | The same for the whole batch by itself, which keeps the row |
| Quota.ForCapacity | src/src/scheduler/mod.rs:170-192 | Sorting in place, incrementing the first slots and sorting back gives each queue its floor plus one if its remainder ranks among the largest |
| Quota.SortBy | src/src/scheduler/mod.rs:182-186 | In-place sort: a permutation, in order |
| Quota.SharesAreFair | src/src/scheduler/mod.rs:170-192 | Shares use the capacity exactly, each is the exact share rounded up or down, in non-increasing order |
| Quota.OneMoreSlot | src/src/scheduler/mod.rs:170-192 | One more unit of capacity goes to exactly one queue and is taken from none |
| Quota.SharesAreClosest | src/src/scheduler/mod.rs:171-174 | No other split of the capacity is closer to the 40/30/20/10 shares |
| Scheduler.OrderIsTotal | src/src/scheduler/mod.rs:425-433 | The ORDER BY clause is a strict total order on the due rows of a store with unique hashes |
| Scheduler.RankingPrefers | src/src/scheduler/mod.rs:425-431 | Each column alone: a lease about to end, a download on record, a handshake timeout, a test long ago put a row ahead; five failures without a download put it back |
| Scheduler.RankingPutsProvenFirst | src/src/scheduler/mod.rs:425-431 | Rows with a download whose lease is about to end precede all rows whose lease is not; a row with a download precedes one without that has failed five times, or under pressure |
| Scheduler.TiesAreBrokenByHash | src/src/scheduler/mod.rs:432-433 | Between rows of equal priority only the hash decides |
| Scheduler.AppendClaims | src/src/scheduler/mod.rs:387-471 | The loop claims the first rows of the ranking, all of them, and appends their jobs in order |
| Scheduler.ClaimDue | src/src/scheduler/mod.rs:211-288 | Exactly min(capacity, due) distinct rows are claimed; every one is valid, stands in or is parked from its job's queue, is due and under no test lease, and all such rows are when fewer than the capacity are; each queue gives at least min(quota, due), the best of its ranking as one query would return them, and more only after every earlier queue is exhausted; nothing else in the store changes |
| Scheduler.NextOfRanking | src/src/scheduler/mod.rs:232-279 | The second pass over a queue continues the ranking of the first |
| Scheduler.FairTickIsDetermined | src/src/scheduler/mod.rs:211-288 | The claim guarantee determines the claimed rows of every queue |
| Scheduler.TickIsClaims | src/src/scheduler/mod.rs:450-454 | A tick is a history of claim statements |
| Claims.TakenIff | src/src/scheduler/mod.rs:401-423 | In every history a claim takes a row exactly when it is valid, stands in or is parked from the queue, its next test is due and its last test lease has run out |
| Claims.NotTakenBeforeNextTest | src/src/scheduler/mod.rs:409-409 | Whatever set the time of the next test, no claim takes the row before it unless a probe, a wait, a manual test, a revival or a reviving ingest sets another in between |
| Claims.ClaimsAreALeaseApart | src/src/scheduler/mod.rs:410-454 | Two claims of one row are at least a lease apart unless a probe, a release, a wait or a revival ends its test in between |
| Ranking.TopKSpec | src/src/scheduler/mod.rs:425-434 | ORDER BY with LIMIT k returns min(k, n) distinct rows in order, none outranked by a row left behind |
| Ranking.TwoPasses | src/src/scheduler/mod.rs:232-279 | Two queries with limits a and b return what one query with limit a + b returns |
| Ports.PortPool.TryReserve | src/src/xray/mod.rs:557-576 | A token is taken exactly when the port is unreserved and binds |
| Ports.PortPool.Drop | src/src/xray/mod.rs:236-243 | Dropped tokens give back exactly their ports |
| Ports.PortPool.AllocatePort | src/src/xray/mod.rs:523-546 | One free port of the range is reserved, or none was reliably free and nothing changes |
| Ports.PortPool.AllocatePorts | src/src/xray/mod.rs:548-579 | Reserves that many distinct new ports or leaves the set as found; succeeds whenever enough ports are reliably free |
| Ports.TokensAreExclusive | src/src/xray/mod.rs:222-243 | Under any interleaving of lookups, insertions and drops the reservation set is the ports of live tokens and no two share a port |
| Ports.MovesKeepOthersPorts | src/src/xray/mod.rs:222-243 | No move of one worker touches a port another worker holds |
| Bisection.BuildConfig | src/src/xray/mod.rs:363-384 | The loop wires the k-th inbound to the k-th outbound |
| Bisection.NoCrossTalk | src/src/xray/mod.rs:363-384 | Traffic into the k-th port leaves through the k-th proxy |
| Bisection.Prober.Start | src/src/xray/mod.rs:357-404 | One start; a failed one drops its tokens |
| Bisection.Prober.TestAll | src/src/probe/mod.rs:334-348 | In any completion order, every survivor is reported once and through its own proxy |
| Bisection.Prober.TestSurvivorBatch | src/src/probe/mod.rs:291-375 | Every survivor is reported exactly once, the ports are as found, at most 2n - 1 starts; if starts fail exactly on bad proxies, at most 1 + 2 k ceil(log2 n) starts for k bad, and with sufficient ports exactly the bad ones get XrayStartFailed and the starts are those of `Starts` |
| Bisection.StartsBound | src/src/probe/mod.rs:357-373 | For k bad among n, at most 1 + 2 k ceil(log2 n) starts |
| Bisection.CeilLog2Spec | src/src/probe/mod.rs:357-373 | The logarithm of the bound is the least power of two that covers the batch: n <= 2^ceil < 2 n |
| Bisection.OneBadAmongPowerOfTwo | src/src/probe/mod.rs:357-373 | The bound is met: one bad among 2^m takes exactly 1 + 2 m starts |
| Bisection.StartsAtMostTree | src/src/probe/mod.rs:357-373 | Never more than 2n - 1 starts |
| Cohort.Merge | src/src/probe/mod.rs:161-166 | Every pending entry gets the outcome of its own survivor, every other entry keeps its preflight finding |
| Cohort.TestBatch | src/src/probe/mod.rs:112-166 | Findings for exactly the given ids, none pending: malformed, its own preflight failure, or its own run; with sufficient ports each survivor is either tested through itself or blamed for its own failure |
| Text.SplitJoin | src/src/publisher/mod.rs:47-47 | Splitting a joined list of lines, with or without the final newline, gives the list back |
| Text.Utf8RoundTrip | src/src/parser/mod.rs:403-417 | Decoding undoes UTF-8 encoding for every text |
| Base64.RoundTrip | src/src/parser/mod.rs:602-607 | The strict decoder undoes the encoder of section 4 of RFC 4648 |
| Base64.RoundTripAs | src/src/parser/mod.rs:602-607 | The decoder of either alphabet undoes its encoder, and the URL-safe one without padding |
| Base64.DecodesEncodings | src/src/parser/mod.rs:602-607 | Padded standard base64 and URL-safe base64 with or without padding are all decoded |
| Base64.StandardUnpaddedIff | src/src/parser/mod.rs:602-607 | Standard base64 without padding is decoded exactly when it needs none or has neither `+` nor `/` |
| Base64.ColonStaysText | src/src/parser/mod.rs:602-607 | A text with a colon is base64 in neither alphabet, so a raw feed is never decoded |
| Feed.ParseSubscription | src/src/parser/mod.rs:32-44 | The loop with its `seen` set computes the report of the kept lines, which `Payload` relates to the payload |
| Feed.ParseIsFaithful | src/src/parser/mod.rs:32-44 | For any payload: accepted hashes are distinct, each accepted proxy is one trimmed line that parses to its hash, a hash is accepted exactly when some line parses to it, rejected lines are those that do not parse |
| Payload.TrimIsMiddle | src/src/parser/mod.rs:404-413 | Trimming takes white space off both ends and nothing else, and leaves none there |
| Payload.AsciiWhite | src/src/parser/mod.rs:404-413 | Among ASCII characters white space is the space and the controls from tab to carriage return |
| Payload.PlainPayload | src/src/parser/mod.rs:403-417 | A payload that shows `://`: a configuration is accepted exactly when some line of the text parses to it, as its first such line without surrounding white space, in the order of those lines; a line is rejected exactly when it is neither blank nor a comment nor a share URL |
| Payload.UndecodablePayload | src/src/parser/mod.rs:403-417 | The same for a payload that is not base64 of UTF-8 |
| Payload.EncodedPayload | src/src/parser/mod.rs:403-417 | A payload that is padded standard base64, or URL-safe base64 padded or not, of the UTF-8 of a text is reported as that text |
| Payload.LinesAreReported | src/src/parser/mod.rs:32-44 | The report of the kept lines of any text is the report of its lines |
| Feed.FeedRoundTrip | src/src/publisher/mod.rs:35-48 | Parsing the raw or the base64 feed gives exactly the published configurations, in order, nothing rejected or merged |
| Feed.RenderedFiles | src/src/publisher/mod.rs:47-48 | The raw file splits into one configuration a line; the other is one line that decodes to the UTF-8 of the raw one |
| Feed.SnapshotOrderIsTotal | src/src/storage/mod.rs:837-840 | Score descending, then hash, never ties |
| Feed.PublishedInOrder | src/src/storage/mod.rs:837-840 | The published list is the whole snapshot, each row once, by falling score and by hash where scores agree |
| Feed.RowsAreParsed | src/src/storage/mod.rs:883-896 | In every history fed by the parser each row's raw text is one line that parses to the row's hash |
| Feed.SnapshotRoundTrip | src/src/publisher/mod.rs:35-48 | Every snapshot of every such history survives both feeds; nothing is rendered exactly for an empty snapshot |
| SnapshotWindow.Publisher.UpdateHistory | submanager/publishing/active_subscription.py:102-116 | Pushes the snapshot unless it repeats the last one, keeps the last k, writes the file only when something changed |
| SnapshotWindow.WindowIsLastOfDestuttered | submanager/publishing/active_subscription.py:102-133 | On a file without a history, after any publications and restarts the file holds the last k entries of the snapshots with consecutive repeats removed |
| SnapshotWindow.WindowIsLastOfAppended | submanager/publishing/active_subscription.py:102-133 | On any file, what is loaded afterwards is the last k entries of the history that was there followed by every snapshot that differs from the one before it |
| SnapshotWindow.AppendedIsDestutteredIff | submanager/publishing/active_subscription.py:105-108 | That is the de-stuttered whole if and only if the old history has no consecutive repeats |
| SnapshotWindow.CleanIsClean | submanager/publishing/active_subscription.py:124-130 | Every snapshot taken reads back as itself |
| SnapshotWindow.CleanSpec | submanager/publishing/active_subscription.py:124-130 | Reading a snapshot keeps exactly its non-blank entries, stripped, each once, in the order of first occurrence |
| SnapshotWindow.MergedIsUnion | submanager/publishing/active_subscription.py:135-138 | The feed is the union of the kept snapshots without repeats |
| SnapshotWindow.OlderOnlyAppends | submanager/publishing/active_subscription.py:135-138 | Newest first: an older snapshot only appends, in its order, what no newer one has |
| SnapshotWindow.NewestOpensFeed | submanager/publishing/active_subscription.py:135-138 | The newest snapshot opens the feed unchanged |

## Left out

- Timestamps: RFC 3339 text comparison in SQL is integer comparison here, and the NULL value of `next_test_at` does not occur because every row enters through ingest.
- Floating point: rounding, NaN and infinities of `f64`; scores are exact reals.
- Identifiers: UUIDs of nodes, runs and refreshes are fresh numbers or arguments; the `status` column, which always equals the lifecycle column, and columns that only report (latency, timestamps of state entry, exit metadata) are not kept.
- Ingest and refresh granularity: an ingest step handles one proxy, so histories allow more interleavings than the transaction does; a store error in the middle of a refresh is an abandoned refresh.
- Store.Store.Claim: does not separate the SELECT from the guarded UPDATE, between which another scheduler, a refresh or an operator could change the row; what the UPDATE alone does is in `Lifecycle.LateClaimStuttersIff` and `Lifecycle.LateClaimKeepsShapeIff`.
- Lifecycle.RowsAreShaped: holds of histories whose claims are not split as above; an UPDATE that meets a row retired after the SELECT stores RETIRED as its origin.
- SchedulerLoop.LoopIsInTurn: assumes that the event of a node that is parked was recorded and that a job stands for a claim that found its row; a database error on these statements is excluded.
- HTTP caching: requests and headers; a source has one validator, and an answer is a body, a 304 or a failure.
- Upstream.RefreshConforms: assumes a fixed source list with distinct names and, once a source has a membership, non-empty bodies, because an empty body leaves no membership to copy (`NotModified.EmptyBodyIsNotCached`).
- Legacy rows: rows migrated from the older schema, with seeded leases or ACTIVE without an activation time.
- Scheduler.ClaimDue: does not model another claimer, a refresh or an operator acting between the SELECT and the guarded UPDATE of a tick; there is one scheduler.
- Quota debt: it is stored and loaded by the scheduler but never read when choosing rows.
- Incident: the server set keeps addresses and node ids apart, while the source compares them as one kind of text.
- App: pausing on pressure, concurrency adjustment, runtimes of ACTIVE nodes, metadata and logging.
- Bisection: the probe through the SOCKS port is summarised by the proxy it reaches; classification of network errors, quorum and download measurements are not modelled.
- Ports: the class is sequential; interleaving is treated by the token state machine beside it.
- Feed.FeedRoundTrip: parsing one share URL is an arbitrary function with two laws (surrounding white space does not matter; an accepted text has a colon and does not start with `#`); the per-protocol grammar and SHA-256 are not modelled.
- Line ends: a carriage return before a line feed is removed by trimming rather than by splitting, with the same kept lines.
- Publisher: writing files, the git repository and pushing.
- SnapshotWindow.WindowIsLastOfDestuttered: the retained count is the same in every process, and stripping is an arbitrary idempotent function.
- The HTTP API, pages, client selection and feedback, the circuit breaker's row update, sentinel checks, migration and backup: presentation, input and output, or independent of the store machine.
