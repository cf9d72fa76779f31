/** The eight stored states refine a six-state machine: TESTING and
    WAITING_FOR_PORT only remember the state they were entered from. */
module Lifecycle {
  import opened Domain
  import opened Health
  import opened Evidence
  import opened Database
  import opened Ledgers

  /** The state of the six-state machine a row stands for. */
  function Origin(n: Node): LifecycleState {
    match n.lifecycle
    case Testing => n.testingFrom.GetOr(Testing)
    case WaitingForPort => n.waitingFrom.GetOr(Candidate)
    case other => other
  }

  /** The row is in a worker's hands or parked for a port. */
  predicate Busy(n: Node) {
    n.lifecycle.Testing? || n.lifecycle.WaitingForPort?
  }

  // ---- Shape of a row ----

  ghost predicate Shaped(n: Node) {
    && (n.lifecycle.Testing? ==> n.testingFrom.Some? && n.testingFrom.value.Queue())
    && (n.lifecycle.Invalid? <==> !n.valid)
  }

  ghost predicate ParkedFromSix(n: Node) {
    n.lifecycle.WaitingForPort? ==> n.waitingFrom.Some? && (n.waitingFrom.value.Queue() || n.waitingFrom.value.Retired?)
  }

  lemma ProbeShaped(cfg: Config, log: Log, n: Node, e: TestEvent, draw: nat)
    requires Shaped(n)
    ensures Shaped(ProbedRow(cfg, log, n, e, draw))
    ensures n.lifecycle.Invalid? ==> ProbedRow(cfg, log, n, e, draw).lifecycle.Invalid?
  {
    hide WindowEvents, Alpha, Beta, Score, NextTestAt;
  }

  lemma StepShaped(cfg: Config, db: Db, t: Timed, id: NodeId)
    requires id in db.nodes && Shaped(db.nodes[id])
    ensures Shaped(RowStep(cfg, db, t, id))
    ensures db.nodes[id].lifecycle.Invalid? ==> RowStep(cfg, db, t, id).lifecycle.Invalid?
  {
    hide ProbedRow, Logged, EarlierGens, HashesAt, IsManual;
    if t.step.Probe? {
      ProbeShaped(cfg, LogStep(db, t), db.nodes[id], EventOf(t.step, t.now), t.step.draw);
    }
  }

  ghost predicate AllShaped(db: Db) {
    forall id :: id in db.nodes ==> Shaped(db.nodes[id])
  }

  lemma TablesShaped(cfg: Config, db: Db, t: Timed, db': Db)
    requires RowWise(cfg, db, t, db') && AllShaped(db)
    ensures AllShaped(db')
  {
    forall id | id in db'.nodes
      ensures Shaped(db'.nodes[id])
    {
      if id in db.nodes {
        StepShaped(cfg, db, t, id);
      }
    }
  }

  /** In every history, TESTING remembers one of the four queue states and
      INVALID is exactly the structurally invalid rows. */
  lemma {:induction false} RowsAreShaped(cfg: Config, tr: seq<Timed>, i: nat)
    requires i <= |tr|
    ensures AllShaped(State(cfg, tr, i))
  {
    hide Next, RowStep;
    if i > 0 {
      RowsAreShaped(cfg, tr, i - 1);
      HistoryRowWise(cfg, tr, i - 1);
      TablesShaped(cfg, State(cfg, tr, i - 1), tr[i - 1], State(cfg, tr, i));
    }
  }

  // ---- Worker discipline ----

  /** A port wait follows its own run's event, so it meets an idle row; a new
      observation never reaches a parked row, whose worker has already reported. */
  ghost predicate Disciplined(db: Db, t: Timed) {
    && (t.step.Wait? && t.step.id in db.nodes && db.nodes[t.step.id].valid ==> !Busy(db.nodes[t.step.id]))
    && (t.step.Probe? && Fresh(db, t.step) ==> !db.nodes[t.step.id].lifecycle.WaitingForPort?)
  }

  ghost predicate DisciplinedRun(cfg: Config, tr: seq<Timed>) {
    forall i :: 0 <= i < |tr| ==> Disciplined(State(cfg, tr, i), tr[i])
  }

  lemma ProbeParked(cfg: Config, log: Log, n: Node, e: TestEvent, draw: nat)
    requires Shaped(n) && ParkedFromSix(n)
    ensures ParkedFromSix(ProbedRow(cfg, log, n, e, draw))
  {
    hide WindowEvents, Alpha, Beta, Score, NextTestAt;
  }

  lemma StepParked(cfg: Config, db: Db, t: Timed, id: NodeId)
    requires id in db.nodes && Shaped(db.nodes[id]) && ParkedFromSix(db.nodes[id])
    requires Disciplined(db, t)
    ensures ParkedFromSix(RowStep(cfg, db, t, id))
  {
    hide ProbedRow, Logged, EarlierGens, HashesAt, IsManual;
    if t.step.Probe? {
      ProbeParked(cfg, LogStep(db, t), db.nodes[id], EventOf(t.step, t.now), t.step.draw);
    }
  }

  ghost predicate AllParkedFromSix(db: Db) {
    forall id :: id in db.nodes ==> ParkedFromSix(db.nodes[id])
  }

  lemma TablesParked(cfg: Config, db: Db, t: Timed, db': Db)
    requires RowWise(cfg, db, t, db') && AllShaped(db) && AllParkedFromSix(db) && Disciplined(db, t)
    ensures AllParkedFromSix(db')
  {
    forall id | id in db'.nodes
      ensures ParkedFromSix(db'.nodes[id])
    {
      if id in db.nodes {
        StepParked(cfg, db, t, id);
      }
    }
  }

  lemma {:induction false} RowsAreParkedFromSix(cfg: Config, tr: seq<Timed>, i: nat)
    requires i <= |tr| && DisciplinedRun(cfg, tr)
    ensures AllParkedFromSix(State(cfg, tr, i))
  {
    hide Next, RowStep;
    if i > 0 {
      RowsAreParkedFromSix(cfg, tr, i - 1);
      RowsAreShaped(cfg, tr, i - 1);
      HistoryRowWise(cfg, tr, i - 1);
      TablesParked(cfg, State(cfg, tr, i - 1), tr[i - 1], State(cfg, tr, i));
    }
  }

  // ---- The abstract machine ----

  predicate Six(s: LifecycleState) {
    !s.Testing? && !s.WaitingForPort?
  }

  /** An ACTIVE row has served its residence, its score is low and two runs have failed. */
  predicate EarnsDemotion(n: Node, after: Node, now: int, minResidence: int) {
    && n.activatedAt.Some? && now - n.activatedAt.value >= minResidence
    && after.score < 0.35 && after.independentFailures >= 2
  }

  /** Three failures in a row and hardly any credit left. */
  predicate EarnsDormancy(after: Node) {
    after.score < 0.15 && after.failureStreak >= 3
  }

  /** Where a recorded observation of a row `n` standing for state `a` leads, given the row `after` it leaves.
      One clause for each state it may lead to. */
  predicate ProbeMove(a: LifecycleState, b: LifecycleState, n: Node, after: Node,
                      stage: TestStage, outcome: FailureClass, now: int, minResidence: int) {
    var download := outcome.Success? && stage.Download?;
    var judged := !outcome.InvalidConfig? && !a.Invalid? && !a.Retired?;
    && (b.Invalid? <==> outcome.InvalidConfig? || a.Invalid?)
    && (b.Retired? <==> a.Retired? && !outcome.InvalidConfig?)
    && (b.Candidate? <==> judged && a.Candidate? && !download)
    && (b.Active? <==> judged && (download
                                  || (a.Active? && !EarnsDemotion(n, after, now, minResidence))
                                  || (a.Probation? && after.score >= 0.70)))
    && (b.Probation? <==> judged && !download
                          && ((a.Active? && EarnsDemotion(n, after, now, minResidence))
                              || (a.Probation? && after.score < 0.70 && !EarnsDormancy(after))
                              || (a.Dormant? && outcome.Success? && after.score >= 0.70)))
    && (b.Dormant? <==> judged && !download
                        && ((a.Probation? && EarnsDormancy(after))
                            || (a.Dormant? && !(outcome.Success? && after.score >= 0.70))))
    && Six(b)
  }

  /** The moves the six-state machine allows for one step of the store. */
  ghost predicate AbstractMove(cfg: Config, t: Timed, recorded: bool, n: Node, after: Node) {
    var a, b := Origin(n), Origin(after);
    match t.step
    case Probe(_, _, stage, outcome, _, _) =>
      if recorded then ProbeMove(a, b, n, after, stage, outcome, t.now, cfg.minResidence) else b == a
    case Ingest(p, _) => b == (if a.Retired? && n.lifecycle.Retired? && p.hash == n.hash then Candidate else a)
    case FinishRefresh(_, _, _) => b == a || (Complete(t.step) && a.Publishable() && b.Retired?)
    case ReviveNode(id) => b == a || ((a.Dormant? || a.Candidate?) && b.Probation?)
    case ReviveDormant => b == (if n.lifecycle.Dormant? && n.valid then Probation else a)
    case _ => b == a
  }

  ghost predicate Refines(cfg: Config, db: Db, t: Timed, id: NodeId)
    requires id in db.nodes
  {
    AbstractMove(cfg, t, t.step.Probe? && t.step.id == id && Fresh(db, t.step), db.nodes[id], RowStep(cfg, db, t, id))
  }

  lemma ProbeMoves(cfg: Config, log: Log, n: Node, e: TestEvent, draw: nat)
    requires Shaped(n) && !n.lifecycle.WaitingForPort? && Six(Origin(n))
    ensures var after := ProbedRow(cfg, log, n, e, draw);
      ProbeMove(Origin(n), Origin(after), n, after, e.stage, e.outcome, e.at, cfg.minResidence)
  {
    hide WindowEvents, Alpha, Beta, Score, NextTestAt;
  }

  lemma StepRefines(cfg: Config, db: Db, t: Timed, id: NodeId)
    requires id in db.nodes && Shaped(db.nodes[id]) && ParkedFromSix(db.nodes[id])
    requires Disciplined(db, t)
    ensures Six(Origin(db.nodes[id]))
    ensures Refines(cfg, db, t, id)
  {
    hide ProbedRow, ProbeMove, Logged, EarlierGens, HashesAt, IsManual;
    if t.step.Probe? && t.step.id == id && Fresh(db, t.step) {
      ProbeMoves(cfg, db.log + [EventOf(t.step, t.now)], db.nodes[id], EventOf(t.step, t.now), t.step.draw);
    }
  }

  /** Refinement: in every disciplined history each row's origin is one of six
      states, claims, releases and waits do not move it, a recorded probe moves it as its
      new score, its failures and the observation demand, and the rest follow the abstract machine. */
  lemma HistoryRefines(cfg: Config, tr: seq<Timed>, i: nat, id: NodeId)
    requires i < |tr| && DisciplinedRun(cfg, tr)
    requires id in State(cfg, tr, i).nodes && id in State(cfg, tr, i + 1).nodes
    ensures Six(Origin(State(cfg, tr, i).nodes[id]))
    ensures State(cfg, tr, i + 1).nodes[id] == RowStep(cfg, State(cfg, tr, i), tr[i], id)
    ensures Refines(cfg, State(cfg, tr, i), tr[i], id)
  {
    hide Next, RowStep;
    RowsAreParkedFromSix(cfg, tr, i);
    RowsAreShaped(cfg, tr, i);
    HistoryRowWise(cfg, tr, i);
    StepRefines(cfg, State(cfg, tr, i), tr[i], id);
  }

  /** RETIRED is left only by an ingest of the row's own hash or by a probe that found the configuration invalid. */
  lemma RetiredIsLeftByIngestOrInvalidConfig(cfg: Config, tr: seq<Timed>, i: nat, id: NodeId)
    requires i < |tr| && DisciplinedRun(cfg, tr)
    requires id in State(cfg, tr, i).nodes && id in State(cfg, tr, i + 1).nodes
    requires Origin(State(cfg, tr, i).nodes[id]).Retired? && !Origin(State(cfg, tr, i + 1).nodes[id]).Retired?
    ensures (tr[i].step.Ingest? && tr[i].step.proxy.hash == State(cfg, tr, i).nodes[id].hash)
         || (tr[i].step.Probe? && tr[i].step.id == id && tr[i].step.outcome.InvalidConfig?)
  {
    hide Next, RowStep;
    HistoryRefines(cfg, tr, i, id);
    if tr[i].step.Ingest? && tr[i].step.proxy.hash != State(cfg, tr, i).nodes[id].hash {
      OtherHashUntouched(cfg, State(cfg, tr, i), tr[i], id);
    }
  }

  lemma OtherHashUntouched(cfg: Config, db: Db, t: Timed, id: NodeId)
    requires t.step.Ingest? && id in db.nodes && t.step.proxy.hash != db.nodes[id].hash
    ensures RowStep(cfg, db, t, id) == db.nodes[id]
  {
  }

  /** INVALID is for the lifetime of the row, in every history. */
  lemma {:induction false} InvalidIsForever(cfg: Config, tr: seq<Timed>, i: nat, j: nat, id: NodeId)
    requires i <= j <= |tr|
    requires id in State(cfg, tr, i).nodes && State(cfg, tr, i).nodes[id].lifecycle.Invalid?
    ensures id in State(cfg, tr, j).nodes && State(cfg, tr, j).nodes[id].lifecycle.Invalid?
  {
    hide Next, RowStep;
    if i < j {
      InvalidIsForever(cfg, tr, i, j - 1, id);
      RowsAreShaped(cfg, tr, j - 1);
      HistoryRowWise(cfg, tr, j - 1);
      StepShaped(cfg, State(cfg, tr, j - 1), tr[j - 1], id);
    }
  }

  // ---- Where the discipline is needed ----

  /** A wait is a stutter exactly when it meets a row that is idle or invalid. */
  lemma WaitStuttersIffIdle(n: Node, now: int, retryAfter: int)
    requires Shaped(n) && ParkedFromSix(n)
    ensures Origin(WaitRow(n, now, retryAfter)) == Origin(n) <==> !n.valid || !Busy(n)
  {
  }

  /** No threshold of the decision function is crossed. */
  predicate WithinThresholds(i: HealthInput) {
    var score := Score(i.alpha, i.beta);
    match i.prior
    case Active => !Resident(i) || score >= 0.35 || IndependentFailures(i) < 2
    case Probation => score < 0.70 && (score >= 0.15 || FailureStreak(i) < 3)
    case Dormant => score < 0.70 || !i.outcome.Success?
    case _ => true
  }

  /** A probe that reaches a parked row agrees with the six-state machine exactly
      when it is an invalid configuration, a download of a row not retired, or an
      observation that crosses no threshold. */
  lemma ParkedProbeRefinesIff(cfg: Config, log: Log, n: Node, e: TestEvent, draw: nat)
    requires n.lifecycle.WaitingForPort? && Shaped(n) && ParkedFromSix(n)
    ensures var input := InputFor(cfg, log, n, e).(prior := Origin(n));
      Origin(ProbedRow(cfg, log, n, e, draw)) == NextLifecycle(input) <==>
        || e.outcome.InvalidConfig?
        || (if e.outcome.Success? && e.stage.Download? then !Origin(n).Retired?
            else WithinThresholds(input) || Origin(n).Retired?)
  {
    var input := InputFor(cfg, log, n, e).(prior := Origin(n));
    var after := ProbedRow(cfg, log, n, e, draw);
    assert InputFor(cfg, log, n, e).prior.WaitingForPort?;
    if !e.outcome.InvalidConfig? && !(e.outcome.Success? && e.stage.Download?) {
      assert after.lifecycle.WaitingForPort? && Origin(after) == Origin(n);
    }
  }

  // ---- Rows parked while retired ----

  /** Retired while it was being tested, then parked for want of a port. */
  predicate ParkedRetired(n: Node) {
    n.lifecycle.WaitingForPort? && n.waitingFrom == Some(Retired)
  }

  /** How a row gets there: a complete refresh retires it under test, its report is a lack of ports. */
  lemma RetiredUnderTestIsParked(cfg: Config, log: Log, n: Node, e: TestEvent, draw: nat, now: int, minimum: nat,
                                 retryAfter: int)
    requires n.lifecycle.Testing? && n.valid && Retirable(n, now, minimum) && e.outcome.LocalOverload?
    ensures ParkedRetired(WaitRow(ProbedRow(cfg, log, RetireRow(n, now, minimum), e, draw), e.at, retryAfter))
  {
    hide WindowEvents, Alpha, Beta, Score, NextTestAt;
  }

  /** Upstream reappearance revives a retired row exactly when it has not been parked. */
  lemma IngestRevivesIffNotParked(n: Node, p: Proxy, gen: int, now: int)
    requires Shaped(n) && Origin(n).Retired?
    ensures Origin(SeenRow(n, p, gen, now)).Candidate? <==> n.lifecycle.Retired?
    ensures !n.lifecycle.Retired? <==> ParkedRetired(n)
  {
  }

  /** A late observation delivered by anything but the scheduler's loop, which never probes a
      parked row, would bring such a row back. */
  lemma ParkedRetiredIsResurrected(cfg: Config, log: Log, n: Node, e: TestEvent, draw: nat)
    requires ParkedRetired(n) && e.outcome.Success? && e.stage.Download?
    ensures Origin(n).Retired? && Origin(ProbedRow(cfg, log, n, e, draw)).Active?
  {
    assert InputFor(cfg, log, n, e).prior.WaitingForPort?;
  }

  /** No queue claims such a row, and no statement but a probe, a wait or a retirement moves it. */
  lemma ParkedRetiredIsStuck(cfg: Config, db: Db, t: Timed, id: NodeId)
    requires id in db.nodes && ParkedRetired(db.nodes[id])
    requires !(t.step.Probe? && t.step.id == id) && !(t.step.Wait? && t.step.id == id)
    ensures ParkedRetired(RowStep(cfg, db, t, id)) || RowStep(cfg, db, t, id).lifecycle.Retired?
    ensures Stranded(db.nodes[id])
  {
    hide ProbedRow, Logged, EarlierGens, HashesAt, IsManual;
  }

  /** If the only event of a port-starved run could not be recorded, the wait meets the row still
      marked as being tested: its origin is lost and no queue claims it again. */
  lemma UnrecordedReportIsLost(n: Node, now: int, retryAfter: int, queue: LifecycleState, later: int)
    requires Shaped(n) && n.lifecycle.Testing? && queue.Queue()
    ensures Origin(WaitRow(n, now, retryAfter)).Testing? && !Eligible(WaitRow(n, now, retryAfter), queue, later)
  {
  }

  /** No queue selects the row, whatever the time. */
  ghost predicate Stranded(n: Node) {
    forall queue: LifecycleState, now :: queue.Queue() ==> !Eligible(n, queue, now)
  }

  /** While the scheduler keeps its order, the rows that should be tested and never will be are
      those left TESTING and those parked from RETIRED. */
  lemma StrandedIff(n: Node)
    requires Shaped(n) && ParkedFromSix(n) && n.lifecycle.Publishable()
    ensures Stranded(n) <==> n.lifecycle.Testing? || ParkedRetired(n)
  {
    if !n.lifecycle.Testing? && !ParkedRetired(n) {
      var later := if n.testLease.Some? then Max(n.nextTestAt, n.testLease.value) else n.nextTestAt;
      assert Eligible(n, Origin(n), later);
    }
  }

  // ---- A claim whose SELECT is out of date ----

  /** The UPDATE of a claim by itself: its only guard is the test lease. */
  function GuardedUpdate(n: Node, now: int, until: int): Node {
    if Expired(n.testLease, now) then ClaimRow(n, until) else n
  }

  /** If another statement came between the SELECT and the UPDATE, the claim is still a stutter
      exactly when it did not meet a row still marked as being tested after its lease ran out. */
  lemma LateClaimStuttersIff(n: Node, now: int, until: int)
    requires Shaped(n) && ParkedFromSix(n)
    ensures Origin(GuardedUpdate(n, now, until)) == Origin(n) <==> !n.lifecycle.Testing? || !Expired(n.testLease, now)
  {
  }

  /** It leaves a TESTING row without a queue to return to, or an invalid one, exactly when the row
      it met does not belong to one of the four queues. */
  lemma LateClaimKeepsShapeIff(n: Node, now: int, until: int)
    requires Shaped(n) && ParkedFromSix(n) && Expired(n.testLease, now)
    ensures Shaped(GuardedUpdate(n, now, until)) <==>
              n.valid && (n.lifecycle.Queue() || (n.lifecycle.WaitingForPort? && n.waitingFrom.value.Queue()))
  {
  }

  // ---- Real downloads ----

  predicate Proven(s: LifecycleState) {
    s.Active? || s.Probation? || s.Dormant?
  }

  /** The operator promotes a CANDIDATE that has never completed a download. */
  predicate PromotesUnproven(db: Db, t: Timed, id: NodeId) {
    t.step.ReviveNode? && t.step.id == id && id in db.nodes
    && db.nodes[id].lifecycle.Candidate? && db.nodes[id].valid && db.nodes[id].lastDownloadAt.None?
  }

  lemma ProbeKeepsProof(cfg: Config, log: Log, n: Node, e: TestEvent, draw: nat)
    requires Shaped(n) && (Proven(Origin(n)) ==> n.lastDownloadAt.Some?)
    ensures var n' := ProbedRow(cfg, log, n, e, draw); Proven(Origin(n')) ==> n'.lastDownloadAt.Some?
  {
    hide WindowEvents, Alpha, Beta, Score, NextTestAt;
  }

  lemma StepKeepsProof(cfg: Config, db: Db, t: Timed, id: NodeId)
    requires id in db.nodes && Shaped(db.nodes[id])
    requires Proven(Origin(db.nodes[id])) ==> db.nodes[id].lastDownloadAt.Some?
    ensures var n' := RowStep(cfg, db, t, id);
      (Proven(Origin(n')) ==> n'.lastDownloadAt.Some?) <==> !PromotesUnproven(db, t, id)
  {
    hide ProbedRow, Logged, EarlierGens, HashesAt, IsManual;
    if t.step.Probe? {
      ProbeKeepsProof(cfg, LogStep(db, t), db.nodes[id], EventOf(t.step, t.now), t.step.draw);
    }
  }

  ghost predicate DownloadLogged(log: Log, id: NodeId) {
    exists k :: 0 <= k < |log| && SuccessOf(log[k], id) && log[k].stage.Download?
  }

  /** Before step `i`, if the row's origin is ACTIVE, PROBATION or DORMANT then it has a logged successful download. */
  ghost predicate ProvenByDownload(cfg: Config, tr: seq<Timed>, i: nat, id: NodeId)
    requires i <= |tr|
  {
    var db := State(cfg, tr, i);
    id in db.nodes && Proven(Origin(db.nodes[id])) ==> DownloadLogged(db.log, id)
  }

  lemma DownloadIsRecorded(cfg: Config, tr: seq<Timed>, i: nat, id: NodeId)
    requires i <= |tr| && id in State(cfg, tr, i).nodes
    ensures State(cfg, tr, i).nodes[id].lastDownloadAt.Some? <==> DownloadLogged(State(cfg, tr, i).log, id)
  {
    hide Next, State;
    RowsFollowTheLog(cfg, tr, i);
    DownloadIsLogged(State(cfg, tr, i).log, id);
    assert RowLedger(State(cfg, tr, i).nodes[id]) == Replay(State(cfg, tr, i).log, id);
  }

  lemma {:induction false} DownloadRecorded(cfg: Config, tr: seq<Timed>, i: nat, id: NodeId)
    requires i <= |tr|
    requires id in State(cfg, tr, i).nodes
    requires forall k :: 0 <= k < i ==> !PromotesUnproven(State(cfg, tr, k), tr[k], id)
    ensures var n := State(cfg, tr, i).nodes[id]; Proven(Origin(n)) ==> n.lastDownloadAt.Some?
  {
    hide Next, RowStep;
    if i > 0 {
      HistoryRowWise(cfg, tr, i - 1);
      if id in State(cfg, tr, i - 1).nodes {
        DownloadRecorded(cfg, tr, i - 1, id);
        RowsAreShaped(cfg, tr, i - 1);
        StepKeepsProof(cfg, State(cfg, tr, i - 1), tr[i - 1], id);
      }
    }
  }

  /** A step that promotes a row without a download breaks the property at once. */
  lemma PromotionIsUnproven(cfg: Config, tr: seq<Timed>, k: nat, id: NodeId)
    requires k < |tr| && PromotesUnproven(State(cfg, tr, k), tr[k], id)
    ensures !ProvenByDownload(cfg, tr, k + 1, id)
  {
    hide Next;
    HistoryRowWise(cfg, tr, k);
    DownloadIsRecorded(cfg, tr, k + 1, id);
  }

  /** Throughout a history every ACTIVE, PROBATION or DORMANT row has a logged successful download,
      if and only if no operator revives it as a CANDIDATE that has none. */
  lemma ProvenRowsDownloadedIff(cfg: Config, tr: seq<Timed>, id: NodeId)
    ensures (forall i :: 0 <= i <= |tr| ==> ProvenByDownload(cfg, tr, i, id)) <==>
              (forall k :: 0 <= k < |tr| ==> !PromotesUnproven(State(cfg, tr, k), tr[k], id))
  {
    hide State, ProvenByDownload, PromotesUnproven;
    if forall k :: 0 <= k < |tr| ==> !PromotesUnproven(State(cfg, tr, k), tr[k], id) {
      forall i | 0 <= i <= |tr|
        ensures ProvenByDownload(cfg, tr, i, id)
      {
        ProvenWithoutPromotion(cfg, tr, i, id);
      }
    }
    forall k | 0 <= k < |tr| && PromotesUnproven(State(cfg, tr, k), tr[k], id)
      ensures !ProvenByDownload(cfg, tr, k + 1, id)
    {
      PromotionIsUnproven(cfg, tr, k, id);
    }
  }

  lemma ProvenWithoutPromotion(cfg: Config, tr: seq<Timed>, i: nat, id: NodeId)
    requires i <= |tr| && forall k :: 0 <= k < i ==> !PromotesUnproven(State(cfg, tr, k), tr[k], id)
    ensures ProvenByDownload(cfg, tr, i, id)
  {
    hide State, PromotesUnproven;
    if id in State(cfg, tr, i).nodes {
      DownloadRecorded(cfg, tr, i, id);
      DownloadIsRecorded(cfg, tr, i, id);
    }
  }

  /** The shortest such history: a node is ingested and revived before it was ever tested. */
  lemma PromotedCandidateIsUnproven(cfg: Config, p: Proxy)
    ensures var tr := [At(0, Ingest(p, 1)), At(0, ReviveNode(0))];
      && 0 in State(cfg, tr, 2).nodes && State(cfg, tr, 2).nodes[0].lifecycle.Probation?
      && !ProvenByDownload(cfg, tr, 2, 0)
  {
    var tr := [At(0, Ingest(p, 1)), At(0, ReviveNode(0))];
    var db := State(cfg, tr, 1);
    assert State(cfg, tr, 0) == EMPTY;
    assert !Known(EMPTY, p.hash);
    assert 0 in db.nodes && db.nodes[0] == NewRow(p, 1, 0);
    HistoryRowWise(cfg, tr, 1);
    PromotionIsUnproven(cfg, tr, 1, 0);
  }
}
