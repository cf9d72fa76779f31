/** What the columns that decide a row's moves mean in terms of the event log, and every move of
    every history in those terms. */
module Moves {
  import opened Domain
  import opened Health
  import opened Evidence
  import opened Database
  import opened Ledgers
  import opened Lifecycle
  import opened AntiFlapping
  import opened Scores

  predicate FailedAt(log: Log, id: NodeId, i: nat) {
    i < |log| && log[i].id == id && log[i].outcome != Success && log[i].outcome != LocalOverload
    && log[i].outcome != EndpointFailure
  }

  predicate SucceededAt(log: Log, id: NodeId, i: nat) {
    i < |log| && log[i].id == id && log[i].outcome == Success
  }

  /** The conclusive failures of the node since its last success. */
  function FailuresSinceSuccess(log: Log, id: NodeId): set<nat> {
    set i: nat | i < |log| && FailedAt(log, id, i) && forall k: nat | i < k < |log| :: !SucceededAt(log, id, k)
  }

  /** The conclusive failure of the node before `i` was of the same run. */
  predicate RepeatsRun(log: Log, id: NodeId, i: nat)
    requires i < |log|
  {
    exists j: nat | j < i :: FailedAt(log, id, j) && log[j].run == log[i].run &&
        forall k: nat | j < k < i :: !FailedAt(log, id, k)
  }

  /** Those since the last success whose run differs from that of the failure before. */
  function NewRunsSinceSuccess(log: Log, id: NodeId): set<nat> {
    set i: nat | i < |log| && i in FailuresSinceSuccess(log, id) && !RepeatsRun(log, id, i)
  }

  lemma PrefixFacts(log: Log, id: NodeId, e: TestEvent)
    ensures forall i: nat :: i < |log| ==> (FailedAt(log + [e], id, i) <==> FailedAt(log, id, i))
    ensures forall i: nat :: i < |log| ==> (SucceededAt(log + [e], id, i) <==> SucceededAt(log, id, i))
    ensures forall i: nat :: i < |log| ==> (RepeatsRun(log + [e], id, i) <==> RepeatsRun(log, id, i))
  {
    var more := log + [e];
    forall i: nat | i < |log|
      ensures FailedAt(more, id, i) <==> FailedAt(log, id, i)
      ensures SucceededAt(more, id, i) <==> SucceededAt(log, id, i)
    {
      assert more[i] == log[i];
    }
    forall i: nat | i < |log|
      ensures RepeatsRun(more, id, i) <==> RepeatsRun(log, id, i)
    {
      assert more[i] == log[i];
      assert forall j: nat :: j < i ==> more[j] == log[j];
    }
  }

  lemma FailuresAppend(log: Log, id: NodeId, e: TestEvent)
    ensures FailuresSinceSuccess(log + [e], id)
         == if SuccessOf(e, id) then {}
            else FailuresSinceSuccess(log, id) + (if FailureOf(e, id) then {|log|} else {})
  {
    var more, n := log + [e], |log|;
    PrefixFacts(log, id, e);
    assert more[n] == e;
    assert FailedAt(more, id, n) <==> FailureOf(e, id);
    assert SucceededAt(more, id, n) <==> SuccessOf(e, id);
    forall i: nat
      ensures i in FailuresSinceSuccess(more, id) <==>
                i in (if SuccessOf(e, id) then {}
                      else FailuresSinceSuccess(log, id) + (if FailureOf(e, id) then {n} else {}))
    {
      if i < n {
        assert (forall k: nat | i < k < n + 1 :: !SucceededAt(more, id, k)) <==>
                 (forall k: nat | i < k < n :: !SucceededAt(log, id, k)) && !SuccessOf(e, id);
      }
    }
  }

  /** The streak column counts the conclusive failures since the last success. */
  lemma {:induction false} StreakCountsFailures(log: Log, id: NodeId)
    ensures Replay(log, id).streak == Min(U32_MAX, |FailuresSinceSuccess(log, id)|)
  {
    if |log| > 0 {
      var n := |log| - 1;
      assert log == log[..n] + [log[n]];
      StreakCountsFailures(log[..n], id);
      FailuresAppend(log[..n], id, log[n]);
      assert n !in FailuresSinceSuccess(log[..n], id);
      hide FailuresSinceSuccess;
    }
  }

  /** The run on record is that of the last conclusive failure, whatever succeeded since. */
  ghost predicate LastFailure(log: Log, id: NodeId, j: nat) {
    FailedAt(log, id, j) && forall k: nat :: j < k < |log| ==> !FailedAt(log, id, k)
  }

  lemma {:induction false} RunOnRecord(log: Log, id: NodeId)
    ensures Replay(log, id).lastRun.None? ==> forall j: nat :: j < |log| ==> !FailedAt(log, id, j)
    ensures Replay(log, id).lastRun.Some? ==>
              exists j: nat :: LastFailure(log, id, j) && log[j].run == Replay(log, id).lastRun.value
  {
    if |log| > 0 {
      var n := |log| - 1;
      var init := log[..n];
      assert log == init + [log[n]];
      RunOnRecord(init, id);
      PrefixFacts(init, id, log[n]);
      assert FailedAt(log, id, n) <==> FailureOf(log[n], id);
      if FailureOf(log[n], id) {
        assert LastFailure(log, id, n);
      } else if Replay(init, id).lastRun.Some? {
        var j: nat :| LastFailure(init, id, j) && init[j].run == Replay(init, id).lastRun.value;
        assert LastFailure(log, id, j);
      }
    }
  }

  lemma RepeatsRecordedRun(log: Log, id: NodeId, e: TestEvent)
    ensures RepeatsRun(log + [e], id, |log|) <==> Replay(log, id).lastRun == Some(e.run)
  {
    var more, n := log + [e], |log|;
    PrefixFacts(log, id, e);
    RunOnRecord(log, id);
    if Replay(log, id).lastRun.Some? {
      var j: nat :| LastFailure(log, id, j) && log[j].run == Replay(log, id).lastRun.value;
      assert FailedAt(more, id, j) && more[j] == log[j];
      if RepeatsRun(more, id, n) {
        var i: nat :| i < n && FailedAt(more, id, i) && more[i].run == e.run &&
            forall k: nat | i < k < n :: !FailedAt(more, id, k);
        assert i == j;
      }
    }
  }

  lemma NewRunsAppend(log: Log, id: NodeId, e: TestEvent)
    ensures NewRunsSinceSuccess(log + [e], id)
         == if SuccessOf(e, id) then {}
            else NewRunsSinceSuccess(log, id)
                 + (if FailureOf(e, id) && Replay(log, id).lastRun != Some(e.run) then {|log|} else {})
  {
    FailuresAppend(log, id, e);
    PrefixFacts(log, id, e);
    RepeatsRecordedRun(log, id, e);
    hide FailuresSinceSuccess, RepeatsRun, Replay;
    assert forall i :: i in FailuresSinceSuccess(log, id) ==> i < |log| by {
      FailuresAreIndices(log, id);
    }
  }

  lemma FailuresAreIndices(log: Log, id: NodeId)
    ensures forall i :: i in FailuresSinceSuccess(log, id) ==> i < |log|
  {
  }

  /** The independent-failure column counts those of them that changed the run. */
  lemma {:induction false} IndependentCountsRuns(log: Log, id: NodeId)
    ensures Replay(log, id).independent == Min(U32_MAX, |NewRunsSinceSuccess(log, id)|)
  {
    if |log| > 0 {
      var n := |log| - 1;
      assert log == log[..n] + [log[n]];
      IndependentCountsRuns(log[..n], id);
      NewRunsAppend(log[..n], id, log[n]);
      assert n !in NewRunsSinceSuccess(log[..n], id);
      hide NewRunsSinceSuccess;
    }
  }

  // ---- The failure on record ----

  ghost predicate RecordedClass(log: Log, id: NodeId, recorded: Option<FailureClass>) {
    match recorded
    case None => forall j: nat :: j < |log| ==> !FailedAt(log, id, j)
    case Some(outcome) => exists j: nat :: LastFailure(log, id, j) && log[j].outcome == outcome
  }

  lemma RecordedClassAppend(log: Log, id: NodeId, e: TestEvent, recorded: Option<FailureClass>)
    requires RecordedClass(log, id, recorded)
    ensures RecordedClass(log + [e], id, if FailureOf(e, id) then Some(e.outcome) else recorded)
  {
    var more, n := log + [e], |log|;
    PrefixFacts(log, id, e);
    assert more[n] == e && (FailedAt(more, id, n) <==> FailureOf(e, id));
    if FailureOf(e, id) {
      assert LastFailure(more, id, n);
    } else if recorded.Some? {
      var j: nat :| LastFailure(log, id, j) && log[j].outcome == recorded.value;
      assert LastFailure(more, id, j) && more[j] == log[j];
    }
  }

  lemma StepRecordsClass(cfg: Config, db: Db, t: Timed, id: NodeId)
    requires id in db.nodes
    ensures RowStep(cfg, db, t, id).lastFailureClass ==
            if t.step.Probe? && Fresh(db, t.step) && FailureOf(EventOf(t.step, t.now), id) then Some(t.step.outcome)
            else db.nodes[id].lastFailureClass
  {
    hide WindowEvents, Alpha, Beta, Decide, Logged, EarlierGens, HashesAt, IsManual;
  }

  /** In every history the failure class on record is that of the node's last conclusive failure. */
  lemma {:induction false} ClassOnRecord(cfg: Config, tr: seq<Timed>, i: nat, id: NodeId)
    requires i <= |tr| && id in State(cfg, tr, i).nodes
    ensures RecordedClass(State(cfg, tr, i).log, id, State(cfg, tr, i).nodes[id].lastFailureClass)
  {
    hide Next, RowStep, Fresh, RecordedClass;
    HistoryRowWise(cfg, tr, i - 1);
    var db, t := State(cfg, tr, i - 1), tr[i - 1];
    if id in db.nodes {
      ClassOnRecord(cfg, tr, i - 1, id);
      StepRecordsClass(cfg, db, t, id);
      if t.step.Probe? && Fresh(db, t.step) {
        RecordedClassAppend(db.log, id, EventOf(t.step, t.now), db.nodes[id].lastFailureClass);
      }
    } else {
      NothingRecorded(cfg, tr, i, id);
    }
  }

  lemma NothingRecorded(cfg: Config, tr: seq<Timed>, i: nat, id: NodeId)
    requires 0 < i <= |tr| && id in State(cfg, tr, i).nodes && id !in State(cfg, tr, i - 1).nodes
    ensures RecordedClass(State(cfg, tr, i).log, id, State(cfg, tr, i).nodes[id].lastFailureClass)
  {
    hide Next, State;
    HistoryRowWise(cfg, tr, i - 1);
    RowsFollowTheLog(cfg, tr, i);
    var db := State(cfg, tr, i);
    RunOnRecord(db.log, id);
    assert RowLedger(db.nodes[id]) == Replay(db.log, id);
  }

  // ---- When a row became ACTIVE ----

  ghost predicate ActiveIn(db: Db, id: NodeId) {
    id in db.nodes && IsActive(db.nodes[id])
  }

  /** Step `j` makes the row ACTIVE and it has been so ever since. */
  ghost predicate ActiveSince(cfg: Config, tr: seq<Timed>, j: nat, i: nat, id: NodeId)
    requires i <= |tr|
  {
    && j < i && id in State(cfg, tr, i).nodes && !ActiveIn(State(cfg, tr, j), id)
    && forall m :: j < m <= i ==> ActiveIn(State(cfg, tr, m), id)
  }

  lemma StepStaysActive(cfg: Config, db: Db, t: Timed, id: NodeId)
    requires id in db.nodes && Shaped(db.nodes[id]) && Disciplined(db, t)
    requires IsActive(db.nodes[id]) && IsActive(RowStep(cfg, db, t, id))
    ensures RowStep(cfg, db, t, id).activatedAt == db.nodes[id].activatedAt
  {
    hide ProbedRow, Logged, EarlierGens, HashesAt, IsManual;
    if t.step.Probe? && t.step.id == id && Fresh(db, t.step) {
      ProbeStaysActive(cfg, LogStep(db, t), db.nodes[id], EventOf(t.step, t.now), t.step.draw);
    }
  }

  lemma ProbeStaysActive(cfg: Config, log: Log, n: Node, e: TestEvent, draw: nat)
    requires Shaped(n) && !n.lifecycle.WaitingForPort? && IsActive(n)
    ensures var after := ProbedRow(cfg, log, n, e, draw); IsActive(after) ==> after.activatedAt == n.activatedAt
  {
    hide WindowEvents, Alpha, Beta, Score, NextTestAt;
  }

  lemma StepActivates(cfg: Config, db: Db, t: Timed, db': Db, id: NodeId)
    requires RowWise(cfg, db, t, db') && AllShaped(db) && Disciplined(db, t) && ActiveIn(db', id)
    ensures db'.nodes[id].activatedAt == if ActiveIn(db, id) then db.nodes[id].activatedAt else Some(t.now)
  {
    hide RowStep, IsActive;
    if ActiveIn(db, id) {
      StepStaysActive(cfg, db, t, id);
    } else if id in db.nodes {
      StepActivation(cfg, db, t, id);
    } else {
      NewRowIsCandidate(t);
    }
  }

  /** The activation column holds the time of the step that last made the row ACTIVE. */
  lemma {:induction false} ActivatedWhenEntered(cfg: Config, tr: seq<Timed>, i: nat, id: NodeId)
    requires i <= |tr| && DisciplinedRun(cfg, tr) && ActiveIn(State(cfg, tr, i), id)
    ensures exists j: nat :: ActiveSince(cfg, tr, j, i, id)
              && State(cfg, tr, i).nodes[id].activatedAt == Some(tr[j].now)
  {
    hide Next, RowStep, RowWise, IsActive;
    assert i > 0 by {
      NothingIsActive(id);
    }
    var db, t := State(cfg, tr, i - 1), tr[i - 1];
    HistoryRowWise(cfg, tr, i - 1);
    RowsAreShaped(cfg, tr, i - 1);
    StepActivates(cfg, db, t, State(cfg, tr, i), id);
    if ActiveIn(db, id) {
      ActivatedWhenEntered(cfg, tr, i - 1, id);
      var j: nat :| ActiveSince(cfg, tr, j, i - 1, id) && db.nodes[id].activatedAt == Some(tr[j].now);
      assert ActiveSince(cfg, tr, j, i, id);
    } else {
      assert ActiveSince(cfg, tr, i - 1, i, id);
    }
  }

  lemma NothingIsActive(id: NodeId)
    ensures !ActiveIn(EMPTY, id)
  {
  }

  lemma NewRowIsCandidate(t: Timed)
    requires t.step.Ingest?
    ensures !IsActive(NewRow(t.step.proxy, t.step.gen, t.now))
  {
  }

  // ---- The moves of a history ----

  /** The columns of a row after a recorded probe, from the log. */
  lemma ColumnsAfterProbe(cfg: Config, tr: seq<Timed>, i: nat, id: NodeId)
    requires i <= |tr| && id in State(cfg, tr, i).nodes
    ensures var db := State(cfg, tr, i);
      && db.nodes[id].failureStreak == Min(U32_MAX, |FailuresSinceSuccess(db.log, id)|)
      && db.nodes[id].independentFailures == Min(U32_MAX, |NewRunsSinceSuccess(db.log, id)|)
  {
    hide Next, State, FailuresSinceSuccess, NewRunsSinceSuccess;
    var db := State(cfg, tr, i);
    RowsFollowTheLog(cfg, tr, i);
    StreakCountsFailures(db.log, id);
    IndependentCountsRuns(db.log, id);
    assert RowLedger(db.nodes[id]) == Replay(db.log, id);
  }

  /** Every recorded observation of every history kept in order, in terms of the new score and the log:
      where it leads a row that stood for `a` at step `i`. */
  lemma MovesOfHistory(cfg: Config, tr: seq<Timed>, i: nat, id: NodeId)
    requires i < |tr| && DisciplinedRun(cfg, tr) && id in State(cfg, tr, i).nodes
    requires tr[i].step.Probe? && tr[i].step.id == id && Fresh(State(cfg, tr, i), tr[i].step)
    ensures id in State(cfg, tr, i + 1).nodes
    ensures var a, b := Origin(State(cfg, tr, i).nodes[id]), Origin(State(cfg, tr, i + 1).nodes[id]);
      var log, score := State(cfg, tr, i + 1).log, State(cfg, tr, i + 1).nodes[id].score;
      var download := tr[i].step.stage == Download && tr[i].step.outcome == Success;
      var since := State(cfg, tr, i).nodes[id].activatedAt;
      && (tr[i].step.outcome == InvalidConfig ==> b == Invalid)
      && (tr[i].step.outcome != InvalidConfig ==>
            && (a == Candidate ==> b == if download then Active else Candidate)
            && (a == Active ==>
                  (b == Probation <==>
                     !download && since.Some? && tr[i].now - since.value >= cfg.minResidence
                     && score < 0.35 && |NewRunsSinceSuccess(log, id)| >= 2)
                  && (b == Active || b == Probation))
            && (a == Probation ==>
                  (b == Active <==> download || score >= 0.70)
                  && (b == Dormant <==> !download && score < 0.15 && |FailuresSinceSuccess(log, id)| >= 3)
                  && (b == Active || b == Dormant || b == Probation))
            && (a == Dormant ==>
                  (b == Active <==> download)
                  && (b == Probation <==> !download && tr[i].step.outcome == Success && score >= 0.70)
                  && (b == Active || b == Probation || b == Dormant))
            && (a == Retired ==> b == Retired))
      && (a == Invalid ==> b == Invalid)
  {
    hide Next, RowStep, State, FailuresSinceSuccess, NewRunsSinceSuccess, Fresh;
    HistoryRowWise(cfg, tr, i);
    HistoryRefines(cfg, tr, i, id);
    ColumnsAfterProbe(cfg, tr, i + 1, id);
  }

  // ---- The score a move is decided on ----

  /** A recorded probe stores the score of the node's evidence at that moment. */
  lemma StoredScoreIsCurrent(cfg: Config, tr: seq<Timed>, i: nat, id: NodeId)
    requires i < |tr| && id in State(cfg, tr, i).nodes
    requires tr[i].step.Probe? && tr[i].step.id == id && Fresh(State(cfg, tr, i), tr[i].step)
    ensures id in State(cfg, tr, i + 1).nodes
    ensures State(cfg, tr, i + 1).log == State(cfg, tr, i).log + [EventOf(tr[i].step, tr[i].now)]
    ensures State(cfg, tr, i + 1).nodes[id].score == ScoreAt(cfg.half, State(cfg, tr, i + 1).log, id, tr[i].now)
  {
    hide Next, RowStep, Fresh, WindowEvents, Alpha, Beta, Score;
    HistoryRowWise(cfg, tr, i);
    ProbeStoresScore(cfg, State(cfg, tr, i), tr[i]);
  }

  lemma ProbeStoresScore(cfg: Config, db: Db, t: Timed)
    requires t.step.Probe? && Fresh(db, t.step)
    ensures LogStep(db, t) == db.log + [EventOf(t.step, t.now)]
    ensures RowStep(cfg, db, t, t.step.id).score == ScoreAt(cfg.half, LogStep(db, t), t.step.id, t.now)
  {
    hide WindowEvents, Alpha, Beta, Score, NextTestAt, NextLifecycle;
  }

  /** While the window is open, a recorded failure stores a score no higher than the node's evidence gave
      just before it, a recorded success one no lower. */
  lemma RecordedObservationMovesScore(cfg: Config, tr: seq<Timed>, i: nat, id: NodeId)
    requires i < |tr| && cfg.Valid() && id in State(cfg, tr, i).nodes
    requires tr[i].step.Probe? && tr[i].step.id == id && Fresh(State(cfg, tr, i), tr[i].step)
    requires OpenAt(State(cfg, tr, i + 1).log, id, tr[i].now)
    ensures id in State(cfg, tr, i + 1).nodes
    ensures var before := ScoreAt(cfg.half, State(cfg, tr, i).log, id, tr[i].now);
      var stored := State(cfg, tr, i + 1).nodes[id].score;
      && (tr[i].step.outcome != Success ==> stored <= before)
      && (tr[i].step.outcome == Success ==> stored >= before)
  {
    hide Next, State, Fresh, ScoreAt, OpenAt;
    StoredScoreIsCurrent(cfg, tr, i, id);
    var e := EventOf(tr[i].step, tr[i].now);
    if tr[i].step.outcome != Success {
      FailureLowersScore(cfg.half, State(cfg, tr, i).log, e, tr[i].now);
    } else {
      SuccessRaisesScore(cfg.half, State(cfg, tr, i).log, e, tr[i].now);
    }
  }

  lemma {:induction false} NoSuccessNoCredit(half: real -> real, log: Log, w: set<nat>, now: int)
    requires HalvingLaw(half) && forall i: nat :: i < |log| && i in w ==> log[i].outcome != Success
    ensures Weight(half, true, now, Pick(log, w)) == 0.0
  {
    hide Part;
    if |log| == 0 {
      WeightSingle(half, true, now, TestEvent(0, "", Static, Success, false, 0));
    } else {
      var n := |log| - 1;
      assert forall i: nat :: i < n ==> log[..n][i] == log[i];
      NoSuccessNoCredit(half, log[..n], w, now);
      WeightSingle(half, true, now, log[n]);
      PartSigns(half, log[n], now);
      WeightAppend(half, true, now, Pick(log[..n], w), if n in w then [log[n]] else []);
    }
  }

  ghost predicate NeverSucceeded(log: Log, id: NodeId) {
    forall k: nat :: !SucceededAt(log, id, k)
  }

  lemma NoSuccessLowScore(half: real -> real, log: Log, id: NodeId, now: int)
    requires HalvingLaw(half) && NeverSucceeded(log, id)
    ensures ScoreAt(half, log, id, now) <= 0.5
  {
    forall i: nat | i < |log| && i in Window(log, id, now)
      ensures log[i].outcome != Success
    {
      assert !SucceededAt(log, id, i);
    }
    hide Window, Weight, Pick;
    NoSuccessNoCredit(half, log, Window(log, id, now), now);
    ScoreFromWeights(half, log, id, now);
    HalfAtMost(BetaAt(half, log, id, now));
  }

  lemma HalfAtMost(b: real)
    requires b >= 1.0
    ensures Score(1.0, b) <= 0.5
  {
    InUnit(1.0, b);
    var r := 1.0 / (1.0 + b);
    assert r * (1.0 + b) == 1.0;
    assert r > 0.5 ==> r * (1.0 + b) > 0.5 * (1.0 + b);
  }

  /** Failures alone never promote a row: without a logged success PROBATION does not become ACTIVE. */
  lemma FailuresNeverPromote(cfg: Config, tr: seq<Timed>, i: nat, id: NodeId)
    requires i < |tr| && cfg.Valid() && DisciplinedRun(cfg, tr) && id in State(cfg, tr, i).nodes
    requires tr[i].step.Probe? && tr[i].step.id == id && Fresh(State(cfg, tr, i), tr[i].step)
    requires NeverSucceeded(State(cfg, tr, i + 1).log, id)
    requires Origin(State(cfg, tr, i).nodes[id]) == Probation
    ensures id in State(cfg, tr, i + 1).nodes && Origin(State(cfg, tr, i + 1).nodes[id]) != Active
  {
    hide Next, State, Fresh, ScoreAt, FailuresSinceSuccess, NewRunsSinceSuccess;
    StoredScoreIsCurrent(cfg, tr, i, id);
    MovesOfHistory(cfg, tr, i, id);
    NoSuccessLowScore(cfg.half, State(cfg, tr, i + 1).log, id, tr[i].now);
    LastIsLogged(State(cfg, tr, i).log, EventOf(tr[i].step, tr[i].now), id);
  }

  lemma LastIsLogged(log: Log, e: TestEvent, id: NodeId)
    requires e.id == id
    ensures e.outcome == Success ==> SucceededAt(log + [e], id, |log|)
  {
  }

  // ---- When a row is tested next ----

  lemma ProbeSetsNextTest(cfg: Config, log: Log, n: Node, e: TestEvent, draw: nat)
    ensures var after := ProbedRow(cfg, log, n, e, draw);
      && after.lastTestAt == Some(e.at)
      && (e.outcome == Success ==>
            after.nextTestAt == e.at + (if after.lifecycle == Active then
                                          (if e.stage == Download then cfg.downloadInterval else cfg.relayInterval)
                                        else if after.lifecycle == Probation then 15 * MINUTE
                                        else if after.lifecycle == Dormant then 6 * HOUR
                                        else 5 * MINUTE))
      && (e.outcome == LocalOverload || e.outcome == EndpointFailure ==> after.nextTestAt == e.at + 2 * MINUTE)
      && (FailureOf(e, e.id) ==>
            && after.nextTestAt == e.at + JitterDelay(JitterCeiling(after.failureStreak, n.lastDownloadAt.Some?,
                                                                    after.lifecycle == Dormant, e.outcome), draw)
            && e.at <= after.nextTestAt <= e.at + 24 * HOUR
            && (n.lastDownloadAt.Some? && after.lifecycle != Dormant ==> after.nextTestAt <= e.at + 6 * HOUR))
  {
    hide WindowEvents, Alpha, Beta, Score, JitterCeiling, FailureStreak;
    var input := InputFor(cfg, log, n, e);
    if FailureOf(e, e.id) {
      RetryIsBounded(input, draw);
    }
  }

  /** In every history a recorded probe sets the next test by what it found: the intervals of an ACTIVE row,
      a quarter of an hour in PROBATION, six hours when DORMANT, two minutes after an inconclusive observation,
      and after a failure full jitter under the ceiling of the failures it leaves on record. */
  lemma NextTestOfHistory(cfg: Config, tr: seq<Timed>, i: nat, id: NodeId)
    requires i < |tr| && id in State(cfg, tr, i).nodes
    requires tr[i].step.Probe? && tr[i].step.id == id && Fresh(State(cfg, tr, i), tr[i].step)
    ensures id in State(cfg, tr, i + 1).nodes
    ensures var n, after, now := State(cfg, tr, i).nodes[id], State(cfg, tr, i + 1).nodes[id], tr[i].now;
      && after.lastTestAt == Some(now)
      && (tr[i].step.outcome == Success ==>
            after.nextTestAt == now + (if after.lifecycle == Active then
                                         (if tr[i].step.stage == Download then cfg.downloadInterval
                                          else cfg.relayInterval)
                                       else if after.lifecycle == Probation then 15 * MINUTE
                                       else if after.lifecycle == Dormant then 6 * HOUR
                                       else 5 * MINUTE))
      && (tr[i].step.outcome == LocalOverload || tr[i].step.outcome == EndpointFailure ==>
            after.nextTestAt == now + 2 * MINUTE)
      && (tr[i].step.outcome !in {Success, LocalOverload, EndpointFailure} ==>
            && after.nextTestAt == now + JitterDelay(JitterCeiling(after.failureStreak, n.lastDownloadAt.Some?,
                                                                   after.lifecycle == Dormant, tr[i].step.outcome),
                                                     tr[i].step.draw)
            && now <= after.nextTestAt <= now + 24 * HOUR
            && (n.lastDownloadAt.Some? && after.lifecycle != Dormant ==> after.nextTestAt <= now + 6 * HOUR))
  {
    hide Next, State, ProbedRow, Logged;
    HistoryRowWise(cfg, tr, i);
    var db, e := State(cfg, tr, i), EventOf(tr[i].step, tr[i].now);
    assert RowStep(cfg, db, tr[i], id) == ProbedRow(cfg, db.log + [e], db.nodes[id], e, tr[i].step.draw);
    ProbeSetsNextTest(cfg, db.log + [e], db.nodes[id], e, tr[i].step.draw);
  }
}
