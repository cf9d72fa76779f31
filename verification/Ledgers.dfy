/** Every counter, lease and timestamp a probe maintains is a function of the
    append-only event log: the row can be rebuilt from the log alone. */
module Ledgers {
  import opened Domain
  import opened Health
  import opened Evidence
  import opened Database

  datatype Ledger = Ledger(
    streak: nat,
    independent: nat,
    lastRun: Option<RunId>,
    lease: Option<int>,
    lastSuccess: Option<int>,
    lastDownload: Option<int>)

  const BLANK: Ledger := Ledger(0, 0, None, None, None, None)

  function RowLedger(n: Node): Ledger {
    Ledger(n.failureStreak, n.independentFailures, n.lastFailureRun, n.lease, n.lastSuccessAt, n.lastDownloadAt)
  }

  /** When the lease earned by a success runs out. */
  function LeaseEnd(e: TestEvent): int {
    e.at + LeaseDuration(e.stage, e.fast)
  }

  function Record(l: Ledger, e: TestEvent): Ledger {
    if e.outcome.Success? then
      Ledger(0, 0, l.lastRun, JoinLease(l.lease, Some(LeaseEnd(e))), Some(e.at),
             if e.stage.Download? then Some(e.at) else l.lastDownload)
    else if e.outcome.Failed() then
      l.(streak := SaturatingSucc(l.streak),
         independent := if l.lastRun == Some(e.run) then l.independent else SaturatingSucc(l.independent),
         lastRun := Some(e.run))
    else l
  }

  function Replay(log: Log, id: NodeId): Ledger {
    if |log| == 0 then BLANK
    else
      var n := |log| - 1;
      var before := Replay(log[..n], id);
      if log[n].id == id then Record(before, log[n]) else before
  }

  lemma ReplayAppend(log: Log, e: TestEvent, id: NodeId)
    ensures Replay(log + [e], id) == if e.id == id then Record(Replay(log, id), e) else Replay(log, id)
  {
    assert (log + [e])[..|log|] == log;
  }

  lemma {:induction false} ReplayUnknown(log: Log, id: NodeId)
    requires forall i :: 0 <= i < |log| ==> log[i].id != id
    ensures Replay(log, id) == BLANK
  {
    if |log| > 0 {
      ReplayUnknown(log[..|log| - 1], id);
    }
  }

  /** A probe moves the row exactly as it extends the ledger. */
  lemma ProbeRecords(cfg: Config, log: Log, n: Node, e: TestEvent, draw: nat)
    ensures RowLedger(ProbedRow(cfg, log, n, e, draw)) == Record(RowLedger(n), e)
  {
  }

  lemma OtherStepsKeepLedger(cfg: Config, db: Db, t: Timed, id: NodeId)
    requires id in db.nodes
    requires !(t.step.Probe? && t.step.id == id && Fresh(db, t.step))
    ensures RowLedger(RowStep(cfg, db, t, id)) == RowLedger(db.nodes[id])
  {
  }

  ghost predicate Rebuildable(db: Db) {
    forall id :: id in db.nodes ==> RowLedger(db.nodes[id]) == Replay(db.log, id)
  }

  lemma StepRebuildable(cfg: Config, db: Db, t: Timed)
    requires IdsBelow(db) && Rebuildable(db)
    ensures IdsBelow(Next(cfg, db, t)) && Rebuildable(Next(cfg, db, t))
  {
    NextRowWise(cfg, db, t);
    var db' := Next(cfg, db, t);
    forall id | id in db'.nodes
      ensures RowLedger(db'.nodes[id]) == Replay(db'.log, id)
    {
      if t.step.Probe? && Fresh(db, t.step) {
        ReplayAppend(db.log, EventOf(t.step, t.now), id);
      }
      if id !in db.nodes {
        ReplayUnknown(db.log, id);
      } else if t.step.Probe? && t.step.id == id && Fresh(db, t.step) {
        ProbeRecords(cfg, db'.log, db.nodes[id], EventOf(t.step, t.now), t.step.draw);
      } else {
        OtherStepsKeepLedger(cfg, db, t, id);
      }
    }
  }

  /** In every history, every row equals the replay of its own events. */
  lemma {:induction false} RowsFollowTheLog(cfg: Config, tr: seq<Timed>, i: nat)
    requires i <= |tr|
    ensures IdsBelow(State(cfg, tr, i)) && Rebuildable(State(cfg, tr, i))
  {
    if i > 0 {
      RowsFollowTheLog(cfg, tr, i - 1);
      StepRebuildable(cfg, State(cfg, tr, i - 1), tr[i - 1]);
    }
  }

  /** In every history, every step moves the tables row by row. */
  lemma HistoryRowWise(cfg: Config, tr: seq<Timed>, i: nat)
    requires i < |tr|
    ensures RowWise(cfg, State(cfg, tr, i), tr[i], State(cfg, tr, i + 1))
  {
    RowsFollowTheLog(cfg, tr, i);
    NextRowWise(cfg, State(cfg, tr, i), tr[i]);
  }

  lemma {:induction false} NextIdGrows(cfg: Config, tr: seq<Timed>, i: nat, k: nat)
    requires i <= k <= |tr|
    ensures State(cfg, tr, i).nextId <= State(cfg, tr, k).nextId
  {
    hide Next, RowStep;
    if i < k {
      NextIdGrows(cfg, tr, i, k - 1);
      HistoryRowWise(cfg, tr, k - 1);
    }
  }

  // ---- What a ledger says about the log ----

  predicate SuccessOf(e: TestEvent, id: NodeId) {
    e.id == id && e.outcome.Success?
  }

  predicate FailureOf(e: TestEvent, id: NodeId) {
    e.id == id && e.outcome.Failed()
  }

  /** The lease is the latest end over all logged successes of the node. */
  lemma {:induction false} LeaseIsLatestSuccess(log: Log, id: NodeId)
    ensures forall i :: 0 <= i < |log| && SuccessOf(log[i], id) ==>
              Replay(log, id).lease.Some? && LeaseEnd(log[i]) <= Replay(log, id).lease.value
    ensures Replay(log, id).lease.Some? ==>
              exists i :: 0 <= i < |log| && SuccessOf(log[i], id) && LeaseEnd(log[i]) == Replay(log, id).lease.value
  {
    if |log| > 0 {
      var n := |log| - 1;
      var init := log[..n];
      LeaseIsLatestSuccess(init, id);
      assert forall i :: 0 <= i < n ==> init[i] == log[i];
      assert Replay(log, id).lease.Some? ==>
          (SuccessOf(log[n], id) && LeaseEnd(log[n]) == Replay(log, id).lease.value)
          || Replay(log, id).lease == Replay(init, id).lease;
      if Replay(init, id).lease.Some? {
        var i :| 0 <= i < n && SuccessOf(init[i], id) && LeaseEnd(init[i]) == Replay(init, id).lease.value;
        assert log[i] == init[i];
      }
    }
  }

  lemma {:induction false} DownloadIsLogged(log: Log, id: NodeId)
    ensures Replay(log, id).lastDownload.Some? <==>
              exists i :: 0 <= i < |log| && SuccessOf(log[i], id) && log[i].stage.Download?
  {
    if |log| > 0 {
      var n := |log| - 1;
      DownloadIsLogged(log[..n], id);
      assert forall i :: 0 <= i < n ==> log[..n][i] == log[i];
    }
  }

  /** Events `i` and `j` are conclusive failures of two different runs, with no success of the node after `i`. */
  ghost predicate TwoRunsFailed(log: Log, id: NodeId, i: int, j: int) {
    && 0 <= i < |log| && 0 <= j < |log|
    && FailureOf(log[i], id) && FailureOf(log[j], id)
    && log[i].run != log[j].run
    && (forall k :: Min(i, j) <= k < |log| ==> !SuccessOf(log[k], id))
  }

  ghost predicate FailedInTwoRuns(log: Log, id: NodeId) {
    exists i, j :: TwoRunsFailed(log, id, i, j)
  }

  /** The last conclusive failure of the node sits at `k`, with no success after it. */
  ghost predicate FailedLast(log: Log, id: NodeId, run: RunId, k: int) {
    && 0 <= k < |log| && FailureOf(log[k], id) && log[k].run == run
    && (forall m :: k <= m < |log| ==> !SuccessOf(log[m], id))
  }

  lemma {:induction false} PositiveCountHasFailure(log: Log, id: NodeId)
    requires Replay(log, id).independent > 0
    ensures Replay(log, id).lastRun.Some?
    ensures exists k :: FailedLast(log, id, Replay(log, id).lastRun.value, k)
  {
    var n := |log| - 1;
    var init := log[..n];
    assert forall i :: 0 <= i < n ==> init[i] == log[i];
    if FailureOf(log[n], id) {
      assert FailedLast(log, id, log[n].run, n);
    } else {
      PositiveCountHasFailure(init, id);
      var k :| FailedLast(init, id, Replay(init, id).lastRun.value, k);
      assert FailedLast(log, id, Replay(log, id).lastRun.value, k);
    }
  }

  /** A counter of two independent failures is backed by two different failing runs since the last success. */
  lemma {:induction false} IndependentMeansTwoRuns(log: Log, id: NodeId)
    requires Replay(log, id).independent >= 2
    ensures FailedInTwoRuns(log, id)
  {
    var n := |log| - 1;
    var init := log[..n];
    var before := Replay(init, id);
    assert forall i :: 0 <= i < n ==> init[i] == log[i];
    if FailureOf(log[n], id) && before.lastRun != Some(log[n].run) {
      PositiveCountHasFailure(init, id);
      var k :| FailedLast(init, id, before.lastRun.value, k);
      assert TwoRunsFailed(log, id, k, n);
    } else {
      IndependentMeansTwoRuns(init, id);
      var i, j :| TwoRunsFailed(init, id, i, j);
      assert TwoRunsFailed(log, id, i, j);
    }
  }

  /** Inconclusive events leave no trace in the ledger. */
  lemma {:induction false} LedgerIgnoresNoise(log: Log, id: NodeId)
    ensures Replay(Conclusive(log), id) == Replay(log, id)
  {
    if |log| > 0 {
      var n := |log| - 1;
      LedgerIgnoresNoise(log[..n], id);
      if log[n].outcome.Inconclusive() {
        assert Conclusive(log) == Conclusive(log[..n]);
      } else {
        ReplayAppend(Conclusive(log[..n]), log[n], id);
      }
    }
  }

  // ---- The score column ----

  predicate ScoreInRange(n: Node) {
    1.0 / 65.0 <= n.score <= 24.0 / 25.0
  }

  lemma StepScore(cfg: Config, db: Db, t: Timed, id: NodeId)
    requires HalvingLaw(cfg.half) && id in db.nodes && ScoreInRange(db.nodes[id])
    ensures ScoreInRange(RowStep(cfg, db, t, id))
  {
    hide Alpha, Beta, Score, WindowEvents, Logged, NextTestAt, NextLifecycle, EarlierGens, HashesAt, IsManual;
    if t.step.Probe? {
      ScoreBounds(cfg.half, WindowEvents(LogStep(db, t), id, t.now), t.now);
    }
  }

  /** In every history the stored score of every row lies in [1/65, 24/25]. */
  lemma {:induction false} StoredScoresAreBounded(cfg: Config, tr: seq<Timed>, i: nat, id: NodeId)
    requires i <= |tr| && cfg.Valid() && id in State(cfg, tr, i).nodes
    ensures ScoreInRange(State(cfg, tr, i).nodes[id])
  {
    hide Next, RowStep;
    if i > 0 {
      HistoryRowWise(cfg, tr, i - 1);
      if id in State(cfg, tr, i - 1).nodes {
        StoredScoresAreBounded(cfg, tr, i - 1, id);
        StepScore(cfg, State(cfg, tr, i - 1), tr[i - 1], id);
      }
    }
  }
}
