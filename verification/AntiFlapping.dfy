/** ACTIVE nodes are demoted slowly and only on independent evidence. */
module AntiFlapping {
  import opened Domain
  import opened Health
  import opened Evidence
  import opened Database
  import opened Ledgers
  import opened Lifecycle

  ghost predicate MonotoneClock(tr: seq<Timed>) {
    forall i, j :: 0 <= i <= j < |tr| ==> tr[i].now <= tr[j].now
  }

  predicate IsActive(n: Node) {
    Origin(n).Active?
  }

  /** Step `i` moves the node from ACTIVE to PROBATION. */
  ghost predicate Demotes(cfg: Config, tr: seq<Timed>, i: nat, id: NodeId) {
    && i < |tr|
    && id in State(cfg, tr, i).nodes && IsActive(State(cfg, tr, i).nodes[id])
    && id in State(cfg, tr, i + 1).nodes && Origin(State(cfg, tr, i + 1).nodes[id]).Probation?
  }

  lemma ProbeDemotion(cfg: Config, log: Log, n: Node, e: TestEvent, draw: nat)
    requires Shaped(n) && IsActive(n)
    ensures var n' := ProbedRow(cfg, log, n, e, draw);
      && (Origin(n').Probation? ==>
            n.activatedAt.Some? && e.at - n.activatedAt.value >= cfg.minResidence
            && n'.score < 0.35 && n'.independentFailures >= 2)
      && (IsActive(n') ==> n'.activatedAt == n.activatedAt || n'.activatedAt == Some(e.at))
  {
    hide WindowEvents, Alpha, Beta, Score, NextTestAt;
  }

  lemma ProbeActivation(cfg: Config, log: Log, n: Node, e: TestEvent, draw: nat)
    requires Shaped(n) && !IsActive(n)
    ensures var n' := ProbedRow(cfg, log, n, e, draw); IsActive(n') ==> n'.activatedAt == Some(e.at)
  {
    hide WindowEvents, Alpha, Beta, Score, NextTestAt;
  }

  lemma StepDemotion(cfg: Config, db: Db, t: Timed, id: NodeId)
    requires id in db.nodes && Shaped(db.nodes[id]) && IsActive(db.nodes[id])
    ensures var n, n' := db.nodes[id], RowStep(cfg, db, t, id);
      && (Origin(n').Probation? ==>
            n.activatedAt.Some? && t.now - n.activatedAt.value >= cfg.minResidence
            && n'.score < 0.35 && n'.independentFailures >= 2)
      && (IsActive(n') ==> n'.activatedAt == n.activatedAt || n'.activatedAt == Some(t.now))
  {
    hide ProbedRow, Logged, EarlierGens, HashesAt, IsManual;
    if t.step.Probe? {
      ProbeDemotion(cfg, LogStep(db, t), db.nodes[id], EventOf(t.step, t.now), t.step.draw);
    }
  }

  lemma StepActivation(cfg: Config, db: Db, t: Timed, id: NodeId)
    requires id in db.nodes && Shaped(db.nodes[id]) && !IsActive(db.nodes[id])
    ensures var n' := RowStep(cfg, db, t, id); IsActive(n') ==> n'.activatedAt == Some(t.now)
  {
    hide ProbedRow, Logged, EarlierGens, HashesAt, IsManual;
    if t.step.Probe? {
      ProbeActivation(cfg, LogStep(db, t), db.nodes[id], EventOf(t.step, t.now), t.step.draw);
    }
  }

  /** After a demotion at step `i`, whenever the node is ACTIVE again it was activated no earlier. */
  lemma {:induction false} ReactivatedAfterDemotion(cfg: Config, tr: seq<Timed>, i: nat, k: nat, id: NodeId)
    requires MonotoneClock(tr) && Demotes(cfg, tr, i, id) && i < k <= |tr|
    requires id in State(cfg, tr, k).nodes && IsActive(State(cfg, tr, k).nodes[id])
    ensures State(cfg, tr, k).nodes[id].activatedAt.Some?
    ensures tr[i].now <= State(cfg, tr, k).nodes[id].activatedAt.value
  {
    hide Next, RowStep;
    if i + 1 < k {
      var db, t := State(cfg, tr, k - 1), tr[k - 1];
      HistoryRowWise(cfg, tr, k - 1);
      RowsAreShaped(cfg, tr, k - 1);
      RowSurvives(cfg, tr, i + 1, k - 1, id);
      if IsActive(db.nodes[id]) {
        ReactivatedAfterDemotion(cfg, tr, i, k - 1, id);
        StepDemotion(cfg, db, t, id);
      } else {
        StepActivation(cfg, db, t, id);
      }
    }
  }

  /** A row absent between two points of a history is not there at the second: ids are never reused. */
  lemma {:induction false} RowSurvives(cfg: Config, tr: seq<Timed>, i: nat, k: nat, id: NodeId)
    requires i <= k < |tr|
    requires id in State(cfg, tr, i).nodes && id in State(cfg, tr, k + 1).nodes
    ensures id in State(cfg, tr, k).nodes
  {
    hide Next, RowStep;
    RowsFollowTheLog(cfg, tr, i);
    NextIdGrows(cfg, tr, i, k);
    HistoryRowWise(cfg, tr, k);
  }

  /** Two demotions of one node are at least the residence time apart, which a valid
      configuration keeps between 15 and 30 minutes. */
  lemma DemotionsAreFarApart(cfg: Config, tr: seq<Timed>, i: nat, j: nat, id: NodeId)
    requires MonotoneClock(tr) && i < j && Demotes(cfg, tr, i, id) && Demotes(cfg, tr, j, id)
    ensures tr[j].now - tr[i].now >= cfg.minResidence
    ensures cfg.Valid() ==> tr[j].now - tr[i].now >= 15 * MINUTE
  {
    hide Next, RowStep;
    ReactivatedAfterDemotion(cfg, tr, i, j, id);
    RowsAreShaped(cfg, tr, j);
    HistoryRowWise(cfg, tr, j);
    StepDemotion(cfg, State(cfg, tr, j), tr[j], id);
  }

  /** A demotion happens at a score below 0.35 and after two different runs failed
      conclusively since the node's last success. */
  lemma DemotionHasTwoFailedRuns(cfg: Config, tr: seq<Timed>, i: nat, id: NodeId)
    requires Demotes(cfg, tr, i, id)
    ensures State(cfg, tr, i + 1).nodes[id].score < 0.35
    ensures FailedInTwoRuns(State(cfg, tr, i + 1).log, id)
  {
    hide Next, RowStep;
    RowsAreShaped(cfg, tr, i);
    HistoryRowWise(cfg, tr, i);
    StepDemotion(cfg, State(cfg, tr, i), tr[i], id);
    RowsFollowTheLog(cfg, tr, i + 1);
    assert RowLedger(State(cfg, tr, i + 1).nodes[id]) == Replay(State(cfg, tr, i + 1).log, id);
    IndependentMeansTwoRuns(State(cfg, tr, i + 1).log, id);
  }
}
