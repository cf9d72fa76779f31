/** Exactly when a node that its sources no longer list is retired, and when it is forgotten. */
module Retirement {
  import opened Domain
  import opened Evidence
  import opened Database
  import opened Ledgers
  import opened Lifecycle
  import opened Publication
  import opened Reconciliation
  import opened AntiFlapping

  /** Step `e` brings the row into the store. */
  ghost predicate EntersAt(cfg: Config, tr: seq<Timed>, e: nat, id: NodeId) {
    e < |tr| && id !in State(cfg, tr, e).nodes && id in State(cfg, tr, e + 1).nodes
  }

  lemma EntersOnce(cfg: Config, tr: seq<Timed>, e: nat, f: nat, id: NodeId)
    requires EntersAt(cfg, tr, e, id) && EntersAt(cfg, tr, f, id)
    ensures e == f
  {
    hide State;
    if e < f {
      RowSurvives(cfg, tr, e + 1, f, id);
    } else if f < e {
      RowSurvives(cfg, tr, f + 1, e, id);
    }
  }

  lemma StepKeepsCreation(cfg: Config, db: Db, t: Timed, id: NodeId)
    requires id in db.nodes
    ensures RowStep(cfg, db, t, id).createdAt == db.nodes[id].createdAt
  {
    hide InputFor, Logged, EarlierGens, HashesAt, IsManual;
  }

  /** The creation column holds the time at which the row entered. */
  lemma {:induction false} CreatedWhenEntered(cfg: Config, tr: seq<Timed>, i: nat, id: NodeId)
    requires i <= |tr| && id in State(cfg, tr, i).nodes
    ensures exists e: nat :: e < i && EntersAt(cfg, tr, e, id) && State(cfg, tr, i).nodes[id].createdAt == tr[e].now
  {
    hide Next, RowStep;
    HistoryRowWise(cfg, tr, i - 1);
    if id in State(cfg, tr, i - 1).nodes {
      CreatedWhenEntered(cfg, tr, i - 1, id);
      StepKeepsCreation(cfg, State(cfg, tr, i - 1), tr[i - 1], id);
    } else {
      assert EntersAt(cfg, tr, i - 1, id);
    }
  }

  lemma OneLastSighting(cfg: Config, tr: seq<Timed>, j: nat, k: nat, i: nat, h: Hash)
    requires i <= |tr| && LastSighting(cfg, tr, j, i, h) && LastSighting(cfg, tr, k, i, h)
    ensures j == k
  {
    hide State, Sees;
  }

  lemma LeaseCovers(cfg: Config, tr: seq<Timed>, i: nat, id: NodeId, clock: int)
    requires i <= |tr| && id in State(cfg, tr, i).nodes
    ensures Expired(State(cfg, tr, i).nodes[id].lease, clock) <==> !Covered(State(cfg, tr, i).log, id, clock)
  {
    hide Next, State;
    RowsFollowTheLog(cfg, tr, i);
    var db := State(cfg, tr, i);
    LeaseIsLatestSuccess(db.log, id);
    assert RowLedger(db.nodes[id]).lease == Replay(db.log, id).lease;
    if Covered(db.log, id, clock) {
      var k :| 0 <= k < |db.log| && SuccessOf(db.log[k], id) && LeaseEnd(db.log[k]) > clock;
      assert LeaseEnd(db.log[k]) <= db.nodes[id].lease.value;
    }
  }

  lemma FinishRetiresIff(cfg: Config, db: Db, t: Timed, id: NodeId)
    requires id in db.nodes && t.step.FinishRefresh?
    requires t.step.sourceCount > 0 && t.step.successful == t.step.sourceCount
    ensures var n, n' := db.nodes[id], RowStep(cfg, db, t, id);
      n'.lifecycle == Retired <==>
        n.lifecycle == Retired
        || (n.lifecycle != Invalid && n'.missing >= Max(3, cfg.prune) && n.createdAt <= t.now - 12 * HOUR
            && (n.lease.None? || n.lease.value <= t.now))
  {
    hide IsManual;
  }

  /** What has to hold of a missing node for a refresh to retire it. */
  ghost predicate DueForRetirement(cfg: Config, tr: seq<Timed>, i: nat, id: NodeId)
    requires i < |tr| && id in State(cfg, tr, i).nodes
  {
    var n := State(cfg, tr, i).nodes[id];
    && n.lifecycle != Invalid && n.lifecycle != Retired
    // missed by at least max(3, configured) complete refreshes, this one included
    && !IsManual(n.sources)
    && (exists j: nat :: LastSighting(cfg, tr, j, i + 1, n.hash)
          && |Absences(tr, j, i + 1, SeenGen(tr[j]))| >= Max(3, cfg.prune))
    // known for twelve hours
    && (exists e: nat :: EntersAt(cfg, tr, e, id) && tr[e].now <= tr[i].now - 12 * HOUR)
    // and without a success that still counts
    && !Covered(State(cfg, tr, i).log, id, tr[i].now)
  }

  lemma MissedEnough(cfg: Config, tr: seq<Timed>, i: nat, id: NodeId)
    requires i < |tr| && id in State(cfg, tr, i).nodes && id in State(cfg, tr, i + 1).nodes
    requires tr[i].step.FinishRefresh?
    ensures var n, n' := State(cfg, tr, i).nodes[id], State(cfg, tr, i + 1).nodes[id];
      n'.missing >= Max(3, cfg.prune) <==>
        !IsManual(n.sources)
        && exists j: nat :: LastSighting(cfg, tr, j, i + 1, n.hash)
             && |Absences(tr, j, i + 1, SeenGen(tr[j]))| >= Max(3, cfg.prune)
  {
    hide Next, RowStep, State, IsManual, Absences, Sees;
    var n, n' := State(cfg, tr, i).nodes[id], State(cfg, tr, i + 1).nodes[id];
    HistoryRowWise(cfg, tr, i);
    FinishKeepsIdentity(cfg, State(cfg, tr, i), tr[i], id);
    if IsManual(n'.sources) {
      ManualNeverMisses(cfg, tr, i + 1, id);
    } else {
      MissingCountsCompleteAbsences(cfg, tr, i + 1, id);
      var j: nat :| Explained(cfg, tr, i + 1, n', j);
      var next := i + 1;
      forall k: nat | LastSighting(cfg, tr, k, next, n.hash)
        ensures k == j
      {
        OneLastSighting(cfg, tr, j, k, next, n.hash);
      }
    }
  }

  lemma FinishKeepsIdentity(cfg: Config, db: Db, t: Timed, id: NodeId)
    requires id in db.nodes && t.step.FinishRefresh?
    ensures var n, n' := db.nodes[id], RowStep(cfg, db, t, id); n'.hash == n.hash && n'.sources == n.sources
  {
    hide IsManual;
  }

  /** A refresh turns a row RETIRED if and only if it is complete and the row is due. */
  lemma RetiresIff(cfg: Config, tr: seq<Timed>, i: nat, id: NodeId)
    requires i < |tr| && id in State(cfg, tr, i).nodes
    ensures Retires(cfg, tr, i, id) <==>
              tr[i].step.FinishRefresh? && tr[i].step.sourceCount > 0 && tr[i].step.successful == tr[i].step.sourceCount
              && DueForRetirement(cfg, tr, i, id)
  {
    hide Next, RowStep, State, IsManual, Absences, LastSighting, Covered, EntersAt;
    HistoryRowWise(cfg, tr, i);
    RowsAreShaped(cfg, tr, i);
    var db, t := State(cfg, tr, i), tr[i];
    if t.step.FinishRefresh? && t.step.sourceCount > 0 && t.step.successful == t.step.sourceCount {
      FinishRetiresIff(cfg, db, t, id);
      MissedEnough(cfg, tr, i, id);
      LeaseCovers(cfg, tr, i, id, t.now);
      CreatedWhenEntered(cfg, tr, i, id);
      var e: nat :| e < i && EntersAt(cfg, tr, e, id) && db.nodes[id].createdAt == tr[e].now;
      forall f: nat | EntersAt(cfg, tr, f, id)
        ensures f == e
      {
        EntersOnce(cfg, tr, e, f, id);
      }
    } else if Retires(cfg, tr, i, id) {
      RetirementNeedsCompleteAbsences(cfg, tr, i, id);
    }
  }

  // ---- The tombstone ----

  /** The step neither revives, invalidates nor parks the retired row. */
  predicate LeavesRetired(t: Timed, id: NodeId, h: Hash) {
    && !(t.step.Ingest? && t.step.proxy.hash == h)
    && !(t.step.Probe? && t.step.id == id && t.step.outcome == InvalidConfig)
    && !(t.step.Wait? && t.step.id == id)
  }

  lemma ProbeOfRetired(cfg: Config, log: Log, n: Node, e: TestEvent, draw: nat)
    requires n.lifecycle == Retired && e.outcome != InvalidConfig
    ensures var after := ProbedRow(cfg, log, n, e, draw);
      after.lifecycle == Retired && after.tombstoneUntil == n.tombstoneUntil && after.hash == n.hash
  {
    hide WindowEvents;
  }

  lemma RetiredStep(cfg: Config, db: Db, t: Timed, id: NodeId)
    requires id in db.nodes && db.nodes[id].lifecycle == Retired && LeavesRetired(t, id, db.nodes[id].hash)
    ensures var n, n' := db.nodes[id], RowStep(cfg, db, t, id);
      n'.lifecycle == Retired && n'.tombstoneUntil == n.tombstoneUntil && n'.hash == n.hash
  {
    hide ProbedRow, Logged, EarlierGens, HashesAt, IsManual;
    if t.step.Probe? && t.step.id == id && Fresh(db, t.step) {
      ProbeOfRetired(cfg, LogStep(db, t), db.nodes[id], EventOf(t.step, t.now), t.step.draw);
    }
  }

  lemma RetiredGetsTombstone(cfg: Config, db: Db, t: Timed, id: NodeId)
    requires id in db.nodes && t.step.FinishRefresh? && db.nodes[id].lifecycle != Retired
    requires RowStep(cfg, db, t, id).lifecycle == Retired
    ensures RowStep(cfg, db, t, id).tombstoneUntil == Some(t.now + 30 * DAY)
  {
    hide IsManual;
  }

  /** Since the row was retired at step `i`, nothing has revived, invalidated, parked or deleted it before step `k`. */
  ghost predicate StillBuried(cfg: Config, tr: seq<Timed>, i: nat, k: nat, id: NodeId)
    requires i < k <= |tr| && Retires(cfg, tr, i, id)
  {
    forall m :: i < m < k ==>
      && LeavesRetired(tr[m], id, State(cfg, tr, i + 1).nodes[id].hash)
      && !(tr[m].step.CleanupRetired? && tr[m].now >= tr[i].now + 30 * DAY)
  }

  lemma {:induction false} TombstoneStands(cfg: Config, tr: seq<Timed>, i: nat, k: nat, id: NodeId)
    requires i < k <= |tr| && Retires(cfg, tr, i, id) && StillBuried(cfg, tr, i, k, id)
    ensures id in State(cfg, tr, k).nodes && State(cfg, tr, k).nodes[id].lifecycle == Retired
    ensures State(cfg, tr, k).nodes[id].tombstoneUntil == Some(tr[i].now + 30 * DAY)
    ensures State(cfg, tr, k).nodes[id].hash == State(cfg, tr, i + 1).nodes[id].hash
  {
    hide Next, RowStep, State, LeavesRetired;
    if k == i + 1 {
      HistoryRowWise(cfg, tr, i);
      RetirementNeedsCompleteAbsences(cfg, tr, i, id);
      RetiredGetsTombstone(cfg, State(cfg, tr, i), tr[i], id);
    } else {
      TombstoneStands(cfg, tr, i, k - 1, id);
      HistoryRowWise(cfg, tr, k - 1);
      RetiredStep(cfg, State(cfg, tr, k - 1), tr[k - 1], id);
    }
  }

  /** A retired node that is not served again is deleted by the first cleanup thirty days after its
      retirement, and by no earlier one. */
  lemma ForgottenAfterThirtyDays(cfg: Config, tr: seq<Timed>, i: nat, k: nat, id: NodeId)
    requires i < k < |tr| && Retires(cfg, tr, i, id) && StillBuried(cfg, tr, i, k, id)
    ensures id in State(cfg, tr, k).nodes
    ensures id !in State(cfg, tr, k + 1).nodes <==> tr[k].step.CleanupRetired? && tr[k].now >= tr[i].now + 30 * DAY
  {
    hide Next, RowStep, State;
    TombstoneStands(cfg, tr, i, k, id);
    HistoryRowWise(cfg, tr, k);
  }
}
