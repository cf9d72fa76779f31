/** When the scheduler may take a row, over whole histories: never before its next test is due, and never
    while another test of it is running. */
module Claims {
  import opened Domain
  import opened Database
  import opened Ledgers
  import opened Lifecycle

  /** Step `k` is a claim that takes the row. */
  ghost predicate Takes(cfg: Config, tr: seq<Timed>, k: nat, id: NodeId) {
    && k < |tr| && tr[k].step.Claim? && tr[k].step.id == id
    && id in State(cfg, tr, k).nodes && id in State(cfg, tr, k + 1).nodes
    && State(cfg, tr, k + 1).nodes[id] != State(cfg, tr, k).nodes[id]
  }

  lemma ClaimTakesIff(cfg: Config, db: Db, t: Timed, id: NodeId)
    requires id in db.nodes && t.step.Claim? && t.step.id == id && Shaped(db.nodes[id])
    ensures var n, n', queue := db.nodes[id], RowStep(cfg, db, t, id), t.step.queue;
      && (n' != n <==>
            && (queue == Candidate || queue == Probation || queue == Dormant || queue == Active)
            && (n.lifecycle == queue || (n.lifecycle == WaitingForPort && n.waitingFrom == Some(queue)))
            && n.valid && n.nextTestAt <= t.now
            && (n.testLease.None? || n.testLease.value <= t.now))
      && (n' != n ==> n'.lifecycle == Testing && n'.testingFrom == Some(queue)
                      && n'.testLease == Some(t.now + t.step.leaseFor) && n'.nextTestAt == n.nextTestAt)
  {
    assert ClaimRow(db.nodes[id], t.now + t.step.leaseFor).lifecycle == Testing;
  }

  /** In every history a claim takes exactly a valid row that stands in its queue, or is parked from it, whose
      next test is due and whose last test lease has run out; the row is then under test for the lease. */
  lemma TakenIff(cfg: Config, tr: seq<Timed>, k: nat, id: NodeId)
    requires k < |tr| && tr[k].step.Claim? && tr[k].step.id == id && id in State(cfg, tr, k).nodes
    ensures id in State(cfg, tr, k + 1).nodes
    ensures var n, n' := State(cfg, tr, k).nodes[id], State(cfg, tr, k + 1).nodes[id];
      var queue, now := tr[k].step.queue, tr[k].now;
      && (Takes(cfg, tr, k, id) <==>
            && (queue == Candidate || queue == Probation || queue == Dormant || queue == Active)
            && (n.lifecycle == queue || (n.lifecycle == WaitingForPort && n.waitingFrom == Some(queue)))
            && n.valid && n.nextTestAt <= now
            && (n.testLease.None? || n.testLease.value <= now))
      && (Takes(cfg, tr, k, id) ==>
            n'.lifecycle == Testing && n'.testingFrom == Some(queue) && n'.testLease == Some(now + tr[k].step.leaseFor))
  {
    hide Next, RowStep, State;
    HistoryRowWise(cfg, tr, k);
    RowsAreShaped(cfg, tr, k);
    ClaimTakesIff(cfg, State(cfg, tr, k), tr[k], id);
  }

  // ---- The next test ----

  /** The step sets the time of the row's next test: a recorded probe, a port wait, a manual test, a revival,
      or an ingest that revives the row. */
  predicate Reschedules(db: Db, t: Timed, id: NodeId)
    requires id in db.nodes
  {
    var n := db.nodes[id];
    match t.step
    case Probe(i, _, _, _, _, _) => i == id && Fresh(db, t.step)
    case Wait(i, _) => i == id && n.valid
    case ScheduleManualTest(i) => i == id && n.lifecycle != Testing
    case ReviveNode(i) =>
      i == id && n.valid && (n.lifecycle == Dormant || n.lifecycle == Probation || n.lifecycle == Candidate)
    case ReviveDormant => n.valid && n.lifecycle == Dormant
    case Ingest(p, _) => p.hash == n.hash && n.lifecycle == Retired
    case _ => false
  }

  lemma OthersKeepNextTest(cfg: Config, db: Db, t: Timed, id: NodeId)
    requires id in db.nodes && !Reschedules(db, t, id)
    ensures RowStep(cfg, db, t, id).nextTestAt == db.nodes[id].nextTestAt
  {
    hide ProbedRow, Logged, EarlierGens, HashesAt, IsManual;
  }

  /** No step from `i` on, before `k`, sets the time of the row's next test. */
  ghost predicate NotRescheduled(cfg: Config, tr: seq<Timed>, i: nat, k: nat, id: NodeId)
    requires i <= k <= |tr|
  {
    forall m :: i <= m < k ==> id in State(cfg, tr, m).nodes && !Reschedules(State(cfg, tr, m), tr[m], id)
  }

  lemma {:induction false} NextTestKept(cfg: Config, tr: seq<Timed>, i: nat, k: nat, id: NodeId)
    requires i <= k <= |tr| && id in State(cfg, tr, i).nodes && id in State(cfg, tr, k).nodes
    requires NotRescheduled(cfg, tr, i, k, id)
    ensures State(cfg, tr, k).nodes[id].nextTestAt == State(cfg, tr, i).nodes[id].nextTestAt
  {
    hide Next, RowStep, Reschedules;
    if i < k {
      NextTestKept(cfg, tr, i, k - 1, id);
      HistoryRowWise(cfg, tr, k - 1);
      OthersKeepNextTest(cfg, State(cfg, tr, k - 1), tr[k - 1], id);
    }
  }

  /** Whatever time a probe, a wait or anything else has set for the next test, no claim takes the row
      before it, unless something sets another one in between. */
  lemma NotTakenBeforeNextTest(cfg: Config, tr: seq<Timed>, i: nat, k: nat, id: NodeId)
    requires i <= k < |tr| && id in State(cfg, tr, i).nodes && NotRescheduled(cfg, tr, i, k, id)
    requires tr[k].now < State(cfg, tr, i).nodes[id].nextTestAt
    ensures !Takes(cfg, tr, k, id)
  {
    hide Next, RowStep, State, Reschedules;
    if Takes(cfg, tr, k, id) {
      NextTestKept(cfg, tr, i, k, id);
      TakenIff(cfg, tr, k, id);
      assert false;
    }
  }

  // ---- The test lease ----

  /** The step ends the row's test: a recorded probe, a release, a port wait or a revival. */
  predicate EndsTest(db: Db, t: Timed, id: NodeId)
    requires id in db.nodes
  {
    var n := db.nodes[id];
    match t.step
    case Probe(i, _, _, _, _, _) => i == id && Fresh(db, t.step)
    case Wait(i, _) => i == id && n.valid
    case Release(i) => i == id && n.lifecycle == Testing
    case ReviveNode(i) =>
      i == id && n.valid && (n.lifecycle == Dormant || n.lifecycle == Probation || n.lifecycle == Candidate)
    case _ => false
  }

  lemma OthersKeepLease(cfg: Config, db: Db, t: Timed, id: NodeId)
    requires id in db.nodes && !EndsTest(db, t, id)
    requires db.nodes[id].testLease.Some? && t.now < db.nodes[id].testLease.value
    ensures RowStep(cfg, db, t, id).testLease == db.nodes[id].testLease
  {
    hide ProbedRow, Logged, EarlierGens, HashesAt, IsManual;
  }

  lemma {:induction false} LeaseKept(cfg: Config, tr: seq<Timed>, i: nat, k: nat, id: NodeId)
    requires Takes(cfg, tr, i, id) && i < k <= |tr|
    requires forall m :: i < m < k ==>
               id in State(cfg, tr, m).nodes && !EndsTest(State(cfg, tr, m), tr[m], id)
               && tr[m].now < tr[i].now + tr[i].step.leaseFor
    requires id in State(cfg, tr, k).nodes
    ensures State(cfg, tr, k).nodes[id].testLease == Some(tr[i].now + tr[i].step.leaseFor)
  {
    hide Next, RowStep, State, EndsTest;
    if k == i + 1 {
      TakenIff(cfg, tr, i, id);
    } else {
      LeaseKept(cfg, tr, i, k - 1, id);
      HistoryRowWise(cfg, tr, k - 1);
      OthersKeepLease(cfg, State(cfg, tr, k - 1), tr[k - 1], id);
    }
  }

  /** Two claims of one row are at least a lease apart, unless its test has ended in between. */
  lemma ClaimsAreALeaseApart(cfg: Config, tr: seq<Timed>, i: nat, k: nat, id: NodeId)
    requires Takes(cfg, tr, i, id) && Takes(cfg, tr, k, id) && i < k
    requires forall m :: i < m < k ==>
               id in State(cfg, tr, m).nodes && !EndsTest(State(cfg, tr, m), tr[m], id) && tr[m].now <= tr[k].now
    ensures tr[k].now >= tr[i].now + tr[i].step.leaseFor
  {
    hide Next, RowStep, State, EndsTest;
    if tr[k].now < tr[i].now + tr[i].step.leaseFor {
      LeaseKept(cfg, tr, i, k, id);
      TakenIff(cfg, tr, k, id);
      assert false;
    }
  }
}
