/** Which nodes are in the public feed, and what can take one out. */
module Publication {
  import opened Domain
  import opened Health
  import opened Evidence
  import opened Database
  import opened Ledgers
  import opened Lifecycle

  /** The WHERE clause of the publication snapshot. */
  predicate Published(n: Node, clock: int) {
    n.valid && !Expired(n.lease, clock) && n.lifecycle.Publishable()
  }

  function Snapshot(db: Db, clock: int): set<NodeId> {
    set id | id in db.nodes && Published(db.nodes[id], clock)
  }

  /** Some logged success of the node earns a lease that outlasts `clock`. */
  ghost predicate Covered(log: Log, id: NodeId, clock: int) {
    exists k :: 0 <= k < |log| && SuccessOf(log[k], id) && LeaseEnd(log[k]) > clock
  }

  /** In every history, the snapshot is exactly the rows neither INVALID nor
      RETIRED for which some logged success still covers the clock. */
  lemma SnapshotIffCovered(cfg: Config, tr: seq<Timed>, i: nat, id: NodeId, clock: int)
    requires i <= |tr|
    ensures var db := State(cfg, tr, i);
      id in Snapshot(db, clock) <==>
        id in db.nodes && db.nodes[id].lifecycle.Publishable() && Covered(db.log, id, clock)
  {
    hide Next;
    RowsFollowTheLog(cfg, tr, i);
    RowsAreShaped(cfg, tr, i);
    var db := State(cfg, tr, i);
    if id in db.nodes {
      LeaseIsLatestSuccess(db.log, id);
      assert RowLedger(db.nodes[id]).lease == Replay(db.log, id).lease;
      if Covered(db.log, id, clock) {
        var k :| 0 <= k < |db.log| && SuccessOf(db.log[k], id) && LeaseEnd(db.log[k]) > clock;
        assert LeaseEnd(db.log[k]) <= db.nodes[id].lease.value;
      }
    }
  }

  /** Every published node succeeded within the last twelve hours. */
  lemma PublishedMeansRecentSuccess(cfg: Config, tr: seq<Timed>, i: nat, id: NodeId, clock: int)
    requires i <= |tr| && id in Snapshot(State(cfg, tr, i), clock)
    ensures var log := State(cfg, tr, i).log;
      exists k :: 0 <= k < |log| && SuccessOf(log[k], id) && log[k].at > clock - 12 * HOUR
  {
    hide Next;
    SnapshotIffCovered(cfg, tr, i, id, clock);
    var log := State(cfg, tr, i).log;
    var k :| 0 <= k < |log| && SuccessOf(log[k], id) && LeaseEnd(log[k]) > clock;
    assert log[k].at > clock - 12 * HOUR;
  }

  /** A success that still counts: a fast download for twelve hours, a slower one for six, an HTTP success for
      two, a relay success for half an hour. */
  predicate CountsAt(e: TestEvent, id: NodeId, clock: int) {
    e.id == id && e.outcome == Success
    && (match e.stage
        case Download => e.at > clock - (if e.fast then 12 * HOUR else 6 * HOUR)
        case Http => e.at > clock - 2 * HOUR
        case Relay => e.at > clock - 30 * MINUTE
        case _ => e.at > clock)
  }

  /** In every history a node is in the snapshot exactly when its row is neither INVALID nor RETIRED and one of
      its logged successes still counts. */
  lemma SnapshotByHours(cfg: Config, tr: seq<Timed>, i: nat, id: NodeId, clock: int)
    requires i <= |tr|
    ensures var db := State(cfg, tr, i);
      id in Snapshot(db, clock) <==>
        id in db.nodes && db.nodes[id].lifecycle != Invalid && db.nodes[id].lifecycle != Retired
        && exists k :: 0 <= k < |db.log| && CountsAt(db.log[k], id, clock)
  {
    hide Next, State, Snapshot;
    SnapshotIffCovered(cfg, tr, i, id, clock);
    var log := State(cfg, tr, i).log;
    assert forall k :: 0 <= k < |log| ==>
        (CountsAt(log[k], id, clock) <==> SuccessOf(log[k], id) && LeaseEnd(log[k]) > clock);
  }

  predicate Invalidates(db: Db, t: Timed, id: NodeId) {
    t.step.Probe? && t.step.id == id && Fresh(db, t.step) && t.step.outcome.InvalidConfig?
  }

  lemma ProbeKeepsPublished(cfg: Config, log: Log, n: Node, e: TestEvent, draw: nat, clock: int)
    requires Shaped(n) && Published(n, clock)
    ensures Published(ProbedRow(cfg, log, n, e, draw), clock) <==> !e.outcome.InvalidConfig?
  {
    hide WindowEvents, Alpha, Beta, Score, NextTestAt;
  }

  lemma StepKeepsPublished(cfg: Config, db: Db, t: Timed, id: NodeId, clock: int)
    requires id in db.nodes && Shaped(db.nodes[id]) && Published(db.nodes[id], clock)
    requires t.now <= clock
    ensures Published(RowStep(cfg, db, t, id), clock) <==> !Invalidates(db, t, id)
  {
    hide ProbedRow, Logged, EarlierGens, HashesAt, IsManual;
    if t.step.Probe? {
      ProbeKeepsPublished(cfg, LogStep(db, t), db.nodes[id], EventOf(t.step, t.now), t.step.draw, clock);
    }
  }

  /** At a fixed clock a step removes a node from the snapshot if and only if it is
      a newly recorded INVALID_CONFIG event of that node. */
  lemma OnlyInvalidConfigUnpublishes(cfg: Config, tr: seq<Timed>, i: nat, id: NodeId, clock: int)
    requires i < |tr| && tr[i].now <= clock
    requires id in Snapshot(State(cfg, tr, i), clock)
    ensures id !in Snapshot(State(cfg, tr, i + 1), clock) <==> Invalidates(State(cfg, tr, i), tr[i], id)
  {
    hide Next, RowStep;
    RowsAreShaped(cfg, tr, i);
    HistoryRowWise(cfg, tr, i);
    StepKeepsPublished(cfg, State(cfg, tr, i), tr[i], id, clock);
  }

  /** A node published at the start of a stretch of steps and not invalidated in it is
      published at its end, for every clock not behind the steps. */
  lemma {:induction false} PublishedUntilInvalidatedOrExpired(cfg: Config, tr: seq<Timed>, i: nat, j: nat, id: NodeId,
                                                              clock: int)
    requires i <= j <= |tr|
    requires id in Snapshot(State(cfg, tr, i), clock)
    requires forall k :: i <= k < j ==> tr[k].now <= clock && !Invalidates(State(cfg, tr, k), tr[k], id)
    ensures id in Snapshot(State(cfg, tr, j), clock)
  {
    hide Next, RowStep, Snapshot;
    if i < j {
      PublishedUntilInvalidatedOrExpired(cfg, tr, i, j - 1, id, clock);
      OnlyInvalidConfigUnpublishes(cfg, tr, j - 1, id, clock);
    }
  }
}
