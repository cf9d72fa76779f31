/** A concrete history that loses a node which its upstream source still lists. */
module LostNode {
  import opened Domain
  import opened Evidence
  import opened Database
  import opened Ledgers
  import opened Health
  import opened Lifecycle
  import opened Reconciliation
  import opened RefreshProtocol
  import opened Workers

  const NODE: Proxy := Proxy("feed", "vless://node", "hash")
  const OTHER: Proxy := Proxy("feed", "vless://other", "other")
  const NOON: int := 12 * HOUR

  /** The source serves the node, then three bodies without it; the third of those refreshes ends while
      the node is under test.  The test finds no free port.  Then the source serves the node again. */
  const RUN: seq<Timed> := [
    At(0, BeginRefresh), At(0, Ingest(NODE, 1)), At(0, FinishRefresh(1, 1, 1)),
    At(0, BeginRefresh), At(0, Ingest(OTHER, 2)), At(0, FinishRefresh(2, 1, 1)),
    At(0, BeginRefresh), At(0, Ingest(OTHER, 3)), At(0, FinishRefresh(3, 1, 1)),
    At(NOON, BeginRefresh), At(NOON, Claim(0, Candidate, HOUR)), At(NOON, Ingest(OTHER, 4)),
    At(NOON, FinishRefresh(4, 1, 1)),
    At(NOON, Probe(0, "run", Relay, LocalOverload, false, 0)), At(NOON, Wait(0, 5 * SECOND)),
    At(NOON, BeginRefresh), At(NOON, Ingest(NODE, 5)), At(NOON, FinishRefresh(5, 1, 1))]

  /** The columns that decide what happens to the row. */
  predicate Row(n: Node, lifecycle: LifecycleState, missing: nat) {
    && n.lifecycle == lifecycle && n.missing == missing
    && n.hash == NODE.hash && n.sources == {NODE.source} && n.valid && n.lease.None?
    && n.createdAt == 0 && n.nextTestAt == 0 && n.lastSeen == 1
  }

  lemma FeedIsNotManual()
    ensures !IsManual({NODE.source})
  {
    assert |NODE.source| == 4;
    assert !MentionsManual(NODE.source);
  }

  lemma Keeps(cfg: Config, i: nat)
    requires i < |RUN| && 0 in State(cfg, RUN, i).nodes
    ensures 0 in State(cfg, RUN, i + 1).nodes
    ensures State(cfg, RUN, i + 1).nodes[0] == RowStep(cfg, State(cfg, RUN, i), RUN[i], 0)
  {
    hide State, RowStep;
    HistoryRowWise(cfg, RUN, i);
    assert !RUN[i].step.CleanupRetired?;
  }

  /** A complete refresh without the node, before or after it has been missed often enough. */
  lemma Aged(cfg: Config, n: Node, lifecycle: LifecycleState, missing: nat, gen: int, now: int)
    requires cfg.prune <= 3 && Row(n, lifecycle, missing) && lifecycle.Publishable() && gen != 1
    ensures var n' := RetireRow(AgedRow(n, gen), now, cfg.MissingBeforeRetire());
      && Row(n', if missing >= 2 && now >= NOON then Retired else lifecycle, missing + 1)
      && n'.testLease == n.testLease
  {
    hide IsManual;
    FeedIsNotManual();
  }

  lemma FirstSeen(cfg: Config)
    ensures var db := State(cfg, RUN, 2); 0 in db.nodes && Row(db.nodes[0], Candidate, 0) && db.nodes[0].testLease.None?
  {
    var a := State(cfg, RUN, 1);
    assert State(cfg, RUN, 0) == EMPTY;
    assert a == EMPTY.(lastGen := 1);
    assert !Known(a, NODE.hash);
    hide Next;
    HistoryRowWise(cfg, RUN, 1);
  }

  /** Opening a refresh and serving the other node do nothing to the row. */
  lemma Untouched(cfg: Config, i: nat)
    requires i < |RUN| && 0 in State(cfg, RUN, i).nodes && State(cfg, RUN, i).nodes[0].hash == NODE.hash
    requires RUN[i].step.BeginRefresh? || (RUN[i].step.Ingest? && RUN[i].step.proxy == OTHER)
    ensures 0 in State(cfg, RUN, i + 1).nodes && State(cfg, RUN, i + 1).nodes[0] == State(cfg, RUN, i).nodes[0]
  {
    Keeps(cfg, i);
    hide State;
  }

  /** One refresh of the morning. */
  lemma Morning(cfg: Config, i: nat, missing: nat)
    requires (i == 3 && missing == 0) || (i == 6 && missing == 1)
    requires cfg.prune <= 3 && 0 in State(cfg, RUN, i).nodes
    requires Row(State(cfg, RUN, i).nodes[0], Candidate, missing) && State(cfg, RUN, i).nodes[0].testLease.None?
    ensures 0 in State(cfg, RUN, i + 3).nodes && Row(State(cfg, RUN, i + 3).nodes[0], Candidate, missing + 1)
    ensures State(cfg, RUN, i + 3).nodes[0].testLease.None?
  {
    hide State, RetireRow, AgedRow;
    Untouched(cfg, i);
    Untouched(cfg, i + 1);
    Keeps(cfg, i + 2);
    Aged(cfg, State(cfg, RUN, i + 2).nodes[0], Candidate, missing, missing + 2, 0);
  }

  lemma Missed(cfg: Config)
    requires cfg.prune <= 3
    ensures var db := State(cfg, RUN, 10);
      0 in db.nodes && Row(db.nodes[0], Candidate, 2) && db.nodes[0].testLease.None?
  {
    hide State, RetireRow, AgedRow, Row;
    FirstSeen(cfg);
    Keeps(cfg, 2);
    Served(State(cfg, RUN, 2).nodes[0], cfg);
    Morning(cfg, 3, 0);
    Morning(cfg, 6, 1);
    RowHash(State(cfg, RUN, 9).nodes[0], 2);
    Untouched(cfg, 9);
  }

  lemma RowHash(n: Node, missing: nat)
    requires Row(n, Candidate, missing)
    ensures n.hash == NODE.hash
  {
  }

  lemma Served(n: Node, cfg: Config)
    requires Row(n, Candidate, 0)
    ensures RetireRow(AgedRow(n, 1), 0, cfg.MissingBeforeRetire()) == n
  {
  }

  lemma ClaimedAtNoon(n: Node)
    requires Row(n, Candidate, 2) && n.testLease.None?
    ensures Eligible(n, Candidate, NOON)
    ensures Row(ClaimRow(n, NOON + HOUR), Testing, 2)
  {
  }

  lemma StarvedAtNoon(cfg: Config, log: Log, n: Node, e: TestEvent, draw: nat)
    requires Row(n, Retired, 3) && e.outcome.LocalOverload?
    ensures var n' := ProbedRow(cfg, log, n, e, draw); n'.lifecycle.Retired? && n'.valid && n'.hash == n.hash
    ensures ParkedRetired(WaitRow(ProbedRow(cfg, log, n, e, draw), NOON, 5 * SECOND))
  {
    hide WindowEvents, Alpha, Beta, Score, NextTestAt;
  }

  /** At noon: claimed, retired, starved of a port, parked. */
  lemma Parked(cfg: Config)
    requires cfg.prune <= 3
    ensures var db := State(cfg, RUN, 10); 0 in db.nodes && Eligible(db.nodes[0], Candidate, NOON)
    ensures var db := State(cfg, RUN, 13);
      0 in db.nodes && db.nodes[0].lifecycle.Retired? && |db.log| == 0 && Retires(cfg, RUN, 12, 0)
    ensures var db := State(cfg, RUN, 14); 0 in db.nodes && db.nodes[0].lifecycle.Retired?
    ensures var db := State(cfg, RUN, 15); 0 in db.nodes && ParkedRetired(db.nodes[0]) && db.nodes[0].hash == NODE.hash
  {
    hide State, RetireRow, AgedRow, SeenRow, ProbedRow, Eligible;
    Missed(cfg);
    ClaimedAtNoon(State(cfg, RUN, 10).nodes[0]);
    Keeps(cfg, 10);
    Keeps(cfg, 11);
    Keeps(cfg, 12);
    Aged(cfg, State(cfg, RUN, 12).nodes[0], Testing, 2, 4, NOON);
    NothingLogged(cfg, 13);
    Keeps(cfg, 13);
    var n := State(cfg, RUN, 13).nodes[0];
    var e := EventOf(RUN[13].step, NOON);
    assert Fresh(State(cfg, RUN, 13), RUN[13].step);
    StarvedAtNoon(cfg, State(cfg, RUN, 13).log + [e], n, e, 0);
    Keeps(cfg, 14);
  }

  lemma {:induction false} NothingLogged(cfg: Config, i: nat)
    requires i <= 13
    ensures State(cfg, RUN, i).log == []
  {
    hide Next, RowStep;
    if i > 0 {
      NothingLogged(cfg, i - 1);
      HistoryRowWise(cfg, RUN, i - 1);
      assert !RUN[i - 1].step.Probe?;
    }
  }

  lemma EmptyLog(log: Log, id: NodeId, run: RunId, stage: TestStage)
    requires log == []
    ensures !Logged(log, id, run, stage)
  {
  }

  /** The run keeps the order of the scheduler's loop. */
  lemma InTurnThroughout(cfg: Config)
    requires cfg.prune <= 3
    ensures WorkersInTurn(cfg, RUN) && PhaseAt(cfg, RUN, 15, 0).Idle?
  {
    hide State, Eligible, Logged;
    Parked(cfg);
    assert PhaseAt(cfg, RUN, 11, 0).Claimed?;
    assert PhaseAt(cfg, RUN, 12, 0).Claimed?;
    assert PhaseAt(cfg, RUN, 13, 0).Claimed?;
    NothingLogged(cfg, 13);
    EmptyLog(State(cfg, RUN, 13).log, 0, "run", Relay);
    assert PhaseAt(cfg, RUN, 14, 0).Reported?;
    forall i | 0 <= i < |RUN|
      ensures InTurn(State(cfg, RUN, i), RUN[i], PhaseAt(cfg, RUN, i, NodeOf(RUN[i])))
    {
    }
  }

  /** Serving the node again counts as a sighting of the parked row and leaves it parked. */
  lemma ServedAgain(cfg: Config)
    requires cfg.prune <= 3
    ensures var db := State(cfg, RUN, 17);
      && 0 in db.nodes && db.nodes[0].hash == NODE.hash && ParkedRetired(db.nodes[0])
      && db.nodes[0].lastSeen == 5 && db.nodes[0].missing == 0 && Member(5, NODE.source, NODE.hash) in db.members
  {
    hide State;
    Parked(cfg);
    Untouched(cfg, 15);
    Keeps(cfg, 16);
    NextTables(cfg, State(cfg, RUN, 16), RUN[16]);
    StateAt(cfg, 16);
  }

  lemma StateAt(cfg: Config, i: nat)
    requires i < |RUN|
    ensures State(cfg, RUN, i + 1) == Next(cfg, State(cfg, RUN, i), RUN[i])
  {
    hide Next;
  }

  lemma SeenIsKept(cfg: Config, n: Node)
    requires n.lastSeen == 5 && n.missing == 0
    ensures RetireRow(AgedRow(n, 5), NOON, cfg.MissingBeforeRetire()) == n
  {
  }

  /** The source lists the node again, and it stays parked from RETIRED, out of every queue. */
  lemma NodeIsLost(cfg: Config)
    requires cfg.prune <= 3
    ensures WorkersInTurn(cfg, RUN)
    ensures var db := State(cfg, RUN, |RUN|);
      && 0 in db.nodes && db.nodes[0].hash == NODE.hash && ParkedRetired(db.nodes[0])
      && db.nodes[0].missing == 0 && NODE.hash in HashesAt(db, NODE.source, 5)
  {
    hide State, RetireRow, AgedRow, InTurn, PhaseAt;
    InTurnThroughout(cfg);
    ServedAgain(cfg);
    Keeps(cfg, 17);
    SeenIsKept(cfg, State(cfg, RUN, 17).nodes[0]);
    NextTables(cfg, State(cfg, RUN, 17), RUN[17]);
    StateAt(cfg, 17);
    assert Member(5, NODE.source, NODE.hash) in State(cfg, RUN, 18).members;
  }

  // ---- The run follows the refresh protocol ----

  const CONFIGURED: set<Source> := {NODE.source}

  function Begun(i: nat): nat
    requires i <= |RUN|
  {
    if i == 0 then 0 else Begun(i - 1) + (if RUN[i - 1].step.BeginRefresh? then 1 else 0)
  }

  lemma {:induction false} GenerationsOpened(cfg: Config, i: nat)
    requires i <= |RUN|
    ensures State(cfg, RUN, i).lastGen == Begun(i)
  {
    hide Next;
    if i > 0 {
      GenerationsOpened(cfg, i - 1);
      NextTables(cfg, State(cfg, RUN, i - 1), RUN[i - 1]);
    }
  }

  /** Before the `i`-th statement generation `gen` is open, or none is, and the source's latest one is `latest`. */
  ghost predicate Standing(cfg: Config, i: nat, open: Option<int>, latest: map<Source, int>)
    requires i <= |RUN|
  {
    var pr := ProtoAt(cfg, CONFIGURED, RUN, i);
    pr.open == open && pr.copied == {} && pr.latest == latest
  }

  function OpenAfter(i: nat, open: Option<int>): Option<int>
    requires i < |RUN|
  {
    match RUN[i].step
    case BeginRefresh => Some(Begun(i) + 1)
    case FinishRefresh(_, _, _) => None
    case _ => open
  }

  function LatestAfter(i: nat, latest: map<Source, int>): map<Source, int>
    requires i < |RUN|
  {
    if RUN[i].step.Ingest? then map[NODE.source := RUN[i].step.gen] else latest
  }

  /** Bodies of the one source go to the open generation, and a refresh ends after its body. */
  lemma StandingStep(cfg: Config, i: nat, open: Option<int>, latest: map<Source, int>)
    requires i < |RUN| && Standing(cfg, i, open, latest) && latest.Keys <= CONFIGURED
    requires RUN[i].step.Ingest? ==> open == Some(RUN[i].step.gen)
    requires RUN[i].step.FinishRefresh? ==>
               open == Some(RUN[i].step.gen) && latest == map[NODE.source := RUN[i].step.gen]
    ensures Allowed(CONFIGURED, ProtoAt(cfg, CONFIGURED, RUN, i), RUN[i])
    ensures Standing(cfg, i + 1, OpenAfter(i, open), LatestAfter(i, latest))
  {
    hide State, Track, Allowed, Begun;
    GenerationsOpened(cfg, i);
    OneSource(i);
    TrackStep(State(cfg, RUN, i), ProtoAt(cfg, CONFIGURED, RUN, i), RUN[i], latest);
  }

  lemma OneSource(i: nat)
    requires i < |RUN|
    ensures !RUN[i].step.CopyCached? && (RUN[i].step.Ingest? ==> RUN[i].step.proxy.source == NODE.source)
  {
  }

  lemma TrackStep(db: Db, pr: Proto, t: Timed, latest: map<Source, int>)
    requires pr.copied == {} && pr.latest == latest && latest.Keys <= CONFIGURED
    requires !t.step.CopyCached?
    requires (t.step.Ingest? ==> t.step.proxy.source == NODE.source && pr.open == Some(t.step.gen))
    requires t.step.FinishRefresh? ==> pr.open == Some(t.step.gen) && latest == map[NODE.source := t.step.gen]
    ensures Allowed(CONFIGURED, pr, t)
    ensures var pr' := Track(CONFIGURED, db, pr, t);
      && pr'.copied == {}
      && pr'.open == (if t.step.BeginRefresh? then Some(db.lastGen + 1)
                      else if t.step.FinishRefresh? then None
                      else pr.open)
      && pr'.latest == (if t.step.Ingest? then map[NODE.source := t.step.gen] else latest)
  {
    if t.step.Ingest? {
      assert pr.latest[NODE.source := t.step.gen] == map[NODE.source := t.step.gen];
    }
  }

  function OpenAt(i: nat): Option<int>
    requires i <= |RUN|
  {
    if i == 0 then None else OpenAfter(i - 1, OpenAt(i - 1))
  }

  function LatestAt(i: nat): map<Source, int>
    requires i <= |RUN|
  {
    if i == 0 then map[] else LatestAfter(i - 1, LatestAt(i - 1))
  }

  lemma BegunAt()
    ensures Begun(0) == 0 && Begun(3) == 1 && Begun(6) == 2 && Begun(9) == 3 && Begun(15) == 4
  {
  }

  lemma GenerationsOpen()
    ensures OpenAt(1) == OpenAt(2) == Some(1) && OpenAt(4) == OpenAt(5) == Some(2) && OpenAt(7) == OpenAt(8) == Some(3)
    ensures OpenAt(11) == OpenAt(12) == Some(4) && OpenAt(16) == OpenAt(17) == Some(5)
  {
    BegunAt();
    hide Begun;
  }

  lemma BodiesLatest()
    ensures LatestAt(2) == map[NODE.source := 1] && LatestAt(5) == map[NODE.source := 2]
    ensures LatestAt(8) == map[NODE.source := 3]
    ensures LatestAt(12) == map[NODE.source := 4] && LatestAt(17) == LatestAt(18) == map[NODE.source := 5]
  {
  }

  lemma {:induction false} OnlyConfigured(i: nat)
    requires i <= |RUN|
    ensures LatestAt(i).Keys <= CONFIGURED
  {
    if i > 0 {
      OnlyConfigured(i - 1);
    }
  }

  lemma Schedule(i: nat)
    requires i < |RUN|
    ensures LatestAt(i).Keys <= CONFIGURED
    ensures RUN[i].step.Ingest? ==> OpenAt(i) == Some(RUN[i].step.gen)
    ensures RUN[i].step.FinishRefresh? ==>
              OpenAt(i) == Some(RUN[i].step.gen) && LatestAt(i) == map[NODE.source := RUN[i].step.gen]
  {
    hide OpenAt, LatestAt;
    OnlyConfigured(i);
    GenerationsOpen();
    BodiesLatest();
  }

  lemma {:induction false} StandsAt(cfg: Config, i: nat)
    requires i <= |RUN|
    ensures Standing(cfg, i, OpenAt(i), LatestAt(i))
    ensures i > 0 ==> Allowed(CONFIGURED, ProtoAt(cfg, CONFIGURED, RUN, i - 1), RUN[i - 1])
  {
    if i > 0 {
      hide Standing, Allowed;
      StandsAt(cfg, i - 1);
      Schedule(i - 1);
      StandingStep(cfg, i - 1, OpenAt(i - 1), LatestAt(i - 1));
    }
  }

  /** So a row whose origin is RETIRED can be a latest member of a source in a run that follows the
      protocol: only the literal state is ruled out. */
  lemma LostNodeIsLatestMember(cfg: Config)
    requires cfg.prune <= 3
    ensures Conforms(cfg, CONFIGURED, RUN)
    ensures var db, pr := State(cfg, RUN, |RUN|), ProtoAt(cfg, CONFIGURED, RUN, |RUN|);
      && NODE.source in pr.latest && 0 in db.nodes && Origin(db.nodes[0]).Retired?
      && db.nodes[0].hash in HashesAt(db, NODE.source, pr.latest[NODE.source])
  {
    hide State, Allowed;
    forall i | 0 <= i < |RUN|
      ensures Allowed(CONFIGURED, ProtoAt(cfg, CONFIGURED, RUN, i), RUN[i])
    {
      StandsAt(cfg, i + 1);
    }
    StandsAt(cfg, |RUN|);
    NodeIsLost(cfg);
    BodiesLatest();
    hide ProtoAt;
  }
}
