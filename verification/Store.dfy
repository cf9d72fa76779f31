/** The node store as the program updates it: tables in fields, one method per operation. */
module Store {
  import opened Domain
  import opened Health
  import opened Evidence
  import opened Database
  import opened Ranking
  import opened NotModified

  /** What the caller of a probe gets back. */
  datatype Applied = Applied(lifecycle: LifecycleState, score: real, lease: Option<int>, nextTestAt: int,
                             inconclusive: bool)

  class Store {
    const cfg: Config
    var nodes: map<NodeId, Node>
    var log: Log
    var members: set<Member>
    var lastGen: nat
    var completeGen: int
    var nextId: NodeId

    ghost function View(): Db
      reads this
    {
      Db(nodes, log, members, lastGen, completeGen, nextId)
    }

    constructor (cfg: Config)
      ensures this.cfg == cfg && View() == EMPTY
    {
      this.cfg := cfg;
      nodes, log, members := map[], [], {};
      lastGen, completeGen, nextId := 0, 0, 0;
    }

    /** The columns written by the UPDATE that records a decision. */
    static method UpdatedRow(n: Node, input: HealthInput, decision: HealthDecision, run: RunId) returns (row: Node)
      ensures row == DecidedRow(n, input, decision, run)
    {
      row := n.(lifecycle := decision.lifecycle, testingFrom := None, testLease := None,
                alpha := input.alpha, beta := input.beta, score := decision.score, lease := decision.lease,
                failureStreak := decision.failureStreak, independentFailures := decision.independentFailures,
                nextTestAt := decision.nextTestAt, lastTestAt := Some(input.now));
      if decision.lifecycle.Active? && !input.prior.Active? {
        row := row.(activatedAt := Some(input.now));
      }
      if input.outcome.InvalidConfig? {
        row := row.(valid := false);
      }
      if input.outcome.Failed() {
        row := row.(lastFailureRun := Some(run), lastFailureClass := Some(input.outcome));
      }
      if input.outcome.Success? {
        row := row.(lastSuccessAt := Some(input.now));
        if input.stage.Download? {
          row := row.(lastDownloadAt := Some(input.now));
        }
      }
    }

    method ApplyTestEvent(now: int, id: NodeId, run: RunId, stage: TestStage, outcome: FailureClass, fast: bool,
                          draw: nat)
      returns (r: Option<Applied>)
      modifies this
      ensures View() == Next(cfg, old(View()), At(now, Probe(id, run, stage, outcome, fast, draw)))
      ensures r.Some? <==> id in old(nodes)
      ensures (exists e :: e in old(log) && e.id == id && e.run == run && e.stage == stage) ==> View() == old(View())
      ensures r.Some? && !(exists e :: e in old(log) && e.id == id && e.run == run && e.stage == stage) ==>
                log == old(log) + [TestEvent(id, run, stage, outcome, fast, now)] && id in nodes
                && r.value == Applied(nodes[id].lifecycle, nodes[id].score, nodes[id].lease, nodes[id].nextTestAt,
                                      outcome.Inconclusive())
    {
      ProbeIsApplied(cfg, View(), now, Probe(id, run, stage, outcome, fast, draw));
      LoggedIff(log, id, run, stage);
      hide Next, Logged, Decide, DecidedRow, WindowEvents, Alpha, Beta;
      if id !in nodes {
        return None;
      }
      var row := nodes[id];
      var prior := if row.lifecycle.Testing? then row.testingFrom.GetOr(Testing) else row.lifecycle;
      if Logged(log, id, run, stage) {
        return Some(Applied(prior, row.score, row.lease, row.nextTestAt, outcome.Inconclusive()));
      }
      log := log + [TestEvent(id, run, stage, outcome, fast, now)];
      var evidence := WindowEvents(log, id, now);
      var alpha := Alpha(cfg.half, evidence, now);
      var beta := Beta(cfg.half, evidence, now);
      var input :=
        HealthInput(prior, row.lease, row.activatedAt, alpha, beta, row.failureStreak, row.independentFailures,
                    outcome.Failed() && row.lastFailureRun != Some(run), row.lastDownloadAt.Some?,
                    stage, outcome, fast, now, cfg.relayInterval, cfg.downloadInterval, cfg.minResidence);
      var decision := Decide(input, draw);
      row := UpdatedRow(row, input, decision, run);
      nodes := nodes[id := row];
      r := Some(Applied(decision.lifecycle, decision.score, decision.lease, decision.nextTestAt,
                        outcome.Inconclusive()));
    }

    /** The guarded UPDATE of one due row; false when the row is no longer claimable. */
    method Claim(now: int, id: NodeId, queue: LifecycleState, leaseFor: int) returns (claimed: bool)
      modifies this
      ensures View() == Next(cfg, old(View()), At(now, Step.Claim(id, queue, leaseFor)))
      ensures claimed <==> id in old(nodes) && queue.Queue() && Eligible(old(nodes)[id], queue, now)
      ensures claimed ==>
                id in nodes && nodes == old(nodes)[id := nodes[id]]
                && nodes[id] == old(nodes)[id].(lifecycle := Testing, testingFrom := Some(queue), waitingFrom := None,
                                                testLease := Some(now + leaseFor))
      ensures !claimed ==> View() == old(View())
    {
      if id !in nodes || !queue.Queue() || !Eligible(nodes[id], queue, now) {
        return false;
      }
      var row := nodes[id];
      var origin := if row.lifecycle.WaitingForPort? then row.waitingFrom.GetOr(Candidate) else row.lifecycle;
      nodes := nodes[id := row.(testingFrom := Some(origin), waitingFrom := None, lifecycle := Testing,
                                testLease := Some(now + leaseFor))];
      claimed := true;
    }

    method ReleaseTestLease(now: int, id: NodeId)
      modifies this
      ensures View() == Next(cfg, old(View()), At(now, Release(id)))
      ensures id in old(nodes) && old(nodes)[id].lifecycle == Testing && old(nodes)[id].testingFrom.Some? ==>
                nodes == old(nodes)[id := old(nodes)[id].(
                  lifecycle := old(nodes)[id].testingFrom.value, testingFrom := None, testLease := None)]
    {
      if id in nodes && nodes[id].lifecycle.Testing? {
        var row := nodes[id];
        nodes := nodes[id := row.(lifecycle := row.testingFrom.GetOr(row.lifecycle), testingFrom := None,
                                  testLease := None)];
      }
      assert id in nodes ==> nodes == old(nodes)[id := nodes[id]];
    }

    method MarkWaitingForPort(now: int, id: NodeId, retryAfter: int)
      modifies this
      ensures id in old(nodes) && old(nodes)[id].valid ==>
                nodes == old(nodes)[id := old(nodes)[id].(
                  lifecycle := WaitingForPort, waitingFrom := Some(old(nodes)[id].lifecycle), testingFrom := None,
                  testLease := None, nextTestAt := now + (if retryAfter > SECOND then retryAfter else SECOND))]
      ensures View() == Next(cfg, old(View()), At(now, Wait(id, retryAfter)))
    {
      if id in nodes && nodes[id].valid {
        var row := nodes[id];
        nodes := nodes[id := row.(waitingFrom := Some(row.lifecycle), lifecycle := WaitingForPort, testLease := None,
                                  testingFrom := None, nextTestAt := now + Max(retryAfter, SECOND))];
      }
      assert id in nodes ==> nodes == old(nodes)[id := nodes[id]];
    }

    method IngestProxy(now: int, p: Proxy, gen: int) returns (inserted: bool)
      modifies this
      ensures View() == IngestOne(old(View()), p, gen, now)
      ensures inserted <==> forall id :: id in old(nodes) ==> old(nodes)[id].hash != p.hash
      ensures inserted ==>
                nodes.Keys == old(nodes).Keys + {old(nextId)}
                && var n := nodes[old(nextId)];
                   n.hash == p.hash && n.raw == p.raw && n.sources == {p.source} && n.lifecycle == Candidate && n.valid
                   && n.score == 0.5 && n.lease.None? && n.testLease.None? && n.activatedAt.None?
                   && n.failureStreak == n.independentFailures == n.missing == 0
                   && n.nextTestAt == n.createdAt == now && n.lastSeen == gen
      ensures !inserted ==>
                nodes.Keys == old(nodes).Keys
                && forall id :: id in old(nodes) && old(nodes)[id].hash == p.hash ==>
                     var was, revived := old(nodes)[id], old(nodes)[id].lifecycle == Retired;
                     nodes[id] == was.(raw := p.raw, sources := was.sources + {p.source}, lastSeen := gen, missing := 0,
                                       lifecycle := if revived then Candidate else was.lifecycle,
                                       tombstoneUntil := if revived then None else was.tombstoneUntil,
                                       nextTestAt := if revived then now else was.nextTestAt)
    {
      members := members + {Member(gen, p.source, p.hash)};
      inserted := forall id | id in nodes :: nodes[id].hash != p.hash;
      if inserted {
        nodes := nodes[nextId := NewRow(p, gen, now)];
        nextId := nextId + 1;
      } else {
        nodes := map id | id in nodes ::
          if nodes[id].hash == p.hash then SeenRow(nodes[id], p, gen, now) else nodes[id];
      }
    }

    /** One parsed source generation, in one transaction. */
    method IngestMany(now: int, proxies: seq<Proxy>, gen: int) returns (inserted: nat)
      modifies this
      ensures View() == IngestAll(old(View()), proxies, gen, now)
      ensures nextId == old(nextId) + inserted
    {
      inserted := 0;
      for i := 0 to |proxies|
        invariant View() == IngestAll(old(View()), proxies[..i], gen, now)
        invariant nextId == old(nextId) + inserted
      {
        var new_ := IngestProxy(now, proxies[i], gen);
        assert proxies[..i + 1][..i] == proxies[..i];
        inserted := inserted + (if new_ then 1 else 0);
      }
      assert proxies[..|proxies|] == proxies;
    }

    method BeginRefresh(now: int) returns (gen: nat)
      modifies this
      ensures View() == Next(cfg, old(View()), At(now, Step.BeginRefresh))
      ensures gen == lastGen == old(lastGen) + 1
    {
      lastGen := lastGen + 1;
      gen := lastGen;
    }

    method CopyCachedSourceGeneration(now: int, source: Source, gen: int) returns (copied: nat)
      modifies this
      ensures View() == Next(cfg, old(View()), At(now, CopyCached(source, gen)))
      ensures copied == |members - old(members)|
    {
      var earlier := set m | m in members && m.source == source && m.gen < gen :: m.gen;
      if earlier == {} {
        return 0;
      }
      var previous := SetMax(earlier);
      ghost var before := View();
      var kept := set m | m in members && m.source == source && m.gen == previous :: m.hash;
      var rows := set h | h in kept :: Member(gen, source, h);
      copied := |rows - members|;
      assert rows - members == (members + rows) - members;
      members := members + rows;
      assert View() == CopyMembers(before, source, gen);
      var seen := set m | m in members && m.source == source && m.gen == gen :: m.hash;
      assert seen == HashesAt(View(), source, gen);
      nodes := map id | id in nodes ::
        if nodes[id].hash in seen then nodes[id].(lastSeen := gen, missing := 0) else nodes[id];
    }

    method AgeUnseen(gen: int)
      modifies this`nodes
      ensures nodes == map id | id in old(nodes) :: AgedRow(old(nodes)[id], gen)
    {
      hide IsManual;
      nodes := map id | id in nodes ::
        if nodes[id].lastSeen != gen && !IsManual(nodes[id].sources)
        then nodes[id].(missing := nodes[id].missing + 1) else nodes[id];
    }

    method RetireMissing(now: int, minimum: nat)
      modifies this`nodes
      ensures nodes == map id | id in old(nodes) :: RetireRow(old(nodes)[id], now, minimum)
    {
      nodes := map id | id in nodes ::
        if Retirable(nodes[id], now, minimum)
        then nodes[id].(lifecycle := Retired, tombstoneUntil := Some(now + 30 * DAY)) else nodes[id];
    }

    method FinishRefresh(now: int, gen: int, sourceCount: nat, successful: nat) returns (complete: bool)
      modifies this
      ensures View() == Next(cfg, old(View()), At(now, Step.FinishRefresh(gen, sourceCount, successful)))
      ensures complete <==> sourceCount > 0 && successful == sourceCount
      ensures !complete ==> View() == old(View())
      ensures complete ==> completeGen == if gen > old(completeGen) then gen else old(completeGen)
    {
      hide AgedRow, RetireRow;
      complete := sourceCount > 0 && successful == sourceCount;
      if !complete {
        return;
      }
      completeGen := Max(completeGen, gen);
      AgeUnseen(gen);
      RetireMissing(now, cfg.MissingBeforeRetire());
    }

    method ReviveNode(now: int, id: NodeId) returns (revived: bool)
      modifies this
      ensures View() == Next(cfg, old(View()), At(now, Step.ReviveNode(id)))
      ensures !revived ==> View() == old(View())
      ensures revived <==> id in old(nodes) && old(nodes)[id].valid
                           && old(nodes)[id].lifecycle in {Dormant, Probation, Candidate}
      ensures revived ==>
                id in nodes && nodes[id] == old(nodes)[id].(lifecycle := Probation, nextTestAt := now,
                                                            testLease := None,
                                                            testingFrom := None)
    {
      revived := id in nodes && nodes[id].valid
                 && (nodes[id].lifecycle.Dormant? || nodes[id].lifecycle.Probation? || nodes[id].lifecycle.Candidate?);
      if revived {
        nodes := nodes[id := nodes[id].(lifecycle := Probation, nextTestAt := now, testLease := None,
                                        testingFrom := None)];
      }
      assert id in nodes ==> nodes == old(nodes)[id := nodes[id]];
    }

    method ReviveDormant(now: int) returns (revived: nat)
      modifies this
      ensures View() == Next(cfg, old(View()), At(now, Step.ReviveDormant))
      ensures revived == |set id | id in old(nodes) && old(nodes)[id].lifecycle.Dormant? && old(nodes)[id].valid|
      ensures forall id :: id in old(nodes) && old(nodes)[id].lifecycle == Dormant && old(nodes)[id].valid ==>
                id in nodes && nodes[id] == old(nodes)[id].(lifecycle := Probation, nextTestAt := now)
    {
      revived := |set id | id in nodes && nodes[id].lifecycle.Dormant? && nodes[id].valid|;
      nodes := map id | id in nodes ::
        if nodes[id].lifecycle.Dormant? && nodes[id].valid
        then nodes[id].(lifecycle := Probation, nextTestAt := now) else nodes[id];
    }

    method ScheduleManualTest(now: int, id: NodeId) returns (found: bool)
      modifies this
      ensures View() == Next(cfg, old(View()), At(now, Step.ScheduleManualTest(id)))
      ensures found <==> id in old(nodes)
      ensures found && old(nodes)[id].lifecycle != Testing ==>
                id in nodes && nodes[id] == old(nodes)[id].(nextTestAt := now)
    {
      found := id in nodes;
      if found && !nodes[id].lifecycle.Testing? {
        nodes := nodes[id := nodes[id].(nextTestAt := now)];
      }
      assert id in nodes ==> nodes == old(nodes)[id := nodes[id]];
    }

    method CleanupRetired(now: int) returns (deleted: nat)
      modifies this
      ensures View() == Next(cfg, old(View()), At(now, Step.CleanupRetired))
      ensures deleted == |old(nodes).Keys - nodes.Keys|
      ensures forall id :: id in old(nodes) ==>
                (id !in nodes <==>
                   old(nodes)[id].lifecycle == Retired && old(nodes)[id].tombstoneUntil.Some?
                   && old(nodes)[id].tombstoneUntil.value <= now)
    {
      var dead := set id | id in nodes && Tombstoned(nodes[id], now);
      deleted := |dead|;
      ghost var before := nodes;
      nodes := map id | id in nodes && !Tombstoned(nodes[id], now) :: nodes[id];
      assert dead == before.Keys - nodes.Keys;
    }
  }

  lemma ProbeIsApplied(cfg: Config, db: Db, now: int, p: Step)
    requires p.Probe?
    ensures Next(cfg, db, At(now, p)) == ApplyProbe(cfg, db, now, p)
  {
  }

  lemma LoggedIff(log: Log, id: NodeId, run: RunId, stage: TestStage)
    ensures Logged(log, id, run, stage) <==> exists e :: e in log && e.id == id && e.run == run && e.stage == stage
  {
  }
}
