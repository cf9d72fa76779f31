/** The scheduler's report loop: record every event of every report, then park or release the node. */
module App {
  import opened Domain
  import opened Health
  import opened Evidence
  import opened Database
  import opened Ledgers
  import opened Lifecycle
  import opened Incident
  import opened Store

  /** During an incident every failure but a structural one is recorded as inconclusive. */
  function Rewritten(incident: bool, outcome: FailureClass): FailureClass {
    if incident && !outcome.Success? && !outcome.InvalidConfig? then EndpointFailure else outcome
  }

  predicate WaitsForPort(r: Report) {
    |r.events| > 0 && forall e | e in r.events :: e.outcome.LocalOverload? && e.portCapacity
  }

  function EventStep(id: NodeId, run: RunId, incident: bool, e: ProbeEvent): Timed {
    At(e.at, Probe(id, run, e.stage, Rewritten(incident, e.outcome), e.fast, e.draw))
  }

  function EventSteps(id: NodeId, run: RunId, incident: bool, events: seq<ProbeEvent>): (r: seq<Timed>)
    ensures |r| == |events|
  {
    seq(|events|, i requires 0 <= i < |events| => EventStep(id, run, incident, events[i]))
  }

  function LastStep(r: Report): Timed {
    At(r.doneAt, if WaitsForPort(r) then Wait(r.id, 5 * SECOND) else Release(r.id))
  }

  function ReportSteps(run: RunId, incident: bool, r: Report): seq<Timed> {
    EventSteps(r.id, run, incident, r.events) + [LastStep(r)]
  }

  /** `runs` holds the fresh run id drawn for each report. */
  function BatchSteps(runs: seq<RunId>, incident: bool, reports: seq<Report>): seq<Timed>
    requires |runs| == |reports|
  {
    if |reports| == 0 then []
    else
      var n := |reports| - 1;
      BatchSteps(runs[..n], incident, reports[..n]) + ReportSteps(runs[n], incident, reports[n])
  }

  lemma PlayOneMore(cfg: Config, db: Db, steps: seq<Timed>, t: Timed)
    ensures Play(cfg, db, steps + [t]) == Next(cfg, Play(cfg, db, steps), t)
  {
    hide Next;
    assert (steps + [t])[..|steps|] == steps;
  }

  method ApplyReport(store: Store, run: RunId, incident: bool, r: Report) returns (downloaded: bool)
    modifies store
    ensures store.View() == Play(store.cfg, old(store.View()), ReportSteps(run, incident, r))
    ensures downloaded <==> exists e :: e in r.events && e.stage.Download? && e.outcome.Success?
  {
    hide Next, Play;
    downloaded := false;
    var waiting := |r.events| > 0 && forall e | e in r.events :: e.outcome.LocalOverload? && e.portCapacity;
    ghost var before := store.View();
    PlayNothing(store.cfg, before, r.id, run, incident, r.events);
    for i := 0 to |r.events|
      invariant store.View() == Play(store.cfg, before, EventSteps(r.id, run, incident, r.events[..i]))
      invariant downloaded <==> exists e :: e in r.events[..i] && e.stage.Download? && e.outcome.Success?
    {
      var e := r.events[i];
      assert r.events[..i + 1] == r.events[..i] + [e];
      downloaded := downloaded || (e.stage.Download? && e.outcome.Success?);
      var neutral := incident && !e.outcome.Success? && !e.outcome.InvalidConfig?;
      var outcome := if neutral then EndpointFailure else e.outcome;
      assert EventSteps(r.id, run, incident, r.events[..i + 1])
          == EventSteps(r.id, run, incident, r.events[..i]) + [EventStep(r.id, run, incident, e)];
      PlayOneMore(store.cfg, before, EventSteps(r.id, run, incident, r.events[..i]), EventStep(r.id, run, incident, e));
      var applied := store.ApplyTestEvent(e.at, r.id, run, e.stage, outcome, e.fast, e.draw);
    }
    assert r.events[..|r.events|] == r.events;
    PlayOneMore(store.cfg, before, EventSteps(r.id, run, incident, r.events), LastStep(r));
    if waiting {
      store.MarkWaitingForPort(r.doneAt, r.id, 5 * SECOND);
    } else {
      store.ReleaseTestLease(r.doneAt, r.id);
    }
  }

  lemma PlayNothing(cfg: Config, db: Db, id: NodeId, run: RunId, incident: bool, events: seq<ProbeEvent>)
    ensures Play(cfg, db, EventSteps(id, run, incident, events[..0])) == db
    ensures Play(cfg, db, []) == db
  {
    hide Next;
  }

  /** One scheduler batch: classify it, then apply it report by report. */
  method ApplyBatch(store: Store, runs: seq<RunId>, reports: seq<Report>,
                    threshold: nat)
    returns (verdict: Option<Reason>)
    requires |runs| == |reports|
    modifies store
    ensures verdict == Verdict(reports, threshold)
    ensures store.View() == Play(store.cfg, old(store.View()),
                                 BatchSteps(runs, Verdict(reports, threshold).Some?, reports))
  {
    hide Next, Play, Verdict, ReportSteps;
    verdict := CorrelatedIncident(reports, threshold);
    ghost var before := store.View();
    PlayNothing(store.cfg, before, 0, "", false, []);
    assert BatchSteps(runs[..0], verdict.Some?, reports[..0]) == [];
    for i := 0 to |reports|
      invariant store.View() == Play(store.cfg, before, BatchSteps(runs[..i], verdict.Some?, reports[..i]))
    {
      assert runs[..i + 1][..i] == runs[..i] && reports[..i + 1][..i] == reports[..i];
      PlayAppend(store.cfg, before, BatchSteps(runs[..i], verdict.Some?, reports[..i]),
                 ReportSteps(runs[i], verdict.Some?, reports[i]));
      var downloaded := ApplyReport(store, runs[i], verdict.Some?, reports[i]);
    }
    assert runs[..|runs|] == runs && reports[..|reports|] == reports;
  }

  // ---- The loop keeps the worker discipline ----

  /** Every statement of `steps` keeps the discipline where it is executed. */
  ghost predicate DisciplinedFrom(cfg: Config, db: Db, steps: seq<Timed>) {
    forall i :: 0 <= i < |steps| ==> Disciplined(Play(cfg, db, steps[..i]), steps[i])
  }

  /** The worker's own node: still in its hands before its first event, idle afterwards. */
  ghost predicate Held(db: Db, id: NodeId, k: nat) {
    && id in db.nodes && Shaped(db.nodes[id])
    && (if k == 0 then db.nodes[id].lifecycle.Testing? else !Busy(db.nodes[id]))
  }

  lemma ProbeOwnRow(cfg: Config, log: Log, n: Node, e: TestEvent, draw: nat)
    requires Shaped(n) && !n.lifecycle.WaitingForPort?
    ensures Shaped(ProbedRow(cfg, log, n, e, draw)) && !Busy(ProbedRow(cfg, log, n, e, draw))
  {
    hide WindowEvents, Alpha, Beta, Score, NextTestAt;
  }

  lemma ProbeOwnNode(cfg: Config, db: Db, t: Timed, k: nat)
    requires t.step.Probe? && Held(db, t.step.id, k)
    requires k == 0 ==> Fresh(db, t.step)
    ensures Disciplined(db, t) && Held(Next(cfg, db, t), t.step.id, k + 1)
  {
    hide ProbedRow;
    if Fresh(db, t.step) {
      ProbeOwnRow(cfg, LogStep(db, t), db.nodes[t.step.id], EventOf(t.step, t.now), t.step.draw);
    }
  }

  /** No event of this run has been recorded for the node. */
  predicate NewRun(db: Db, id: NodeId, run: RunId) {
    forall i | 0 <= i < |db.log| :: !(db.log[i].id == id && db.log[i].run == run)
  }

  lemma {:induction false} EventsAreDisciplined(cfg: Config, db: Db, run: RunId, incident: bool, r: Report, k: nat)
    requires k <= |r.events| && Held(db, r.id, 0) && NewRun(db, r.id, run)
    ensures Held(Play(cfg, db, EventSteps(r.id, run, incident, r.events)[..k]), r.id, k)
    ensures k < |r.events| ==>
              Disciplined(Play(cfg, db, EventSteps(r.id, run, incident, r.events)[..k]),
                          EventStep(r.id, run, incident, r.events[k]))
  {
    hide Next, Held, Disciplined, NewRun;
    var steps := EventSteps(r.id, run, incident, r.events);
    if k > 0 {
      EventsAreDisciplined(cfg, db, run, incident, r, k - 1);
      assert steps[..k] == steps[..k - 1] + [steps[k - 1]];
      PlayOneMore(cfg, db, steps[..k - 1], steps[k - 1]);
      FirstIsFresh(cfg, db, run, steps[0]);
      ProbeOwnNode(cfg, Play(cfg, db, steps[..k - 1]), steps[k - 1], k - 1);
    }
    if k < |r.events| {
      FirstIsFresh(cfg, db, run, steps[0]);
      ProbeOwnNode(cfg, Play(cfg, db, steps[..k]), steps[k], k);
    }
  }

  lemma FirstIsFresh(cfg: Config, db: Db, run: RunId, t: Timed)
    requires t.step.Probe? && t.step.run == run && Held(db, t.step.id, 0) && NewRun(db, t.step.id, run)
    ensures Fresh(db, t.step)
    ensures Play(cfg, db, []) == db
  {
    hide Next;
  }

  /** A worker that reports a node it has claimed never parks a busy row and never
      probes a parked one: its run of statements keeps the discipline from start to end. */
  lemma ReportIsDisciplined(cfg: Config, db: Db, run: RunId, incident: bool, r: Report)
    requires r.id in db.nodes && db.nodes[r.id].lifecycle.Testing? && Shaped(db.nodes[r.id]) && NewRun(db, r.id, run)
    ensures DisciplinedFrom(cfg, db, ReportSteps(run, incident, r))
    ensures var db' := Play(cfg, db, ReportSteps(run, incident, r));
      r.id in db'.nodes && !db'.nodes[r.id].lifecycle.Testing?
  {
    hide Next, Disciplined, NewRun;
    var events := EventSteps(r.id, run, incident, r.events);
    var steps := ReportSteps(run, incident, r);
    assert Held(db, r.id, 0);
    forall i | 0 <= i < |steps|
      ensures Disciplined(Play(cfg, db, steps[..i]), steps[i])
    {
      assert steps[..i] == events[..i];
      EventsAreDisciplined(cfg, db, run, incident, r, i);
      if i == |events| {
        LastIsDisciplined(Play(cfg, db, steps[..i]), r);
      }
    }
    assert events[..|events|] == events;
    EventsAreDisciplined(cfg, db, run, incident, r, |r.events|);
    PlayOneMore(cfg, db, events, LastStep(r));
    LastFreesNode(cfg, Play(cfg, db, events), r);
  }

  lemma LastIsDisciplined(db: Db, r: Report)
    requires Held(db, r.id, |r.events|)
    ensures Disciplined(db, LastStep(r))
  {
  }

  lemma LastFreesNode(cfg: Config, db: Db, r: Report)
    requires Held(db, r.id, |r.events|)
    ensures var db' := Next(cfg, db, LastStep(r)); r.id in db'.nodes && !db'.nodes[r.id].lifecycle.Testing?
  {
  }

  // ---- What a report leaves behind ----

  /** The first event of each stage, in order. */
  function Firsts(events: seq<ProbeEvent>): seq<ProbeEvent> {
    if |events| == 0 then []
    else
      var n := |events| - 1;
      Firsts(events[..n]) + (if exists k | 0 <= k < n :: events[k].stage == events[n].stage then [] else [events[n]])
  }

  lemma {:induction false} FirstsSpec(events: seq<ProbeEvent>, e: ProbeEvent)
    ensures e in Firsts(events) <==>
              exists k :: 0 <= k < |events| && events[k] == e && forall m :: 0 <= m < k ==> events[m].stage != e.stage
  {
    if |events| > 0 {
      var n := |events| - 1;
      var init := events[..n];
      FirstsSpec(init, e);
      assert forall k :: 0 <= k < n ==> init[k] == events[k];
    }
  }

  /** How an event enters the log. During an incident the failures of a report say nothing of its node,
      but for a structural error; its successes stand. */
  function AsLogged(id: NodeId, run: RunId, incident: bool, e: ProbeEvent): TestEvent {
    var outcome := if incident && e.outcome !in {Success, InvalidConfig} then EndpointFailure else e.outcome;
    TestEvent(id, run, e.stage, outcome, e.fast, e.at)
  }

  function AllLogged(id: NodeId, run: RunId, incident: bool, events: seq<ProbeEvent>): (r: Log)
    ensures |r| == |events|
  {
    seq(|events|, i requires 0 <= i < |events| => AsLogged(id, run, incident, events[i]))
  }

  lemma {:induction false} StageSeen(events: seq<ProbeEvent>, stage: TestStage)
    ensures (exists k :: 0 <= k < |events| && events[k].stage == stage) <==>
              exists e :: e in Firsts(events) && e.stage == stage
  {
    if |events| > 0 {
      var n := |events| - 1;
      var init := events[..n];
      StageSeen(init, stage);
      StageSeen(init, events[n].stage);
      assert forall k :: 0 <= k < n ==> init[k] == events[k];
      if exists k :: 0 <= k < |events| && events[k].stage == stage {
        var k :| 0 <= k < |events| && events[k].stage == stage;
        if k < n {
          assert init[k].stage == stage;
        } else if events[n] !in Firsts(events) {
          var m :| 0 <= m < n && events[m].stage == events[n].stage;
          assert init[m].stage == stage;
        }
      }
    }
  }

  lemma LoggedOfRun(log: Log, id: NodeId, run: RunId, incident: bool, firsts: seq<ProbeEvent>, stage: TestStage)
    requires forall i | 0 <= i < |log| :: !(log[i].id == id && log[i].run == run)
    ensures Logged(log + AllLogged(id, run, incident, firsts), id, run, stage) <==>
              exists e :: e in firsts && e.stage == stage
  {
    var more := log + AllLogged(id, run, incident, firsts);
    assert forall i :: 0 <= i < |log| ==> more[i] == log[i];
    assert forall i :: 0 <= i < |firsts| ==> more[|log| + i] == AsLogged(id, run, incident, firsts[i]);
    if e :| e in firsts && e.stage == stage {
      var i :| 0 <= i < |firsts| && firsts[i] == e;
      assert more[|log| + i].stage == stage;
    }
    if Logged(more, id, run, stage) {
      var i :| 0 <= i < |more| && more[i].id == id && more[i].run == run && more[i].stage == stage;
      assert firsts[i - |log|] in firsts;
    }
  }

  lemma {:induction false} EventsAreLogged(cfg: Config, db: Db, run: RunId, incident: bool, r: Report, k: nat)
    requires k <= |r.events| && r.id in db.nodes && NewRun(db, r.id, run)
    ensures var after := Play(cfg, db, EventSteps(r.id, run, incident, r.events)[..k]);
      r.id in after.nodes && after.log == db.log + AllLogged(r.id, run, incident, Firsts(r.events[..k]))
  {
    hide Next, Logged, Firsts;
    var steps := EventSteps(r.id, run, incident, r.events);
    if k == 0 {
      assert Firsts(r.events[..0]) == [] by {
        NoFirsts();
      }
      assert db.log + [] == db.log;
    } else {
      EventsAreLogged(cfg, db, run, incident, r, k - 1);
      var init, e := r.events[..k - 1], r.events[k - 1];
      var before := Play(cfg, db, steps[..k - 1]);
      assert steps[..k] == steps[..k - 1] + [steps[k - 1]];
      assert r.events[..k] == init + [e];
      PlayOneMore(cfg, db, steps[..k - 1], steps[k - 1]);
      LoggedOfRun(db.log, r.id, run, incident, Firsts(init), e.stage);
      StageSeen(init, e.stage);
      OneMoreFirst(init, e);
      EventIsLogged(cfg, before, r.id, run, incident, e);
      assert Firsts(init) + [] == Firsts(init);
      assert AllLogged(r.id, run, incident, Firsts(init) + [e])
          == AllLogged(r.id, run, incident, Firsts(init)) + [AsLogged(r.id, run, incident, e)];
    }
  }

  lemma NoFirsts()
    ensures Firsts([]) == []
  {
  }

  lemma OneMoreFirst(init: seq<ProbeEvent>, e: ProbeEvent)
    ensures Firsts(init + [e]) ==
            Firsts(init) + (if exists k :: 0 <= k < |init| && init[k].stage == e.stage then [] else [e])
  {
    var events := init + [e];
    assert events[..|init|] == init;
    assert forall k :: 0 <= k < |init| ==> events[k] == init[k];
  }

  lemma EventIsLogged(cfg: Config, db: Db, id: NodeId, run: RunId, incident: bool, e: ProbeEvent)
    requires id in db.nodes
    ensures var after := Next(cfg, db, EventStep(id, run, incident, e));
      && id in after.nodes
      && after.log == if Logged(db.log, id, run, e.stage) then db.log else db.log + [AsLogged(id, run, incident, e)]
  {
    hide ProbedRow, Logged;
  }

  /** A report of a new run adds to the log the first event of each of its stages, and nothing else. */
  lemma ReportIsLogged(cfg: Config, db: Db, run: RunId, incident: bool, r: Report)
    requires r.id in db.nodes && NewRun(db, r.id, run)
    ensures Play(cfg, db, ReportSteps(run, incident, r)).log ==
            db.log + AllLogged(r.id, run, incident, Firsts(r.events))
  {
    hide Next, NewRun, Firsts, AllLogged;
    var events := EventSteps(r.id, run, incident, r.events);
    EventsAreLogged(cfg, db, run, incident, r, |r.events|);
    assert events[..|events|] == events && r.events[..|r.events|] == r.events;
    PlayOneMore(cfg, db, events, LastStep(r));
    LastKeepsLog(cfg, Play(cfg, db, events), r);
  }

  lemma LastKeepsLog(cfg: Config, db: Db, r: Report)
    ensures Next(cfg, db, LastStep(r)).log == db.log
  {
  }

  lemma {:induction false} EventsKeepValid(cfg: Config, db: Db, run: RunId, incident: bool, r: Report, k: nat)
    requires k <= |r.events| && r.id in db.nodes && db.nodes[r.id].valid
    requires forall e :: e in r.events ==> e.outcome != InvalidConfig
    ensures var after := Play(cfg, db, EventSteps(r.id, run, incident, r.events)[..k]);
      r.id in after.nodes && after.nodes[r.id].valid
  {
    hide Next;
    var steps := EventSteps(r.id, run, incident, r.events);
    if k > 0 {
      EventsKeepValid(cfg, db, run, incident, r, k - 1);
      assert steps[..k] == steps[..k - 1] + [steps[k - 1]];
      PlayOneMore(cfg, db, steps[..k - 1], steps[k - 1]);
      assert r.events[k - 1] in r.events;
      EventKeepsValid(cfg, Play(cfg, db, steps[..k - 1]), steps[k - 1]);
    }
  }

  lemma EventKeepsValid(cfg: Config, db: Db, t: Timed)
    requires t.step.Probe? && t.step.id in db.nodes && db.nodes[t.step.id].valid && t.step.outcome != InvalidConfig
    ensures t.step.id in Next(cfg, db, t).nodes && Next(cfg, db, t).nodes[t.step.id].valid
  {
    hide WindowEvents, Alpha, Beta, Decide, Logged;
  }

  predicate Freed(n: Node) {
    n.testLease.None? && n.testingFrom.None?
  }

  lemma {:induction false} EventsEndTest(cfg: Config, db: Db, run: RunId, incident: bool, r: Report, k: nat)
    requires 0 < k <= |r.events| && Held(db, r.id, 0) && NewRun(db, r.id, run)
    ensures var after := Play(cfg, db, EventSteps(r.id, run, incident, r.events)[..k]);
      r.id in after.nodes && Freed(after.nodes[r.id])
  {
    hide Next, Held, NewRun;
    var steps := EventSteps(r.id, run, incident, r.events);
    assert steps[..k] == steps[..k - 1] + [steps[k - 1]];
    PlayOneMore(cfg, db, steps[..k - 1], steps[k - 1]);
    if k == 1 {
      FirstIsFresh(cfg, db, run, steps[0]);
      assert r.id in db.nodes by {
        HeldIsKnown(db, r.id);
      }
    } else {
      EventsEndTest(cfg, db, run, incident, r, k - 1);
    }
    EventFrees(cfg, Play(cfg, db, steps[..k - 1]), steps[k - 1]);
  }

  lemma HeldIsKnown(db: Db, id: NodeId)
    requires Held(db, id, 0)
    ensures id in db.nodes
  {
  }

  lemma EventFrees(cfg: Config, db: Db, t: Timed)
    requires t.step.Probe? && t.step.id in db.nodes && (Fresh(db, t.step) || Freed(db.nodes[t.step.id]))
    ensures t.step.id in Next(cfg, db, t).nodes && Freed(Next(cfg, db, t).nodes[t.step.id])
  {
    hide InputFor, Decide, Logged;
  }

  /** A claimed node is parked, for five seconds, exactly when its report consists of nothing but a lack of
      ports; otherwise it is back in one of the six states, and its test is over either way. */
  lemma ReportParksIff(cfg: Config, db: Db, run: RunId, incident: bool, r: Report)
    requires r.id in db.nodes && db.nodes[r.id].lifecycle == Testing && Shaped(db.nodes[r.id]) && NewRun(db, r.id, run)
    ensures r.id in Play(cfg, db, ReportSteps(run, incident, r)).nodes
    ensures var n := Play(cfg, db, ReportSteps(run, incident, r)).nodes[r.id];
      && (n.lifecycle == WaitingForPort <==>
            r.events != [] && forall e :: e in r.events ==> e.outcome == LocalOverload && e.portCapacity)
      && (n.lifecycle == WaitingForPort ==> n.nextTestAt == r.doneAt + 5 * SECOND)
      && (n.lifecycle != WaitingForPort ==> Six(n.lifecycle))
      && n.testLease.None? && n.testingFrom.None?
  {
    hide Next, NewRun, Disciplined;
    var events := EventSteps(r.id, run, incident, r.events);
    assert Held(db, r.id, 0);
    assert events[..|events|] == events;
    EventsAreDisciplined(cfg, db, run, incident, r, |r.events|);
    var mid := Play(cfg, db, events);
    if |r.events| > 0 {
      EventsEndTest(cfg, db, run, incident, r, |r.events|);
    }
    if WaitsForPort(r) {
      EventsKeepValid(cfg, db, run, incident, r, |r.events|);
    }
    PlayOneMore(cfg, db, events, LastStep(r));
    LastLeaves(cfg, mid, r);
  }

  lemma LastLeaves(cfg: Config, db: Db, r: Report)
    requires Held(db, r.id, |r.events|) && (WaitsForPort(r) ==> db.nodes[r.id].valid)
    requires |r.events| > 0 ==> Freed(db.nodes[r.id])
    ensures r.id in Next(cfg, db, LastStep(r)).nodes
    ensures var n := Next(cfg, db, LastStep(r)).nodes[r.id];
      && (n.lifecycle == WaitingForPort <==> WaitsForPort(r))
      && (n.lifecycle == WaitingForPort ==> n.nextTestAt == r.doneAt + 5 * SECOND)
      && (n.lifecycle != WaitingForPort ==> Six(n.lifecycle))
      && n.testLease.None? && n.testingFrom.None?
  {
  }

  // ---- An incident is neutral ----

  /** The step records no conclusive failure of the node. */
  predicate Gentle(t: Timed, id: NodeId) {
    t.step.Probe? && t.step.id == id ==> t.step.outcome.Success? || t.step.outcome.Inconclusive()
  }

  /** Counters no higher, lease no shorter, failure weight at `clock` no larger. */
  ghost predicate NoWorse(half: real -> real, before: Db, after: Db, id: NodeId, clock: int)
    requires id in before.nodes && id in after.nodes
  {
    && var n, n' := before.nodes[id], after.nodes[id];
    && n'.failureStreak <= n.failureStreak
    && n'.independentFailures <= n.independentFailures
    && (n.lease.Some? ==> n'.lease.Some? && n.lease.value <= n'.lease.value)
    && Weight(half, false, clock, WindowEvents(after.log, id, clock))
       <= Weight(half, false, clock, WindowEvents(before.log, id, clock))
  }

  lemma GentleLedger(cfg: Config, db: Db, t: Timed, id: NodeId)
    requires id in db.nodes && Gentle(t, id)
    ensures var l, l' := RowLedger(db.nodes[id]), RowLedger(RowStep(cfg, db, t, id));
      l'.streak <= l.streak && l'.independent <= l.independent
      && (l.lease.Some? ==> l'.lease.Some? && l.lease.value <= l'.lease.value)
  {
    hide ProbedRow, Logged, WindowEvents;
    if t.step.Probe? && t.step.id == id && Fresh(db, t.step) {
      ProbeRecords(cfg, LogStep(db, t), db.nodes[id], EventOf(t.step, t.now), t.step.draw);
    } else {
      OtherStepsKeepLedger(cfg, db, t, id);
    }
  }

  lemma GentleWeight(cfg: Config, db: Db, t: Timed, id: NodeId, clock: int)
    requires HalvingLaw(cfg.half) && Gentle(t, id)
    ensures Weight(cfg.half, false, clock, WindowEvents(LogStep(db, t), id, clock))
         <= Weight(cfg.half, false, clock, WindowEvents(db.log, id, clock))
  {
    hide WindowEvents, Weight;
    if t.step.Probe? && Fresh(db, t.step) {
      HarmlessEvent(cfg.half, db.log, EventOf(t.step, t.now), id, clock);
    }
  }

  lemma {:induction false} GentleStepsNoWorse(cfg: Config, db: Db, steps: seq<Timed>, id: NodeId, clock: int)
    requires cfg.Valid() && IdsBelow(db) && id in db.nodes
    requires forall i :: 0 <= i < |steps| ==> Gentle(steps[i], id)
    ensures id in Play(cfg, db, steps).nodes ==> NoWorse(cfg.half, db, Play(cfg, db, steps), id, clock)
    ensures IdsBelow(Play(cfg, db, steps)) && id < Play(cfg, db, steps).nextId
  {
    hide Next, RowStep, IdsBelow, Gentle, WindowEvents, Weight;
    if |steps| > 0 {
      var n := |steps| - 1;
      GentleStepsNoWorse(cfg, db, steps[..n], id, clock);
      var mid := Play(cfg, db, steps[..n]);
      NoReturn(cfg, mid, steps[n], id);
      if id in mid.nodes {
        GentleNext(cfg, mid, steps[n], id, clock);
      }
    } else {
      KnownIdsBelow(db, id);
    }
  }

  lemma KnownIdsBelow(db: Db, id: NodeId)
    requires IdsBelow(db) && id in db.nodes
    ensures id < db.nextId
  {
  }

  /** A deleted row does not come back under its old id. */
  lemma NoReturn(cfg: Config, db: Db, t: Timed, id: NodeId)
    requires IdsBelow(db) && id < db.nextId
    ensures id in Next(cfg, db, t).nodes ==> id in db.nodes
    ensures IdsBelow(Next(cfg, db, t)) && id < Next(cfg, db, t).nextId
  {
    hide Next, RowStep;
    NextRowWise(cfg, db, t);
  }

  lemma GentleNext(cfg: Config, db: Db, t: Timed, id: NodeId, clock: int)
    requires cfg.Valid() && IdsBelow(db) && id in db.nodes && Gentle(t, id)
    ensures id in Next(cfg, db, t).nodes ==> NoWorse(cfg.half, db, Next(cfg, db, t), id, clock)
  {
    hide Next, RowStep, IdsBelow, WindowEvents, Weight, LogStep;
    NextRowWise(cfg, db, t);
    GentleLedger(cfg, db, t, id);
    GentleWeight(cfg, db, t, id, clock);
  }

  lemma {:induction false} BatchIsGentle(runs: seq<RunId>, reports: seq<Report>, id: NodeId, i: nat)
    requires |runs| == |reports| && i < |BatchSteps(runs, true, reports)|
    requires forall r, e :: r in reports && r.id == id && e in r.events ==> !e.outcome.InvalidConfig?
    ensures Gentle(BatchSteps(runs, true, reports)[i], id)
  {
    var n := |reports| - 1;
    var head := BatchSteps(runs[..n], true, reports[..n]);
    if i < |head| {
      BatchIsGentle(runs[..n], reports[..n], id, i);
    } else {
      var r := reports[n];
      var k := i - |head|;
      if k < |r.events| {
        assert r.events[k] in r.events;
        assert BatchSteps(runs, true, reports)[i] == EventStep(r.id, runs[n], true, r.events[k]);
      } else {
        assert BatchSteps(runs, true, reports)[i] == LastStep(r);
      }
    }
  }

  /** When a batch is classified as an incident, applying it raises no failure counter, shortens no
      lease and adds no failure weight, at any clock, on any node without an INVALID_CONFIG event in the
      batch; and so however its statements interleave with other statements, as long as every event
      recorded for the node is one of the batch. */
  lemma IncidentIsNeutral(cfg: Config, db: Db, runs: seq<RunId>, reports: seq<Report>, threshold: nat,
                          steps: seq<Timed>, id: NodeId, clock: int)
    requires cfg.Valid() && IdsBelow(db) && id in db.nodes
    requires |runs| == |reports| && Verdict(reports, threshold).Some?
    requires forall r, e :: r in reports && r.id == id && e in r.events ==> !e.outcome.InvalidConfig?
    requires forall i :: 0 <= i < |steps| && steps[i].step.Probe? && steps[i].step.id == id ==>
               steps[i] in BatchSteps(runs, Verdict(reports, threshold).Some?, reports)
    ensures id in Play(cfg, db, steps).nodes ==> NoWorse(cfg.half, db, Play(cfg, db, steps), id, clock)
  {
    hide NoWorse, Play, IdsBelow, Gentle, BatchSteps;
    var batch := BatchSteps(runs, true, reports);
    forall i | 0 <= i < |steps|
      ensures Gentle(steps[i], id)
    {
      if steps[i].step.Probe? && steps[i].step.id == id {
        var k :| 0 <= k < |batch| && batch[k] == steps[i];
        BatchIsGentle(runs, reports, id, k);
      } else {
        OthersAreGentle(steps[i], id);
      }
    }
    GentleStepsNoWorse(cfg, db, steps, id, clock);
  }

  lemma OthersAreGentle(t: Timed, id: NodeId)
    requires !(t.step.Probe? && t.step.id == id)
    ensures Gentle(t, id)
  {
  }

  /** In particular when the batch is applied by itself, which deletes no row. */
  lemma BatchIsNeutral(cfg: Config, db: Db, runs: seq<RunId>, reports: seq<Report>, threshold: nat, id: NodeId,
                       clock: int)
    requires cfg.Valid() && IdsBelow(db) && id in db.nodes
    requires |runs| == |reports| && Verdict(reports, threshold).Some?
    requires forall r, e :: r in reports && r.id == id && e in r.events ==> !e.outcome.InvalidConfig?
    ensures var db' := Play(cfg, db, BatchSteps(runs, Verdict(reports, threshold).Some?, reports));
      id in db'.nodes && NoWorse(cfg.half, db, db', id, clock)
  {
    hide NoWorse, Play, IdsBelow, BatchSteps;
    IncidentIsNeutral(cfg, db, runs, reports, threshold, BatchSteps(runs, true, reports), id, clock);
    BatchDeletesNothing(cfg, db, runs, reports, id);
  }

  lemma {:induction false} StepsDeleteNothing(cfg: Config, db: Db, steps: seq<Timed>, id: NodeId)
    requires IdsBelow(db) && id in db.nodes && forall i :: 0 <= i < |steps| ==> !steps[i].step.CleanupRetired?
    ensures id in Play(cfg, db, steps).nodes && IdsBelow(Play(cfg, db, steps))
  {
    hide Next, RowStep;
    if |steps| > 0 {
      var n := |steps| - 1;
      StepsDeleteNothing(cfg, db, steps[..n], id);
      NextRowWise(cfg, Play(cfg, db, steps[..n]), steps[n]);
    }
  }

  lemma {:induction false} BatchHasNoCleanup(runs: seq<RunId>, reports: seq<Report>, i: nat)
    requires |runs| == |reports| && i < |BatchSteps(runs, true, reports)|
    ensures !BatchSteps(runs, true, reports)[i].step.CleanupRetired?
  {
    var n := |reports| - 1;
    var head := BatchSteps(runs[..n], true, reports[..n]);
    if i < |head| {
      BatchHasNoCleanup(runs[..n], reports[..n], i);
    }
  }

  lemma BatchDeletesNothing(cfg: Config, db: Db, runs: seq<RunId>, reports: seq<Report>, id: NodeId)
    requires IdsBelow(db) && id in db.nodes && |runs| == |reports|
    ensures id in Play(cfg, db, BatchSteps(runs, true, reports)).nodes
  {
    hide Play, IdsBelow, BatchSteps;
    var steps := BatchSteps(runs, true, reports);
    forall i | 0 <= i < |steps|
      ensures !steps[i].step.CleanupRetired?
    {
      BatchHasNoCleanup(runs, reports, i);
    }
    StepsDeleteNothing(cfg, db, steps, id);
  }
}
