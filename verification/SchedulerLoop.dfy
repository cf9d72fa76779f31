/** The scheduler's loop, tick after tick, interleaved with everything else, keeps the order of `Workers`. */
module SchedulerLoop {
  import opened Domain
  import opened Evidence
  import opened Database
  import opened Ledgers
  import opened Incident
  import opened App
  import opened Scheduler
  import opened Workers

  /** One pass of the loop: the rows it claimed, then the reports on them, each under its own run id.
      `recorded` holds the events of each report that the store accepted; an error there is only logged. */
  datatype Tick = Tick(now: int, leaseFor: int, jobs: seq<Job>, runs: seq<RunId>, incident: bool,
                       reports: seq<Report>, recorded: seq<seq<ProbeEvent>>)
  {
    /** The prober answers for claimed nodes, once each, and a node is parked only if its event was recorded. */
    ghost predicate Valid() {
      && |runs| == |reports| == |recorded|
      && (forall i :: 0 <= i < |reports| && WaitsForPort(reports[i]) ==> recorded[i] != [])
      && (forall i :: 0 <= i < |reports| ==> reports[i].id in Ids(jobs))
      && (forall i, j :: 0 <= i < j < |reports| ==> reports[i].id != reports[j].id)
    }
  }

  /** The events of a report that were recorded, then its wait or release. */
  function RecordedReport(run: RunId, incident: bool, r: Report, events: seq<ProbeEvent>): seq<Timed> {
    EventSteps(r.id, run, incident, events) + [LastStep(r)]
  }

  function RecordedBatch(t: Tick, n: nat): seq<Timed>
    requires |t.runs| == |t.reports| == |t.recorded| && n <= |t.reports|
  {
    if n == 0 then []
    else RecordedBatch(t, n - 1) + RecordedReport(t.runs[n - 1], t.incident, t.reports[n - 1], t.recorded[n - 1])
  }

  function TickSteps(t: Tick): seq<Timed>
    requires |t.runs| == |t.reports| == |t.recorded|
  {
    ClaimSteps(t.now, t.jobs, t.leaseFor) + RecordedBatch(t, |t.reports|)
  }

  /** When every event is recorded, the tick applies the batch as the loop does. */
  lemma {:induction false} FullTickIsBatch(t: Tick, n: nat)
    requires |t.runs| == |t.reports| == |t.recorded| && n <= |t.reports|
    requires forall i :: 0 <= i < |t.reports| ==> t.recorded[i] == t.reports[i].events
    ensures RecordedBatch(t, n) == BatchSteps(t.runs[..n], t.incident, t.reports[..n])
  {
    if n > 0 {
      FullTickIsBatch(t, n - 1);
      assert t.runs[..n][..n - 1] == t.runs[..n - 1] && t.reports[..n][..n - 1] == t.reports[..n - 1];
    }
  }

  /** A tick of which `done` statements were executed; the process may stop anywhere in it. */
  datatype Round = Round(tick: Tick, done: nat) {
    ghost predicate Valid() {
      tick.Valid() && done <= |TickSteps(tick)|
    }

    function Steps(): seq<Timed>
      requires Valid()
    {
      TickSteps(tick)[..done]
    }
  }

  ghost predicate AllValid(rounds: seq<Round>) {
    forall k :: 0 <= k < |rounds| ==> rounds[k].Valid()
  }

  function Script(rounds: seq<Round>): seq<Timed>
    requires AllValid(rounds)
  {
    if |rounds| == 0 then [] else Script(rounds[..|rounds| - 1]) + rounds[|rounds| - 1].Steps()
  }

  /** No probe among `steps` belongs to one of these runs. */
  ghost predicate NewRuns(steps: seq<Timed>, runs: seq<RunId>) {
    forall i :: 0 <= i < |steps| && steps[i].step.Probe? ==> steps[i].step.run !in runs
  }

  ghost predicate RunsAreNew(rounds: seq<Round>)
    requires AllValid(rounds)
  {
    forall k :: 0 <= k < |rounds| ==> NewRuns(Script(rounds[..k]), rounds[k].tick.runs)
  }

  // ---- The order of a list of worker statements ----

  predicate Worker(t: Timed) {
    t.step.Claim? || t.step.Probe? || t.step.Release? || t.step.Wait?
  }

  function PhaseStep(t: Timed, id: NodeId, p: Phase): Phase {
    match t.step
    case Claim(i, _, _) => if i == id then Claimed else p
    case Probe(i, _, _, _, _, _) => if i == id && p.Claimed? then Reported else p
    case Release(i) => if i == id then Idle else p
    case Wait(i, _) => if i == id then Idle else p
    case _ => p
  }

  /** The phase of a node after a list of statements, had all of them found their row. */
  function ScriptPhase(s: seq<Timed>, id: NodeId): Phase {
    if |s| == 0 then Idle else PhaseStep(s[|s| - 1], id, ScriptPhase(s[..|s| - 1], id))
  }

  ghost predicate NoProbe(s: seq<Timed>, id: NodeId, run: RunId) {
    forall i :: 0 <= i < |s| && s[i].step.Probe? ==> !(s[i].step.id == id && s[i].step.run == run)
  }

  /** After `s`, statement `t` comes in its turn. */
  ghost predicate OrderlyAt(s: seq<Timed>, t: Timed) {
    match t.step
    case Probe(id, run, _, _, _, _) =>
      !ScriptPhase(s, id).Idle? && (ScriptPhase(s, id).Claimed? ==> NoProbe(s, id, run))
    case Wait(id, _) => ScriptPhase(s, id).Reported?
    case _ => true
  }

  ghost predicate OrderlyAfter(s: seq<Timed>, more: seq<Timed>) {
    forall w :: 0 <= w < |more| ==> OrderlyAt(s + more[..w], more[w])
  }

  lemma OrderlyAppend(s: seq<Timed>, a: seq<Timed>, b: seq<Timed>)
    requires OrderlyAfter(s, a) && OrderlyAfter(s + a, b)
    ensures OrderlyAfter(s, a + b)
  {
    hide OrderlyAt;
    forall w | 0 <= w < |a + b|
      ensures OrderlyAt(s + (a + b)[..w], (a + b)[w])
    {
      if w < |a| {
        assert (a + b)[..w] == a[..w];
      } else {
        assert s + (a + b)[..w] == (s + a) + b[..w - |a|];
      }
    }
  }

  lemma OrderlyPrefix(s: seq<Timed>, more: seq<Timed>, n: nat)
    requires OrderlyAfter(s, more) && n <= |more|
    ensures OrderlyAfter(s, more[..n])
  {
    hide OrderlyAt;
    forall w | 0 <= w < n
      ensures OrderlyAt(s + more[..n][..w], more[..n][w])
    {
      assert more[..n][..w] == more[..w];
    }
  }

  lemma PhaseSnoc(s: seq<Timed>, t: Timed, id: NodeId)
    ensures ScriptPhase(s + [t], id) == PhaseStep(t, id, ScriptPhase(s, id))
  {
    assert (s + [t])[..|s|] == s;
  }

  /** Statements about other nodes leave a node's phase and its runs alone. */
  lemma {:induction false} OthersKeepPhase(s: seq<Timed>, more: seq<Timed>, id: NodeId, run: RunId)
    requires forall w :: 0 <= w < |more| ==> Worker(more[w]) && NodeOf(more[w]) != id
    ensures ScriptPhase(s + more, id) == ScriptPhase(s, id)
    ensures NoProbe(s, id, run) ==> NoProbe(s + more, id, run)
  {
    if |more| == 0 {
      assert s + more == s;
    } else {
      var n := |more| - 1;
      OthersKeepPhase(s, more[..n], id, run);
      PhaseSnoc(s + more[..n], more[n], id);
      assert s + more == (s + more[..n]) + [more[n]];
    }
  }

  // ---- One tick is orderly ----

  lemma {:induction false} ClaimsAreOrderly(s: seq<Timed>, now: int, jobs: seq<Job>, leaseFor: int, id: NodeId)
    ensures OrderlyAfter(s, ClaimSteps(now, jobs, leaseFor))
    ensures id in Ids(jobs) ==> ScriptPhase(s + ClaimSteps(now, jobs, leaseFor), id).Claimed?
  {
    var claims := ClaimSteps(now, jobs, leaseFor);
    if |jobs| > 0 {
      var n := |jobs| - 1;
      ClaimsAreOrderly(s, now, jobs[..n], leaseFor, id);
      assert claims[..n] == ClaimSteps(now, jobs[..n], leaseFor);
      assert s + claims == (s + claims[..n]) + [claims[n]];
      PhaseSnoc(s + claims[..n], claims[n], id);
      assert jobs == jobs[..n] + [jobs[n]];
    }
  }

  lemma {:induction false} EventsAreOrderly(s: seq<Timed>, id: NodeId, run: RunId, incident: bool,
                                            events: seq<ProbeEvent>,
                                            k: nat)
    requires k <= |events| && ScriptPhase(s, id).Claimed? && NoProbe(s, id, run)
    ensures OrderlyAfter(s, EventSteps(id, run, incident, events)[..k])
    ensures ScriptPhase(s + EventSteps(id, run, incident, events)[..k], id) == if k == 0 then Claimed else Reported
  {
    var steps := EventSteps(id, run, incident, events);
    if k == 0 {
      assert s + steps[..0] == s;
    } else {
      EventsAreOrderly(s, id, run, incident, events, k - 1);
      var head := steps[..k - 1];
      assert steps[..k] == head + [steps[k - 1]];
      PhaseSnoc(s + head, steps[k - 1], id);
      assert s + steps[..k] == (s + head) + [steps[k - 1]];
      if k == 1 {
        assert s + head == s;
      }
      OrderlyOne(s + head, steps[k - 1]);
      OrderlyAppend(s, head, [steps[k - 1]]);
    }
  }

  lemma OrderlyOne(s: seq<Timed>, t: Timed)
    requires OrderlyAt(s, t)
    ensures OrderlyAfter(s, [t])
  {
    hide OrderlyAt;
    assert s + [t][..0] == s;
  }

  lemma ReportIsOrderly(s: seq<Timed>, run: RunId, incident: bool, r: Report, events: seq<ProbeEvent>)
    requires ScriptPhase(s, r.id).Claimed? && NoProbe(s, r.id, run)
    requires WaitsForPort(r) ==> events != []
    ensures OrderlyAfter(s, RecordedReport(run, incident, r, events))
    ensures forall w :: 0 <= w < |RecordedReport(run, incident, r, events)| ==>
              var t := RecordedReport(run, incident, r, events)[w]; Worker(t) && NodeOf(t) == r.id
  {
    var steps := EventSteps(r.id, run, incident, events);
    EventsAreOrderly(s, r.id, run, incident, events, |events|);
    assert steps[..|events|] == steps;
    OrderlyOne(s + steps, LastStep(r));
    OrderlyAppend(s, steps, [LastStep(r)]);
  }

  /** The reports before the `n`-th do not touch its node. */
  lemma {:induction false} BatchIsOrderly(s: seq<Timed>, t: Tick, n: nat, id: NodeId, run: RunId)
    requires t.Valid() && n <= |t.reports|
    requires forall x :: x in Ids(t.jobs) ==> ScriptPhase(s, x).Claimed?
    requires NewRuns(s, t.runs)
    ensures OrderlyAfter(s, RecordedBatch(t, n))
    ensures (forall k :: 0 <= k < n ==> t.reports[k].id != id) ==>
              ScriptPhase(s + RecordedBatch(t, n), id) == ScriptPhase(s, id)
              && (NoProbe(s, id, run) ==> NoProbe(s + RecordedBatch(t, n), id, run))
  {
    hide OrderlyAfter, ScriptPhase, RecordedReport, NoProbe;
    var steps := RecordedBatch(t, n);
    if n == 0 {
      assert steps == [] && s + [] == s;
      OrderlyNothing(s);
    } else {
      var r, own := t.reports[n - 1], t.runs[n - 1];
      var head, tail := RecordedBatch(t, n - 1), RecordedReport(own, t.incident, r, t.recorded[n - 1]);
      BatchIsOrderly(s, t, n - 1, r.id, own);
      NewRunIsUnused(s, t.runs, own, r.id);
      ReportIsOrderly(s + head, own, t.incident, r, t.recorded[n - 1]);
      OrderlyAppend(s, head, tail);
      BatchIsOrderly(s, t, n - 1, id, run);
      assert s + steps == (s + head) + tail;
      if r.id != id {
        OthersKeepPhase(s + head, tail, id, run);
      }
    }
  }

  lemma OrderlyNothing(s: seq<Timed>)
    ensures OrderlyAfter(s, [])
  {
  }

  lemma NewRunIsUnused(s: seq<Timed>, runs: seq<RunId>, run: RunId, id: NodeId)
    requires NewRuns(s, runs) && run in runs
    ensures NoProbe(s, id, run)
  {
  }

  lemma TickIsOrderly(s: seq<Timed>, t: Tick)
    requires t.Valid() && NewRuns(s, t.runs)
    ensures OrderlyAfter(s, TickSteps(t))
  {
    hide OrderlyAfter, ScriptPhase;
    var claims := ClaimSteps(t.now, t.jobs, t.leaseFor);
    forall x | x in Ids(t.jobs)
      ensures ScriptPhase(s + claims, x).Claimed?
    {
      ClaimsAreOrderly(s, t.now, t.jobs, t.leaseFor, x);
    }
    ClaimsAreOrderly(s, t.now, t.jobs, t.leaseFor, 0);
    BatchIsOrderly(s + claims, t, |t.reports|, 0, "");
    OrderlyAppend(s, claims, RecordedBatch(t, |t.reports|));
  }

  lemma {:induction false} ScriptIsOrderly(rounds: seq<Round>)
    requires AllValid(rounds) && RunsAreNew(rounds)
    ensures OrderlyAfter([], Script(rounds))
  {
    hide OrderlyAfter, NewRuns, TickSteps;
    if |rounds| == 0 {
      OrderlyNothing([]);
    } else {
      var n := |rounds| - 1;
      var init, last := rounds[..n], rounds[n];
      assert forall k :: 0 <= k < n ==> init[..k] == rounds[..k];
      ScriptIsOrderly(init);
      TickIsOrderly(Script(init), last.tick);
      OrderlyPrefix(Script(init), TickSteps(last.tick), last.done);
      assert [] + Script(init) == Script(init);
      OrderlyAppend([], Script(init), last.Steps());
    }
  }

  // ---- From the script to the history ----

  /** The scheduler's own statements of a history. */
  function Own(tr: seq<Timed>): seq<Timed> {
    if |tr| == 0 then [] else Own(tr[..|tr| - 1]) + (if Worker(tr[|tr| - 1]) then [tr[|tr| - 1]] else [])
  }

  lemma {:induction false} OwnPrefix(tr: seq<Timed>, i: nat)
    requires i < |tr|
    ensures Own(tr[..i + 1]) == Own(tr[..i]) + (if Worker(tr[i]) then [tr[i]] else [])
    ensures Own(tr[..i + 1]) <= Own(tr)
    decreases |tr| - i
  {
    assert tr[..i + 1][..i] == tr[..i];
    if i + 1 < |tr| {
      OwnPrefix(tr, i + 1);
    } else {
      assert tr[..i + 1] == tr;
    }
  }

  /** Every claim statement of the history found its row; the others leave no job. */
  ghost predicate ClaimsSucceed(cfg: Config, tr: seq<Timed>) {
    forall i :: 0 <= i < |tr| && tr[i].step.Claim? ==>
                  var db := State(cfg, tr, i);
                  tr[i].step.id in db.nodes && tr[i].step.queue.Queue()
                  && Eligible(db.nodes[tr[i].step.id], tr[i].step.queue, tr[i].now)
  }

  /** The phase in the history is the phase in the script, but for a row deleted under test. */
  ghost predicate Tracks(db: Db, p: Phase, s: Phase, id: NodeId) {
    && (p == s || (s.Reported? && p.Claimed? && id !in db.nodes))
    && (!p.Idle? ==> id < db.nextId)
  }

  ghost predicate Observed(own: seq<Timed>, e: TestEvent) {
    exists k :: 0 <= k < |own| && own[k].step.Probe? && own[k].step.id == e.id && own[k].step.run == e.run
  }

  ghost predicate LogIsOwn(log: Log, own: seq<Timed>) {
    forall i :: 0 <= i < |log| ==> Observed(own, log[i])
  }

  lemma StepTracks(cfg: Config, db: Db, t: Timed, db': Db, own: seq<Timed>, p: Phase, s: Phase, id: NodeId)
    requires RowWise(cfg, db, t, db') && IdsBelow(db) && Tracks(db, p, s, id) && s == ScriptPhase(own, id)
    requires LogIsOwn(db.log, own)
    requires t.step.Claim? ==>
               t.step.id in db.nodes && t.step.queue.Queue() && Eligible(db.nodes[t.step.id], t.step.queue, t.now)
    requires Worker(t) ==> OrderlyAt(own, t)
    ensures Tracks(db', PhaseAfter(db, t, id, p), if Worker(t) then PhaseStep(t, id, s) else s, id)
    ensures Worker(t) && NodeOf(t) == id ==> InTurn(db, t, p)
  {
    hide RowStep, Eligible, NewRow;
    if t.step.Probe? && t.step.id == id && s.Claimed? && id in db.nodes {
      UnusedRunIsFresh(db.log, own, id, t.step.run, t.step.stage);
    }
  }

  lemma UnusedRunIsFresh(log: Log, own: seq<Timed>, id: NodeId, run: RunId, stage: TestStage)
    requires LogIsOwn(log, own) && NoProbe(own, id, run)
    ensures !Logged(log, id, run, stage)
  {
  }

  lemma LogStaysOwn(cfg: Config, db: Db, t: Timed, own: seq<Timed>)
    requires LogIsOwn(db.log, own)
    ensures LogIsOwn(LogStep(db, t), own + (if Worker(t) then [t] else []))
  {
    hide Fresh;
    var log, more := LogStep(db, t), own + (if Worker(t) then [t] else []);
    forall i | 0 <= i < |log|
      ensures Observed(more, log[i])
    {
      if i < |db.log| {
        var k :| 0 <= k < |own| && own[k].step.Probe? && own[k].step.id == db.log[i].id
                && own[k].step.run == db.log[i].run;
        assert more[k] == own[k];
      } else {
        assert more[|own|] == t;
      }
    }
  }

  lemma {:induction false} HistoryTracks(cfg: Config, tr: seq<Timed>, i: nat, id: NodeId)
    requires i <= |tr| && ClaimsSucceed(cfg, tr) && OrderlyAfter([], Own(tr))
    ensures Tracks(State(cfg, tr, i), PhaseAt(cfg, tr, i, id), ScriptPhase(Own(tr[..i]), id), id)
    ensures LogIsOwn(State(cfg, tr, i).log, Own(tr[..i]))
  {
    hide Next, RowStep, PhaseAfter, PhaseStep, Eligible, OrderlyAt, LogStep;
    if i > 0 {
      var db, t := State(cfg, tr, i - 1), tr[i - 1];
      HistoryTracks(cfg, tr, i - 1, id);
      OwnPrefix(tr, i - 1);
      HistoryRowWise(cfg, tr, i - 1);
      RowsFollowTheLog(cfg, tr, i - 1);
      OwnIsOrderly(tr, i - 1);
      StepTracks(cfg, db, t, State(cfg, tr, i), Own(tr[..i - 1]), PhaseAt(cfg, tr, i - 1, id),
                 ScriptPhase(Own(tr[..i - 1]), id), id);
      LogStaysOwn(cfg, db, t, Own(tr[..i - 1]));
      PhaseSnoc(Own(tr[..i - 1]), t, id);
      assert Own(tr[..i - 1]) + [] == Own(tr[..i - 1]);
    } else {
      assert tr[..0] == [];
    }
  }

  lemma OwnIsOrderly(tr: seq<Timed>, i: nat)
    requires i < |tr| && OrderlyAfter([], Own(tr))
    ensures Worker(tr[i]) ==> OrderlyAt(Own(tr[..i]), tr[i])
  {
    hide OrderlyAt, Own;
    OwnPrefix(tr, i);
    if Worker(tr[i]) {
      var w := |Own(tr[..i])|;
      assert Own(tr)[w] == tr[i] && [] + Own(tr)[..w] == Own(tr[..i]);
    }
  }

  /** Any interleaving of the loop's rounds, each possibly cut short by a stop of the process and with
      events that could not be recorded, with refreshes, imports and operator actions keeps the order
      that the refinement needs. */
  lemma LoopIsInTurn(cfg: Config, tr: seq<Timed>, rounds: seq<Round>)
    requires AllValid(rounds) && RunsAreNew(rounds) && Own(tr) == Script(rounds) && ClaimsSucceed(cfg, tr)
    ensures WorkersInTurn(cfg, tr)
  {
    hide State, PhaseAt, Own, Script, RunsAreNew, AllValid, Eligible, OrderlyAt, InTurn;
    ScriptIsOrderly(rounds);
    forall i | 0 <= i < |tr|
      ensures InTurn(State(cfg, tr, i), tr[i], PhaseAt(cfg, tr, i, NodeOf(tr[i])))
    {
      var id := NodeOf(tr[i]);
      if Worker(tr[i]) {
        HistoryTracks(cfg, tr, i, id);
        OwnIsOrderly(tr, i);
        HistoryRowWise(cfg, tr, i);
        RowsFollowTheLog(cfg, tr, i);
        StepTracks(cfg, State(cfg, tr, i), tr[i], State(cfg, tr, i + 1), Own(tr[..i]),
                   PhaseAt(cfg, tr, i, id), ScriptPhase(Own(tr[..i]), id), id);
      } else {
        OthersAreInTurn(State(cfg, tr, i), tr[i], PhaseAt(cfg, tr, i, id));
      }
    }
  }

  lemma OthersAreInTurn(db: Db, t: Timed, p: Phase)
    requires !Worker(t)
    ensures InTurn(db, t, p)
  {
  }
}
