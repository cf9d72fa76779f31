/** Workers interleaved with everything else: claim, report, then park or release. */
module Workers {
  import opened Domain
  import opened Health
  import opened Evidence
  import opened Database
  import opened Ledgers
  import opened Lifecycle
  import opened Reconciliation

  /** Where the single scheduler stands with a node: not at work on it, claimed, or claimed and reported on. */
  datatype Phase = Idle | Claimed | Reported

  function PhaseAfter(db: Db, t: Timed, id: NodeId, p: Phase): Phase {
    match t.step
    case Claim(i, queue, _) =>
      if i == id && id in db.nodes && queue.Queue() && Eligible(db.nodes[id], queue, t.now) then Claimed else p
    case Probe(i, _, _, _, _, _) => if i == id && p.Claimed? && Fresh(db, t.step) then Reported else p
    case Release(i) => if i == id then Idle else p
    case Wait(i, _) => if i == id then Idle else p
    case _ => p
  }

  function PhaseAt(cfg: Config, tr: seq<Timed>, i: nat, id: NodeId): Phase
    requires i <= |tr|
  {
    if i == 0 then Idle else PhaseAfter(State(cfg, tr, i - 1), tr[i - 1], id, PhaseAt(cfg, tr, i - 1, id))
  }

  /** The scheduler's own statements come in the order of its loop: it probes nodes it has claimed, and
      parks a node only after an event of its run.  Refreshes, operators and the other nodes' statements
      may come in between at any point. */
  ghost predicate InTurn(db: Db, t: Timed, p: Phase) {
    match t.step
    case Probe(_, _, _, _, _, _) => !p.Idle?
    case Wait(id, _) => p.Reported? || id !in db.nodes
    case _ => true
  }

  function NodeOf(t: Timed): NodeId {
    match t.step
    case Claim(id, _, _) => id
    case Probe(id, _, _, _, _, _) => id
    case Release(id) => id
    case Wait(id, _) => id
    case _ => 0
  }

  ghost predicate WorkersInTurn(cfg: Config, tr: seq<Timed>) {
    forall i :: 0 <= i < |tr| ==> InTurn(State(cfg, tr, i), tr[i], PhaseAt(cfg, tr, i, NodeOf(tr[i])))
  }

  /** A claimed row is not parked, and after the first event it is not busy at all. */
  ghost predicate Fits(n: Node, p: Phase) {
    match p
    case Idle => true
    case Claimed => !n.lifecycle.WaitingForPort?
    case Reported => !Busy(n)
  }

  lemma ProbeFits(cfg: Config, log: Log, n: Node, e: TestEvent, draw: nat)
    requires Shaped(n) && !n.lifecycle.WaitingForPort?
    ensures !Busy(ProbedRow(cfg, log, n, e, draw))
  {
    hide WindowEvents, Alpha, Beta, Score, NextTestAt;
  }

  lemma StepFits(cfg: Config, db: Db, t: Timed, id: NodeId, p: Phase)
    requires id in db.nodes && Shaped(db.nodes[id]) && Fits(db.nodes[id], p)
    requires NodeOf(t) == id ==> InTurn(db, t, p)
    ensures Fits(RowStep(cfg, db, t, id), PhaseAfter(db, t, id, p))
  {
    hide ProbedRow, Logged, EarlierGens, HashesAt, IsManual, Eligible;
    if t.step.Probe? && t.step.id == id && Fresh(db, t.step) {
      ProbeFits(cfg, LogStep(db, t), db.nodes[id], EventOf(t.step, t.now), t.step.draw);
    }
  }

  lemma {:induction false} RowsFitTheirPhase(cfg: Config, tr: seq<Timed>, i: nat, id: NodeId)
    requires i <= |tr| && WorkersInTurn(cfg, tr) && id in State(cfg, tr, i).nodes
    ensures Fits(State(cfg, tr, i).nodes[id], PhaseAt(cfg, tr, i, id))
  {
    hide Next, RowStep, PhaseAfter, InTurn;
    if i > 0 {
      var before := State(cfg, tr, i - 1);
      HistoryRowWise(cfg, tr, i - 1);
      RowsAreShaped(cfg, tr, i - 1);
      if id in before.nodes {
        RowsFitTheirPhase(cfg, tr, i - 1, id);
        StepFits(cfg, before, tr[i - 1], id, PhaseAt(cfg, tr, i - 1, id));
      } else {
        NewRowFits(before, tr[i - 1], id, PhaseAt(cfg, tr, i - 1, id));
      }
    }
  }

  lemma NewRowFits(db: Db, t: Timed, id: NodeId, p: Phase)
    requires t.step.Ingest?
    ensures Fits(NewRow(t.step.proxy, t.step.gen, t.now), PhaseAfter(db, t, id, p))
  {
  }

  /** However the scheduler's statements are interleaved with refreshes and operator actions,
      the history never parks a busy row and never probes a parked one, so the refinement
      of the six-state machine applies to it. */
  lemma WorkersAreDisciplined(cfg: Config, tr: seq<Timed>)
    requires WorkersInTurn(cfg, tr)
    ensures DisciplinedRun(cfg, tr)
  {
    hide State, PhaseAt, Logged;
    forall i | 0 <= i < |tr|
      ensures Disciplined(State(cfg, tr, i), tr[i])
    {
      var id := NodeOf(tr[i]);
      if id in State(cfg, tr, i).nodes {
        RowsFitTheirPhase(cfg, tr, i, id);
      }
    }
  }

  /** Every row's origin then follows the six-state machine. */
  lemma InterleavedHistoryRefines(cfg: Config, tr: seq<Timed>, i: nat, id: NodeId)
    requires i < |tr| && WorkersInTurn(cfg, tr)
    requires id in State(cfg, tr, i).nodes && id in State(cfg, tr, i + 1).nodes
    ensures Six(Origin(State(cfg, tr, i).nodes[id]))
    ensures Refines(cfg, State(cfg, tr, i), tr[i], id)
  {
    hide State, Six, Refines;
    WorkersAreDisciplined(cfg, tr);
    HistoryRefines(cfg, tr, i, id);
  }

  // ---- Rows parked while retired ----

  /** In the order of the loop no parked row is ever probed: a late observation cannot bring it back. */
  lemma ParkedRowsAreNotProbed(cfg: Config, tr: seq<Timed>, i: nat)
    requires i < |tr| && WorkersInTurn(cfg, tr) && tr[i].step.Probe? && Fresh(State(cfg, tr, i), tr[i].step)
    ensures !State(cfg, tr, i).nodes[tr[i].step.id].lifecycle.WaitingForPort?
  {
    hide State, Logged;
    WorkersAreDisciplined(cfg, tr);
    assert Disciplined(State(cfg, tr, i), tr[i]);
  }

  lemma ParkedRetiredStep(cfg: Config, db: Db, t: Timed, id: NodeId)
    requires id in db.nodes && ParkedRetired(db.nodes[id])
    requires NodeOf(t) == id ==> InTurn(db, t, Idle)
    ensures ParkedRetired(RowStep(cfg, db, t, id)) || RowStep(cfg, db, t, id).lifecycle.Retired?
    ensures PhaseAfter(db, t, id, Idle).Idle?
    ensures !t.step.CleanupRetired? || !Tombstoned(db.nodes[id], t.now)
  {
    hide RowStep, Logged;
    ParkedRetiredIsStuck(cfg, db, t, id);
  }

  /** Once a row has been parked while retired and the scheduler has let go of it, it stays so, through
      every upstream reappearance and operator action, until another complete refresh retires it again. */
  lemma {:induction false} ParkedRetiredStays(cfg: Config, tr: seq<Timed>, i: nat, j: nat, id: NodeId)
    requires i <= j <= |tr| && WorkersInTurn(cfg, tr)
    requires id in State(cfg, tr, i).nodes && ParkedRetired(State(cfg, tr, i).nodes[id])
    requires PhaseAt(cfg, tr, i, id).Idle?
    requires forall k :: i <= k < j ==> !Retires(cfg, tr, k, id)
    ensures id in State(cfg, tr, j).nodes && ParkedRetired(State(cfg, tr, j).nodes[id])
    ensures PhaseAt(cfg, tr, j, id).Idle?
  {
    hide Next, RowStep, PhaseAfter, InTurn, Tombstoned;
    if i < j {
      ParkedRetiredStays(cfg, tr, i, j - 1, id);
      HistoryRowWise(cfg, tr, j - 1);
      ParkedRetiredStep(cfg, State(cfg, tr, j - 1), tr[j - 1], id);
      assert !Retires(cfg, tr, j - 1, id);
    }
  }

  // ---- Rows left under test ----

  /** The statement is not one of a worker that has the node in its hands. */
  predicate LeavesAlone(t: Timed, id: NodeId) {
    !((t.step.Probe? && t.step.id == id) || (t.step.Wait? && t.step.id == id) || (t.step.Release? && t.step.id == id))
  }

  lemma TestingStep(cfg: Config, db: Db, t: Timed, id: NodeId)
    requires id in db.nodes && db.nodes[id].lifecycle.Testing? && LeavesAlone(t, id)
    ensures RowStep(cfg, db, t, id).lifecycle.Testing? || RowStep(cfg, db, t, id).lifecycle.Retired?
    ensures Stranded(db.nodes[id])
  {
    hide ProbedRow, Logged, EarlierGens, HashesAt, IsManual;
  }

  /** When the process stops between a claim and its report, the row stays TESTING and out of every
      queue, through restarts, operator actions and upstream sightings, until a complete refresh retires it. */
  lemma {:induction false} AbandonedTestStays(cfg: Config, tr: seq<Timed>, i: nat, j: nat, id: NodeId)
    requires i <= j <= |tr| && id in State(cfg, tr, i).nodes && State(cfg, tr, i).nodes[id].lifecycle.Testing?
    requires forall k :: i <= k < j ==> LeavesAlone(tr[k], id) && !Retires(cfg, tr, k, id)
    ensures id in State(cfg, tr, j).nodes && State(cfg, tr, j).nodes[id].lifecycle.Testing?
    ensures Stranded(State(cfg, tr, j).nodes[id])
  {
    hide Next, RowStep, LeavesAlone;
    if i < j {
      AbandonedTestStays(cfg, tr, i, j - 1, id);
      HistoryRowWise(cfg, tr, j - 1);
      TestingStep(cfg, State(cfg, tr, j - 1), tr[j - 1], id);
      assert !Retires(cfg, tr, j - 1, id);
    }
  }
}
