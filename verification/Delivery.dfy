/** Workers may deliver an observation more than once, and may deliver noise. */
module Delivery {
  import opened Domain
  import opened Evidence
  import opened Database
  import opened Ledgers

  datatype Key = Key(id: NodeId, run: RunId, stage: TestStage)

  function KeyOf(t: Timed): Key
    requires t.step.Probe?
  {
    Key(t.step.id, t.step.run, t.step.stage)
  }

  predicate Probes(ps: seq<Timed>) {
    forall i | 0 <= i < |ps| :: ps[i].step.Probe?
  }

  predicate Mentions(ps: seq<Timed>, key: Key)
    requires Probes(ps)
  {
    exists i | 0 <= i < |ps| :: KeyOf(ps[i]) == key
  }

  /** The delivery with every repeat of a (node, run, stage) dropped. */
  function FirstOccurrences(ps: seq<Timed>): (r: seq<Timed>)
    requires Probes(ps)
    ensures Probes(r)
  {
    if |ps| == 0 then []
    else
      var init := ps[..|ps| - 1];
      FirstOccurrences(init) + (if Mentions(init, KeyOf(ps[|ps| - 1])) then [] else [ps[|ps| - 1]])
  }

  predicate Settled(db: Db, key: Key) {
    key.id !in db.nodes || Logged(db.log, key.id, key.run, key.stage)
  }

  lemma LoggedGrows(log: Log, log': Log, key: Key)
    requires log <= log' && Logged(log, key.id, key.run, key.stage)
    ensures Logged(log', key.id, key.run, key.stage)
  {
    var i :| 0 <= i < |log| && log[i].id == key.id && log[i].run == key.run && log[i].stage == key.stage;
    assert log'[i] == log[i];
  }

  lemma ProbeSettles(cfg: Config, db: Db, t: Timed, key: Key)
    requires t.step.Probe? && (KeyOf(t) == key || Settled(db, key))
    ensures Settled(Next(cfg, db, t), key)
    ensures Next(cfg, db, t).nodes.Keys == db.nodes.Keys
    ensures db.log <= Next(cfg, db, t).log
  {
    hide ProbedRow;
    var db' := Next(cfg, db, t);
    assert db'.nodes.Keys == db.nodes.Keys;
    if Fresh(db, t.step) {
      var n := |db.log|;
      assert db'.log[n] == EventOf(t.step, t.now);
    }
    if Logged(db.log, key.id, key.run, key.stage) {
      LoggedGrows(db.log, db'.log, key);
    }
  }

  lemma {:induction false} DeliveredIsSettled(cfg: Config, db: Db, ps: seq<Timed>, key: Key)
    requires Probes(ps) && Mentions(ps, key)
    ensures Settled(Play(cfg, db, ps), key)
  {
    hide Next, Settled;
    var n := |ps| - 1;
    if KeyOf(ps[n]) != key {
      var i :| 0 <= i < |ps| && KeyOf(ps[i]) == key;
      assert ps[..n][i] == ps[i];
      DeliveredIsSettled(cfg, db, ps[..n], key);
    }
    ProbeSettles(cfg, Play(cfg, db, ps[..n]), ps[n], key);
  }

  /** At-least-once delivery equals exactly-once delivery: from any store, replaying
      events with repeats gives the same tables as keeping first occurrences only. */
  lemma {:induction false} RepeatsChangeNothing(cfg: Config, db: Db, ps: seq<Timed>)
    requires Probes(ps)
    ensures Play(cfg, db, ps) == Play(cfg, db, FirstOccurrences(ps))
  {
    if |ps| > 0 {
      var n := |ps| - 1;
      var firsts := FirstOccurrences(ps[..n]);
      RepeatsChangeNothing(cfg, db, ps[..n]);
      if Mentions(ps[..n], KeyOf(ps[n])) {
        DeliveredIsSettled(cfg, db, ps[..n], KeyOf(ps[n]));
        assert !Fresh(Play(cfg, db, ps[..n]), ps[n].step);
        assert FirstOccurrences(ps) == firsts;
      } else {
        assert (firsts + [ps[n]])[..|firsts|] == firsts;
      }
    }
  }

  /** The same with any other steps in between: in every history, a probe repeating an
      earlier one that found its node is a no-op. */
  lemma RepeatedProbeIsNoOp(cfg: Config, tr: seq<Timed>, i: nat, j: nat)
    requires i < j < |tr| && tr[i].step.Probe? && tr[j].step.Probe? && KeyOf(tr[i]) == KeyOf(tr[j])
    requires tr[i].step.id in State(cfg, tr, i).nodes
    ensures State(cfg, tr, j + 1) == State(cfg, tr, j)
  {
    hide Next, RowStep, ProbedRow;
    var key := KeyOf(tr[i]);
    ProbeSettles(cfg, State(cfg, tr, i), tr[i], key);
    assert key.id in State(cfg, tr, i + 1).nodes;
    LogGrows(cfg, tr, i + 1, j);
    LoggedGrows(State(cfg, tr, i + 1).log, State(cfg, tr, j).log, key);
    StaleProbe(cfg, State(cfg, tr, j), tr[j]);
  }

  lemma StaleProbe(cfg: Config, db: Db, t: Timed)
    requires t.step.Probe? && !Fresh(db, t.step)
    ensures Next(cfg, db, t) == db
  {
  }

  lemma {:induction false} LogGrows(cfg: Config, tr: seq<Timed>, i: nat, j: nat)
    requires i <= j <= |tr|
    ensures State(cfg, tr, i).log <= State(cfg, tr, j).log
  {
    hide Next, RowStep;
    if i < j {
      LogGrows(cfg, tr, i, j - 1);
      HistoryRowWise(cfg, tr, j - 1);
    }
  }

  // ---- Noise ----

  /** The delivery with every inconclusive observation dropped. */
  function Quiet(ps: seq<Timed>): (r: seq<Timed>)
    requires Probes(ps)
    ensures Probes(r)
    ensures forall i :: 0 <= i < |r| ==> r[i] in ps
  {
    if |ps| == 0 then []
    else
      Quiet(ps[..|ps| - 1]) + (if ps[|ps| - 1].step.outcome.Inconclusive() then [] else [ps[|ps| - 1]])
  }

  /** A conclusive observation of this run and stage is among them. */
  predicate Concludes(ps: seq<Timed>, key: Key)
    requires Probes(ps)
  {
    exists i | 0 <= i < |ps| :: KeyOf(ps[i]) == key && !ps[i].step.outcome.Inconclusive()
  }

  /** The j-th observation is the first conclusive one of its run and stage, but comes
      after an inconclusive one that the store will have recorded in its place. */
  predicate ShadowedAt(db: Db, ps: seq<Timed>, j: nat)
    requires Probes(ps) && j < |ps|
  {
    && !ps[j].step.outcome.Inconclusive() && Fresh(db, ps[j].step)
    && Mentions(ps[..j], KeyOf(ps[j])) && !Concludes(ps[..j], KeyOf(ps[j]))
  }

  ghost predicate Shadowed(db: Db, ps: seq<Timed>)
    requires Probes(ps)
  {
    exists j: nat | j < |ps| :: ShadowedAt(db, ps, j)
  }

  lemma MentionsSnoc(ps: seq<Timed>, t: Timed, key: Key)
    requires Probes(ps) && t.step.Probe?
    ensures Probes(ps + [t])
    ensures Mentions(ps + [t], key) <==> Mentions(ps, key) || KeyOf(t) == key
    ensures Concludes(ps + [t], key) <==> Concludes(ps, key) || (KeyOf(t) == key && !t.step.outcome.Inconclusive())
  {
    var more := ps + [t];
    assert more[|ps|] == t;
    assert forall i :: 0 <= i < |ps| ==> more[i] == ps[i];
  }

  lemma {:induction false} QuietMentions(ps: seq<Timed>, key: Key)
    requires Probes(ps)
    ensures Mentions(Quiet(ps), key) <==> Concludes(ps, key)
  {
    if |ps| > 0 {
      var init, t := ps[..|ps| - 1], ps[|ps| - 1];
      assert ps == init + [t];
      QuietMentions(init, key);
      hide Mentions, Concludes;
      MentionsSnoc(init, t, key);
      MentionsSnoc(Quiet(init), t, key);
      assert Quiet(init) + [] == Quiet(init);
    }
  }

  lemma ShadowedPrefix(db: Db, ps: seq<Timed>)
    requires Probes(ps) && |ps| > 0 && !Shadowed(db, ps)
    ensures !Shadowed(db, ps[..|ps| - 1])
  {
    var init := ps[..|ps| - 1];
    forall j: nat | j < |init|
      ensures !ShadowedAt(db, init, j)
    {
      assert init[..j] == ps[..j];
      assert !ShadowedAt(db, ps, j);
    }
  }

  lemma {:induction false} LoggedByWhom(cfg: Config, db: Db, ps: seq<Timed>, key: Key)
    requires Probes(ps)
    ensures Logged(Play(cfg, db, ps).log, key.id, key.run, key.stage) ==>
              Logged(db.log, key.id, key.run, key.stage) || Mentions(ps, key)
    ensures db.log <= Play(cfg, db, ps).log
    ensures Play(cfg, db, ps).nodes.Keys == db.nodes.Keys
  {
    hide ProbedRow;
    if |ps| > 0 {
      var n := |ps| - 1;
      var mid := Play(cfg, db, ps[..n]);
      LoggedByWhom(cfg, db, ps[..n], key);
      ProbeSettles(cfg, mid, ps[n], KeyOf(ps[n]));
      assert Mentions(ps[..n], key) ==> Mentions(ps, key) by {
        assert forall i :: 0 <= i < n ==> ps[..n][i] == ps[i];
      }
    }
  }

  /** After a delivery an observation is new exactly when it was new before and is not in the delivery. */
  lemma FreshAfter(cfg: Config, db: Db, ps: seq<Timed>, t: Timed)
    requires Probes(ps) && t.step.Probe?
    ensures Fresh(Play(cfg, db, ps), t.step) <==> Fresh(db, t.step) && !Mentions(ps, KeyOf(t))
  {
    hide Next, Play;
    LoggedByWhom(cfg, db, ps, KeyOf(t));
    if Mentions(ps, KeyOf(t)) {
      DeliveredIsSettled(cfg, db, ps, KeyOf(t));
    }
    if Logged(db.log, t.step.id, t.step.run, t.step.stage) {
      LoggedGrows(db.log, Play(cfg, db, ps).log, KeyOf(t));
    }
  }

  /** Without a shadow, the full and the quiet delivery find the last observation equally new. */
  lemma FreshInBoth(cfg: Config, db: Db, init: seq<Timed>, t: Timed)
    requires Probes(init) && t.step.Probe? && Probes(init + [t])
    requires !t.step.outcome.Inconclusive() && !Shadowed(db, init + [t])
    ensures Fresh(Play(cfg, db, init), t.step) <==> Fresh(Play(cfg, db, Quiet(init)), t.step)
  {
    hide Fresh, Play;
    FreshAfter(cfg, db, init, t);
    FreshAfter(cfg, db, Quiet(init), t);
    QuietMentions(init, KeyOf(t));
    assert (init + [t])[..|init|] == init;
    assert !ShadowedAt(db, init + [t], |init|);
  }

  lemma ConclusiveAppend(log: Log, e: TestEvent)
    ensures Conclusive(log + [e]) == Conclusive(log) + (if e.outcome.Inconclusive() then [] else [e])
  {
    assert (log + [e])[..|log|] == log;
  }

  lemma {:induction false} QuietLog(cfg: Config, db: Db, ps: seq<Timed>)
    requires Probes(ps) && !Shadowed(db, ps)
    ensures Conclusive(Play(cfg, db, ps).log) == Conclusive(Play(cfg, db, Quiet(ps)).log)
  {
    hide ProbedRow, Shadowed;
    if |ps| > 0 {
      var n := |ps| - 1;
      var init, t := ps[..n], ps[n];
      assert ps == init + [t];
      ShadowedPrefix(db, ps);
      QuietLog(cfg, db, init);
      var full, quiet := Play(cfg, db, init), Play(cfg, db, Quiet(init));
      ConclusiveAppend(full.log, EventOf(t.step, t.now));
      if t.step.outcome.Inconclusive() {
        assert Quiet(ps) == Quiet(init);
      } else {
        FreshInBoth(cfg, db, init, t);
        ConclusiveAppend(quiet.log, EventOf(t.step, t.now));
        assert (Quiet(init) + [t])[..|Quiet(init)|] == Quiet(init);
      }
    }
  }

  // ---- A shadow is visible ----

  predicate HasKey(e: TestEvent, key: Key) {
    e.id == key.id && e.run == key.run && e.stage == key.stage
  }

  /** Some conclusive event of this run and stage is in the log. */
  predicate Concluded(log: Log, key: Key) {
    exists i | 0 <= i < |log| :: HasKey(log[i], key) && !log[i].outcome.Inconclusive()
  }

  lemma ConcludedAppend(log: Log, e: TestEvent, key: Key)
    ensures Concluded(log + [e], key) <==> Concluded(log, key) || (HasKey(e, key) && !e.outcome.Inconclusive())
  {
    var more := log + [e];
    assert more[|log|] == e;
    assert forall i :: 0 <= i < |log| ==> more[i] == log[i];
  }

  lemma {:induction false} ConcludedByConclusive(log: Log, key: Key)
    ensures Concluded(Conclusive(log), key) <==> Concluded(log, key)
  {
    if |log| > 0 {
      var init, e := log[..|log| - 1], log[|log| - 1];
      assert log == init + [e];
      ConcludedByConclusive(init, key);
      hide Concluded;
      ConcludedAppend(init, e, key);
      ConcludedAppend(Conclusive(init), e, key);
      assert Conclusive(init) + [] == Conclusive(init);
    }
  }

  /** A delivery that mentions a run and stage concludes it exactly when the first mention is conclusive. */
  lemma {:induction false} FirstMentionDecides(cfg: Config, db: Db, ps: seq<Timed>, j: nat, key: Key)
    requires Probes(ps) && j <= |ps| && key.id in db.nodes && !Logged(db.log, key.id, key.run, key.stage)
    requires Mentions(ps[..j], key) && !Concludes(ps[..j], key)
    ensures !Concluded(Play(cfg, db, ps).log, key)
  {
    if |ps| == j {
      assert ps[..j] == ps;
      NothingConcluded(cfg, db, ps, key);
    } else {
      hide ProbedRow, Concluded, Mentions, Concludes;
      var n := |ps| - 1;
      var mid, t := Play(cfg, db, ps[..n]), ps[n];
      assert ps[..n][..j] == ps[..j];
      FirstMentionDecides(cfg, db, ps[..n], j, key);
      ConcludedAppend(mid.log, EventOf(t.step, t.now), key);
      if KeyOf(t) == key {
        FreshAfter(cfg, db, ps[..n], t);
        MentionsMore(ps[..n], j, key);
      }
    }
  }

  lemma MentionsMore(ps: seq<Timed>, j: nat, key: Key)
    requires Probes(ps) && j <= |ps| && Mentions(ps[..j], key)
    ensures Mentions(ps, key)
  {
    var i :| 0 <= i < j && KeyOf(ps[..j][i]) == key;
    assert KeyOf(ps[i]) == key;
  }

  lemma {:induction false} NothingConcluded(cfg: Config, db: Db, ps: seq<Timed>, key: Key)
    requires Probes(ps) && !Logged(db.log, key.id, key.run, key.stage) && !Concludes(ps, key)
    ensures !Concluded(Play(cfg, db, ps).log, key)
  {
    if |ps| > 0 {
      hide ProbedRow, Concluded, Concludes;
      var n := |ps| - 1;
      var init, t := ps[..n], ps[n];
      assert ps == init + [t];
      MentionsSnoc(init, t, key);
      NothingConcluded(cfg, db, init, key);
      ConcludedAppend(Play(cfg, db, init).log, EventOf(t.step, t.now), key);
    }
  }

  lemma QuietSnoc(cfg: Config, db: Db, init: seq<Timed>, t: Timed)
    requires Probes(init) && t.step.Probe? && Probes(init + [t])
    ensures t.step.outcome.Inconclusive() ==> Quiet(init + [t]) == Quiet(init)
    ensures !t.step.outcome.Inconclusive() ==>
              Play(cfg, db, Quiet(init + [t])) == Next(cfg, Play(cfg, db, Quiet(init)), t)
  {
    hide Next;
    assert (init + [t])[..|init|] == init;
    assert (Quiet(init) + [t])[..|Quiet(init)|] == Quiet(init);
    assert Quiet(init) + [] == Quiet(init);
  }

  lemma ProbeConcludes(cfg: Config, db: Db, t: Timed, key: Key)
    requires t.step.Probe? && !t.step.outcome.Inconclusive()
    requires Concluded(db.log, key) || (KeyOf(t) == key && Fresh(db, t.step))
    ensures Concluded(Next(cfg, db, t).log, key)
  {
    hide ProbedRow, Concluded;
    ConcludedAppend(db.log, EventOf(t.step, t.now), key);
  }

  lemma {:induction false} QuietConcludes(cfg: Config, db: Db, ps: seq<Timed>, key: Key)
    requires Probes(ps) && key.id in db.nodes && !Logged(db.log, key.id, key.run, key.stage) && Concludes(ps, key)
    ensures Concluded(Play(cfg, db, Quiet(ps)).log, key)
  {
    hide Next, Play, Concluded, Mentions, Quiet, Logged;
    var n := |ps| - 1;
    var init, t := ps[..n], ps[n];
    assert ps == init + [t];
    MentionsSnoc(init, t, key);
    QuietSnoc(cfg, db, init, t);
    hide Concludes;
    if t.step.outcome.Inconclusive() {
      QuietConcludes(cfg, db, init, key);
    } else {
      if Concludes(init, key) {
        QuietConcludes(cfg, db, init, key);
      } else {
        QuietMentions(init, key);
        FreshAfter(cfg, db, Quiet(init), t);
      }
      ProbeConcludes(cfg, Play(cfg, db, Quiet(init)), t, key);
    }
  }

  /** Dropping the inconclusive observations of a delivery leaves the recorded conclusive events
      unchanged exactly when no inconclusive observation shadows a conclusive one of its own run and stage. */
  lemma NoiseIsInvisibleIff(cfg: Config, db: Db, ps: seq<Timed>)
    requires Probes(ps)
    ensures Conclusive(Play(cfg, db, ps).log) == Conclusive(Play(cfg, db, Quiet(ps)).log) <==> !Shadowed(db, ps)
  {
    hide Next, Play, Concluded;
    if !Shadowed(db, ps) {
      QuietLog(cfg, db, ps);
    } else {
      var j: nat :| j < |ps| && ShadowedAt(db, ps, j);
      var key := KeyOf(ps[j]);
      assert Concludes(ps, key);
      FirstMentionDecides(cfg, db, ps, j, key);
      QuietConcludes(cfg, db, ps, key);
      ConcludedByConclusive(Play(cfg, db, ps).log, key);
      ConcludedByConclusive(Play(cfg, db, Quiet(ps)).log, key);
    }
  }

  lemma {:induction false} PlayRebuildable(cfg: Config, db: Db, ps: seq<Timed>)
    requires IdsBelow(db) && Rebuildable(db)
    ensures IdsBelow(Play(cfg, db, ps)) && Rebuildable(Play(cfg, db, ps))
  {
    hide Next, Rebuildable, IdsBelow;
    if |ps| > 0 {
      PlayRebuildable(cfg, db, ps[..|ps| - 1]);
      StepRebuildable(cfg, Play(cfg, db, ps[..|ps| - 1]), ps[|ps| - 1]);
    }
  }

  /** From any reachable store, a delivery in which nothing is shadowed and the same delivery
      without its inconclusive observations leave equal failure counters, last failing run and
      lease on every node, and equal evidence at every clock while the window is open. */
  lemma NoiseIsHarmless(cfg: Config, db: Db, ps: seq<Timed>, id: NodeId, clock: int)
    requires IdsBelow(db) && Rebuildable(db) && Probes(ps) && !Shadowed(db, ps) && id in db.nodes
    ensures var full, quiet := Play(cfg, db, ps), Play(cfg, db, Quiet(ps));
      && id in full.nodes && id in quiet.nodes
      && RowLedger(full.nodes[id]) == RowLedger(quiet.nodes[id])
      && (|RecentEvents(full.log, id, clock)| <= MAX_EVENTS ==>
            var a, b := WindowEvents(full.log, id, clock), WindowEvents(quiet.log, id, clock);
            Alpha(cfg.half, a, clock) == Alpha(cfg.half, b, clock)
            && Beta(cfg.half, a, clock) == Beta(cfg.half, b, clock))
  {
    hide Next, Play, WindowEvents, Alpha, Beta;
    var full, quiet := Play(cfg, db, ps), Play(cfg, db, Quiet(ps));
    QuietLog(cfg, db, ps);
    LoggedByWhom(cfg, db, ps, Key(id, "", Static));
    LoggedByWhom(cfg, db, Quiet(ps), Key(id, "", Static));
    PlayRebuildable(cfg, db, ps);
    PlayRebuildable(cfg, db, Quiet(ps));
    LedgerIgnoresNoise(full.log, id);
    LedgerIgnoresNoise(quiet.log, id);
    if |RecentEvents(full.log, id, clock)| <= MAX_EVENTS {
      EvidenceIgnoresNoise(cfg.half, full.log, id, clock);
      QuietWindow(cfg, db, ps, id, clock);
      EvidenceIgnoresNoise(cfg.half, quiet.log, id, clock);
    }
  }

  lemma {:induction false} RecentAppend(log: Log, e: TestEvent, id: NodeId, clock: int)
    ensures RecentEvents(log + [e], id, clock)
         == RecentEvents(log, id, clock) + (if Recent(e, id, clock) then [e] else [])
  {
    assert (log + [e])[..|log|] == log;
  }

  lemma {:induction false} QuietWindow(cfg: Config, db: Db, ps: seq<Timed>, id: NodeId, clock: int)
    requires Probes(ps) && !Shadowed(db, ps)
    ensures |RecentEvents(Play(cfg, db, Quiet(ps)).log, id, clock)| <= |RecentEvents(Play(cfg, db, ps).log, id, clock)|
  {
    hide ProbedRow, Recent, Shadowed;
    if |ps| > 0 {
      var n := |ps| - 1;
      var init, t := ps[..n], ps[n];
      assert ps == init + [t];
      ShadowedPrefix(db, ps);
      QuietWindow(cfg, db, init, id, clock);
      RecentAppend(Play(cfg, db, init).log, EventOf(t.step, t.now), id, clock);
      if t.step.outcome.Inconclusive() {
        assert Quiet(ps) == Quiet(init);
      } else {
        FreshInBoth(cfg, db, init, t);
        RecentAppend(Play(cfg, db, Quiet(init)).log, EventOf(t.step, t.now), id, clock);
        assert (Quiet(init) + [t])[..|Quiet(init)|] == Quiet(init);
      }
    }
  }

  /** What a shadow costs: an inconclusive event recorded first keeps a success of the same
      run and stage out of the ledger. */
  lemma NoiseCanShadow(cfg: Config, db: Db, a: Timed, b: Timed)
    requires a.step.Probe? && b.step.Probe? && KeyOf(a) == KeyOf(b) && Fresh(db, a.step)
    requires a.step.outcome.Inconclusive() && b.step.outcome.Success?
    ensures a.step.id in Play(cfg, db, [a, b]).nodes && a.step.id in Play(cfg, db, [b]).nodes
    ensures RowLedger(Play(cfg, db, [a, b]).nodes[a.step.id]) == RowLedger(db.nodes[a.step.id])
    ensures RowLedger(Play(cfg, db, [b]).nodes[a.step.id]).lastSuccess == Some(b.now)
  {
    hide InputFor;
    assert [a, b][..1] == [a] && [a][..0] == [] && [b][..0] == [];
    assert Play(cfg, db, [a]) == Next(cfg, db, a);
    assert Play(cfg, db, [b]) == Next(cfg, db, b);
    ProbeSettles(cfg, db, a, KeyOf(a));
    assert Play(cfg, db, [a, b]) == Next(cfg, db, a);
    ProbeRecords(cfg, db.log + [EventOf(a.step, a.now)], db.nodes[a.step.id], EventOf(a.step, a.now), a.step.draw);
    ProbeRecords(cfg, db.log + [EventOf(b.step, b.now)], db.nodes[a.step.id], EventOf(b.step, b.now), b.step.draw);
  }
}
