/** Upstream generations: how long a node may be missing before it is retired. */
module Reconciliation {
  import opened Domain
  import opened Health
  import opened Evidence
  import opened Database
  import opened Ledgers
  import opened Lifecycle

  /** The letter, small or capital. */
  predicate Letter(c: char, small: char, capital: char) {
    c == small || c == capital
  }

  /** The six letters of the word, each in either case. */
  predicate WordAt(s: string, i: nat)
    requires i + 6 <= |s|
  {
    && Letter(s[i], 'm', 'M') && Letter(s[i + 1], 'a', 'A') && Letter(s[i + 2], 'n', 'N')
    && Letter(s[i + 3], 'u', 'U') && Letter(s[i + 4], 'a', 'A') && Letter(s[i + 5], 'l', 'L')
  }

  /** A source is manual exactly when its name contains the six letters anywhere, in either case. */
  lemma ManualIff(s: Source)
    ensures MentionsManual(s) <==> exists i: nat :: i + 6 <= |s| && WordAt(s, i)
  {
    hide ManualAt, WordAt;
    forall i: nat | i + 6 <= |s|
      ensures ManualAt(s, i) <==> WordAt(s, i)
    {
      ManualWord(s, i);
    }
  }

  lemma ManualWord(s: string, i: nat)
    requires i + 6 <= |s|
    ensures ManualAt(s, i) <==> WordAt(s, i)
  {
    LowerLetter(s[i], 'm', 'M');
    LowerLetter(s[i + 1], 'a', 'A');
    LowerLetter(s[i + 2], 'n', 'N');
    LowerLetter(s[i + 3], 'u', 'U');
    LowerLetter(s[i + 4], 'a', 'A');
    LowerLetter(s[i + 5], 'l', 'L');
    hide LowerAscii, Letter;
    assert Lower(s[i..i + 6]) == [LowerAscii(s[i]), LowerAscii(s[i + 1]), LowerAscii(s[i + 2]), LowerAscii(s[i + 3]),
                                  LowerAscii(s[i + 4]), LowerAscii(s[i + 5])];
  }

  lemma LowerLetter(c: char, small: char, capital: char)
    requires 'A' <= capital <= 'Z' && small as int == capital as int + 32
    ensures LowerAscii(c) == small <==> Letter(c, small, capital)
  {
  }

  /** The step observes the identity `h` upstream, by body or by 304. */
  predicate Sees(db: Db, t: Timed, h: Hash) {
    match t.step
    case Ingest(p, _) => p.hash == h
    case CopyCached(source, gen) =>
      EarlierGens(db, source, gen) != {} && h in HashesAt(CopyMembers(db, source, gen), source, gen)
    case _ => false
  }

  predicate CompleteFinish(t: Timed) {
    t.step.FinishRefresh? && Complete(t.step)
  }

  function SeenGen(t: Timed): int
    requires t.step.Ingest? || t.step.CopyCached?
  {
    t.step.gen
  }

  ghost predicate LastSighting(cfg: Config, tr: seq<Timed>, j: nat, i: nat, h: Hash)
    requires i <= |tr|
  {
    && j < i
    && Sees(State(cfg, tr, j), tr[j], h)
    && (forall k :: j < k < i ==> !Sees(State(cfg, tr, k), tr[k], h))
  }

  /** The complete refreshes strictly between `j` and `i` other than generation `g`. */
  function Absences(tr: seq<Timed>, j: nat, i: nat, g: int): set<int>
    requires i <= |tr|
  {
    set k: int | j < k < i && CompleteFinish(tr[k]) && tr[k].step.gen != g
  }

  lemma NoAbsenceYet(tr: seq<Timed>, j: nat, g: int)
    requires j < |tr|
    ensures |Absences(tr, j, j + 1, g)| == 0
  {
  }

  lemma AbsencesExtend(tr: seq<Timed>, j: nat, i: nat, g: int)
    requires j < i < |tr|
    ensures |Absences(tr, j, i + 1, g)| ==
            |Absences(tr, j, i, g)| + (if CompleteFinish(tr[i]) && tr[i].step.gen != g then 1 else 0)
  {
    if CompleteFinish(tr[i]) && tr[i].step.gen != g {
      assert Absences(tr, j, i + 1, g) == Absences(tr, j, i, g) + {i as int};
    } else {
      assert Absences(tr, j, i + 1, g) == Absences(tr, j, i, g);
    }
  }

  lemma StepSeen(cfg: Config, db: Db, t: Timed, id: NodeId)
    requires id in db.nodes && Sees(db, t, db.nodes[id].hash)
    ensures var n, n' := db.nodes[id], RowStep(cfg, db, t, id);
      n'.hash == n.hash && n'.missing == 0 && n'.lastSeen == SeenGen(t) && n.sources <= n'.sources
  {
    hide EarlierGens, HashesAt, IsManual;
  }

  lemma StepUnseen(cfg: Config, db: Db, t: Timed, id: NodeId)
    requires id in db.nodes && !Sees(db, t, db.nodes[id].hash)
    ensures var n, n' := db.nodes[id], RowStep(cfg, db, t, id);
      && n'.hash == n.hash && n'.lastSeen == n.lastSeen && n'.sources == n.sources
      && n'.missing == n.missing +
           (if CompleteFinish(t) && t.step.gen != n.lastSeen && !IsManual(n.sources) then 1 else 0)
  {
    hide InputFor, Decide, Logged, EarlierGens, HashesAt, IsManual;
  }

  ghost predicate Explained(cfg: Config, tr: seq<Timed>, i: nat, n: Node, j: nat)
    requires i <= |tr|
  {
    && LastSighting(cfg, tr, j, i, n.hash)
    && n.lastSeen == SeenGen(tr[j])
    && (!IsManual(n.sources) ==> n.missing == |Absences(tr, j, i, n.lastSeen)|)
  }

  /** In every history, each row has a last sighting, and a row never imported manually
      has a counter equal to the number of complete refreshes since then, the refresh
      that saw it excepted.  Partial refreshes never count. */
  lemma {:induction false} MissingCountsCompleteAbsences(cfg: Config, tr: seq<Timed>, i: nat, id: NodeId)
    requires i <= |tr| && id in State(cfg, tr, i).nodes
    ensures exists j: nat :: Explained(cfg, tr, i, State(cfg, tr, i).nodes[id], j)
  {
    hide Next, RowStep, EarlierGens, HashesAt, IsManual, Absences;
    var db, t := State(cfg, tr, i - 1), tr[i - 1];
    HistoryRowWise(cfg, tr, i - 1);
    var n' := State(cfg, tr, i).nodes[id];
    if id !in db.nodes {
      NoAbsenceYet(tr, i - 1, n'.lastSeen);
      NewRowIsSeen(t, n');
      assert Explained(cfg, tr, i, n', i - 1);
    } else if Sees(db, t, db.nodes[id].hash) {
      StepSeen(cfg, db, t, id);
      NoAbsenceYet(tr, i - 1, n'.lastSeen);
      assert Explained(cfg, tr, i, n', i - 1);
    } else {
      MissingCountsCompleteAbsences(cfg, tr, i - 1, id);
      var j: nat :| Explained(cfg, tr, i - 1, db.nodes[id], j);
      StepUnseen(cfg, db, t, id);
      AbsencesExtend(tr, j, i - 1, n'.lastSeen);
      assert Explained(cfg, tr, i, n', j);
    }
  }

  lemma NewRowIsSeen(t: Timed, n: Node)
    requires t.step.Ingest? && n == NewRow(t.step.proxy, t.step.gen, t.now)
    ensures n.hash == t.step.proxy.hash && n.missing == 0 && n.lastSeen == t.step.gen
  {
  }

  // ---- Retirement ----

  lemma ManualStep(cfg: Config, db: Db, t: Timed, id: NodeId)
    requires id in db.nodes && (IsManual(db.nodes[id].sources) ==> db.nodes[id].missing == 0)
    ensures var n' := RowStep(cfg, db, t, id); IsManual(n'.sources) ==> n'.missing == 0
  {
    hide RowStep, Sees;
    if Sees(db, t, db.nodes[id].hash) {
      StepSeen(cfg, db, t, id);
    } else {
      StepUnseen(cfg, db, t, id);
    }
  }

  /** A node that lists a manual source has counter 0. */
  lemma {:induction false} ManualNeverMisses(cfg: Config, tr: seq<Timed>, i: nat, id: NodeId)
    requires i <= |tr| && id in State(cfg, tr, i).nodes && IsManual(State(cfg, tr, i).nodes[id].sources)
    ensures State(cfg, tr, i).nodes[id].missing == 0
  {
    hide Next, RowStep, IsManual, Sees;
    var db, t := State(cfg, tr, i - 1), tr[i - 1];
    HistoryRowWise(cfg, tr, i - 1);
    if id in db.nodes {
      if IsManual(db.nodes[id].sources) {
        ManualNeverMisses(cfg, tr, i - 1, id);
      }
      ManualStep(cfg, db, t, id);
    } else {
      NewRowIsSeen(t, State(cfg, tr, i).nodes[id]);
    }
  }

  lemma {:induction false} SourcesOnlyGrow(cfg: Config, tr: seq<Timed>, i: nat, j: nat, id: NodeId)
    requires i <= j <= |tr| && id in State(cfg, tr, i).nodes && id in State(cfg, tr, j).nodes
    ensures State(cfg, tr, i).nodes[id].sources <= State(cfg, tr, j).nodes[id].sources
    ensures State(cfg, tr, i).nodes[id].hash == State(cfg, tr, j).nodes[id].hash
  {
    hide Next, RowStep, IsManual, Sees;
    if i < j {
      RowsFollowTheLog(cfg, tr, i);
      NextIdGrows(cfg, tr, i, j - 1);
      HistoryRowWise(cfg, tr, j - 1);
      SourcesOnlyGrow(cfg, tr, i, j - 1, id);
      var db := State(cfg, tr, j - 1);
      if Sees(db, tr[j - 1], db.nodes[id].hash) {
        StepSeen(cfg, db, tr[j - 1], id);
      } else {
        StepUnseen(cfg, db, tr[j - 1], id);
      }
    }
  }

  /** Step `i` turns the row RETIRED. */
  ghost predicate Retires(cfg: Config, tr: seq<Timed>, i: nat, id: NodeId) {
    && i < |tr|
    && id in State(cfg, tr, i).nodes && !State(cfg, tr, i).nodes[id].lifecycle.Retired?
    && id in State(cfg, tr, i + 1).nodes && State(cfg, tr, i + 1).nodes[id].lifecycle.Retired?
  }

  lemma ProbeDoesNotRetire(cfg: Config, log: Log, n: Node, e: TestEvent, draw: nat)
    requires Shaped(n) && !n.lifecycle.Retired?
    ensures !ProbedRow(cfg, log, n, e, draw).lifecycle.Retired?
  {
    hide WindowEvents, Alpha, Beta, Score, NextTestAt;
  }

  lemma StepRetires(cfg: Config, db: Db, t: Timed, id: NodeId)
    requires id in db.nodes && Shaped(db.nodes[id]) && !db.nodes[id].lifecycle.Retired?
    requires RowStep(cfg, db, t, id).lifecycle.Retired?
    ensures var n' := RowStep(cfg, db, t, id);
      CompleteFinish(t) && n'.missing >= cfg.MissingBeforeRetire()
      && n'.createdAt <= t.now - 12 * HOUR && Expired(n'.lease, t.now)
  {
    hide ProbedRow, Logged, EarlierGens, HashesAt, IsManual;
    if t.step.Probe? {
      ProbeDoesNotRetire(cfg, LogStep(db, t), db.nodes[id], EventOf(t.step, t.now), t.step.draw);
    }
  }

  /** Retirement takes a complete refresh, an expired lease, twelve hours of age, and at
      least max(3, configured) complete refreshes since the row was last seen, with no
      sighting in between; a node that lists a manual source is never retired. */
  lemma RetirementNeedsCompleteAbsences(cfg: Config, tr: seq<Timed>, i: nat, id: NodeId)
    requires Retires(cfg, tr, i, id)
    ensures CompleteFinish(tr[i])
    ensures !IsManual(State(cfg, tr, i + 1).nodes[id].sources)
    ensures State(cfg, tr, i + 1).nodes[id].createdAt <= tr[i].now - 12 * HOUR
    ensures Expired(State(cfg, tr, i + 1).nodes[id].lease, tr[i].now)
    ensures exists j: nat :: Explained(cfg, tr, i + 1, State(cfg, tr, i + 1).nodes[id], j)
              && |Absences(tr, j, i + 1, SeenGen(tr[j]))| >= Max(3, cfg.prune)
  {
    hide Next, RowStep, IsManual, Absences;
    RowsAreShaped(cfg, tr, i);
    HistoryRowWise(cfg, tr, i);
    StepRetires(cfg, State(cfg, tr, i), tr[i], id);
    var n := State(cfg, tr, i + 1).nodes[id];
    if IsManual(n.sources) {
      ManualNeverMisses(cfg, tr, i + 1, id);
      assert false;
    }
    MissingCountsCompleteAbsences(cfg, tr, i + 1, id);
    var j: nat :| Explained(cfg, tr, i + 1, n, j);
    assert |Absences(tr, j, i + 1, SeenGen(tr[j]))| >= Max(3, cfg.prune);
  }

  /** Step `j` ingests the row's identity from a manual source. */
  ghost predicate ImportedManually(cfg: Config, tr: seq<Timed>, j: nat, id: NodeId)
    requires j < |tr|
  {
    && tr[j].step.Ingest? && MentionsManual(tr[j].step.proxy.source)
    && id in State(cfg, tr, j + 1).nodes && State(cfg, tr, j + 1).nodes[id].hash == tr[j].step.proxy.hash
  }

  lemma ImportListsSource(cfg: Config, db: Db, t: Timed, db': Db, id: NodeId)
    requires RowWise(cfg, db, t, db') && t.step.Ingest? && id in db'.nodes && db'.nodes[id].hash == t.step.proxy.hash
    ensures t.step.proxy.source in db'.nodes[id].sources
  {
  }

  /** A row imported manually at any point of a history keeps counter 0 ever after and is never retired. */
  lemma OnceManualIsNeverRetired(cfg: Config, tr: seq<Timed>, j: nat, i: nat, id: NodeId)
    requires j < i <= |tr| && ImportedManually(cfg, tr, j, id) && id in State(cfg, tr, i).nodes
    ensures IsManual(State(cfg, tr, i).nodes[id].sources)
    ensures State(cfg, tr, i).nodes[id].missing == 0
    ensures !Retires(cfg, tr, i, id)
  {
    hide Next, RowStep, MentionsManual;
    HistoryRowWise(cfg, tr, j);
    ImportListsSource(cfg, State(cfg, tr, j), tr[j], State(cfg, tr, j + 1), id);
    SourcesOnlyGrow(cfg, tr, j + 1, i, id);
    ManualNeverMisses(cfg, tr, i, id);
    if Retires(cfg, tr, i, id) {
      SourcesOnlyGrow(cfg, tr, j + 1, i + 1, id);
      RetirementNeedsCompleteAbsences(cfg, tr, i, id);
      assert false;
    }
  }
}
