/** A 304 answer behaves as if the last body had been fetched and ingested again. */
module NotModified {
  import opened Domain
  import opened Health
  import opened Evidence
  import opened Database
  import opened Ledgers
  import opened RefreshProtocol
  import opened Ranking

  // ---- Equality up to the raw text of a configuration ----

  function Blur(n: Node): Node {
    n.(raw := "")
  }

  /** Equal membership, generations, log, lifecycle, counters and leases: everything but raw text. */
  predicate Alike(a: Db, b: Db) {
    && a.nodes.Keys == b.nodes.Keys
    && (forall id | id in a.nodes :: Blur(a.nodes[id]) == Blur(b.nodes[id]))
    && a.(nodes := map[]) == b.(nodes := map[])
  }

  lemma AlikeKnown(a: Db, b: Db, h: Hash)
    requires Alike(a, b)
    ensures Known(a, h) == Known(b, h)
  {
    if Known(a, h) {
      var id :| id in a.nodes && a.nodes[id].hash == h;
      assert Blur(a.nodes[id]) == Blur(b.nodes[id]);
    }
    if Known(b, h) {
      var id :| id in b.nodes && b.nodes[id].hash == h;
      assert Blur(a.nodes[id]) == Blur(b.nodes[id]);
    }
  }

  lemma RawFreeSchedulerRows(n: Node, now: int, x: int, queue: LifecycleState)
    ensures Blur(ClaimRow(n, x)) == ClaimRow(Blur(n), x)
    ensures Eligible(n, queue, now) == Eligible(Blur(n), queue, now)
    ensures Blur(ReleaseRow(n)) == ReleaseRow(Blur(n))
    ensures Blur(WaitRow(n, now, x)) == WaitRow(Blur(n), now, x)
    ensures Blur(ReviveNodeRow(n, now)) == ReviveNodeRow(Blur(n), now)
    ensures Blur(ReviveDormantRow(n, now)) == ReviveDormantRow(Blur(n), now)
    ensures Blur(ScheduleRow(n, now)) == ScheduleRow(Blur(n), now)
  {
  }

  lemma RawFreeUpstreamRows(n: Node, p: Proxy, gen: int, now: int, minimum: nat)
    ensures Blur(SeenRow(n, p, gen, now)) == Blur(SeenRow(Blur(n), p, gen, now))
    ensures Blur(CopiedRow(n, gen)) == CopiedRow(Blur(n), gen)
    ensures Blur(RetireRow(AgedRow(n, gen), now, minimum)) == RetireRow(AgedRow(Blur(n), gen), now, minimum)
  {
    hide IsManual;
    assert AgedRow(Blur(n), gen) == Blur(AgedRow(n, gen));
  }

  lemma RawFreeProbedRow(cfg: Config, log: Log, n: Node, e: TestEvent, draw: nat)
    ensures Blur(ProbedRow(cfg, log, n, e, draw)) == ProbedRow(cfg, log, Blur(n), e, draw)
  {
    hide WindowEvents, Alpha, Beta, Decide;
    assert InputFor(cfg, log, n, e) == InputFor(cfg, log, Blur(n), e);
  }

  lemma UpstreamBlurCommutes(cfg: Config, a: Db, b: Db, t: Timed, id: NodeId)
    requires Alike(a, b) && id in a.nodes
    requires t.step.Ingest? || t.step.CopyCached? || t.step.FinishRefresh?
    ensures Blur(RowStep(cfg, a, t, id)) == Blur(RowStep(cfg, b, t, id))
  {
    hide ProbedRow, ClaimRow, ReleaseRow, WaitRow, ReviveNodeRow, ReviveDormantRow, ScheduleRow, Eligible;
    hide SeenRow, CopiedRow, RetireRow, AgedRow, Logged, HashesAt, EarlierGens, CopyMembers;
    var na, nb := a.nodes[id], b.nodes[id];
    var p := if t.step.Ingest? then t.step.proxy else Proxy("", "", "");
    assert Blur(na) == Blur(nb);
    assert na.hash == nb.hash;
    if t.step.CopyCached? {
      SameMembers(a, b, t.step.source, t.step.gen);
    }
    RawFreeUpstreamRows(na, p, t.step.gen, t.now, cfg.MissingBeforeRetire());
    RawFreeUpstreamRows(nb, p, t.step.gen, t.now, cfg.MissingBeforeRetire());
  }

  lemma BlurCommutes(cfg: Config, a: Db, b: Db, t: Timed, id: NodeId)
    requires Alike(a, b) && id in a.nodes
    ensures Blur(RowStep(cfg, a, t, id)) == Blur(RowStep(cfg, b, t, id))
  {
    if t.step.Ingest? || t.step.CopyCached? || t.step.FinishRefresh? {
      UpstreamBlurCommutes(cfg, a, b, t, id);
    } else {
      LocalBlurCommutes(cfg, a, b, t, id);
    }
  }

  lemma LocalBlurCommutes(cfg: Config, a: Db, b: Db, t: Timed, id: NodeId)
    requires Alike(a, b) && id in a.nodes
    requires !(t.step.Ingest? || t.step.CopyCached? || t.step.FinishRefresh?)
    ensures Blur(RowStep(cfg, a, t, id)) == Blur(RowStep(cfg, b, t, id))
  {
    hide ProbedRow, ClaimRow, ReleaseRow, WaitRow, ReviveNodeRow, ReviveDormantRow, ScheduleRow, Eligible;
    hide SeenRow, CopiedRow, RetireRow, AgedRow, Logged, HashesAt, EarlierGens, CopyMembers;
    var na, nb := a.nodes[id], b.nodes[id];
    assert Blur(na) == Blur(nb);
    var x := if t.step.Claim? then t.now + t.step.leaseFor else if t.step.Wait? then t.step.retryAfter else 0;
    var queue := if t.step.Claim? then t.step.queue else Active;
    if t.step.Probe? {
      RawFreeProbedRow(cfg, a.log + [EventOf(t.step, t.now)], na, EventOf(t.step, t.now), t.step.draw);
      RawFreeProbedRow(cfg, b.log + [EventOf(t.step, t.now)], nb, EventOf(t.step, t.now), t.step.draw);
    } else {
      RawFreeSchedulerRows(na, t.now, x, queue);
      RawFreeSchedulerRows(nb, t.now, x, queue);
    }
  }

  lemma SameMembers(a: Db, b: Db, source: Source, gen: int)
    requires Alike(a, b)
    ensures EarlierGens(a, source, gen) == EarlierGens(b, source, gen)
    ensures CopyMembers(a, source, gen).(nodes := map[]) == CopyMembers(b, source, gen).(nodes := map[])
    ensures HashesAt(CopyMembers(a, source, gen), source, gen) == HashesAt(CopyMembers(b, source, gen), source, gen)
  {
    assert a.members == b.members;
    assert forall g :: HashesAt(a, source, g) == HashesAt(b, source, g);
  }

  lemma AlikeTables(cfg: Config, a: Db, b: Db, t: Timed)
    requires Alike(a, b)
    ensures Next(cfg, a, t).(nodes := map[]) == Next(cfg, b, t).(nodes := map[])
  {
    hide Next, Logged, Known, HashesAt, EarlierGens, CopyMembers;
    NextTables(cfg, a, t);
    NextTables(cfg, b, t);
    if t.step.Ingest? {
      AlikeKnown(a, b, t.step.proxy.hash);
    } else if t.step.CopyCached? {
      SameMembers(a, b, t.step.source, t.step.gen);
    }
  }

  /** Every step keeps alike stores alike: nothing in the store reads the raw text. */
  lemma StepKeepsAlike(cfg: Config, a: Db, b: Db, t: Timed)
    requires Alike(a, b) && IdsBelow(a) && IdsBelow(b)
    ensures Alike(Next(cfg, a, t), Next(cfg, b, t))
    ensures IdsBelow(Next(cfg, a, t)) && IdsBelow(Next(cfg, b, t))
  {
    hide Next, RowStep, LogStep, NewRow, Known;
    AlikeTables(cfg, a, b, t);
    NextRowWise(cfg, a, t);
    NextRowWise(cfg, b, t);
    var a', b' := Next(cfg, a, t), Next(cfg, b, t);
    if t.step.Ingest? {
      AlikeKnown(a, b, t.step.proxy.hash);
    }
    forall id | id in a.nodes
      ensures Tombstoned(a.nodes[id], t.now) == Tombstoned(b.nodes[id], t.now)
    {
      assert Blur(a.nodes[id]) == Blur(b.nodes[id]);
    }
    assert a'.nodes.Keys == b'.nodes.Keys;
    forall id | id in a'.nodes
      ensures Blur(a'.nodes[id]) == Blur(b'.nodes[id])
    {
      if id in a.nodes {
        BlurCommutes(cfg, a, b, t, id);
      }
    }
  }

  // ---- What a 304 does, and what ingesting a body again does ----

  function IngestAll(db: Db, ps: seq<Proxy>, gen: int, now: int): Db {
    if |ps| == 0 then db
    else IngestOne(IngestAll(db, ps[..|ps| - 1], gen, now), ps[|ps| - 1], gen, now)
  }

  /** Observe the identities `hs` for `source` in generation `gen`. */
  function Touch(db: Db, hs: set<Hash>, source: Source, gen: int): Db {
    db.(members := db.members + (set h | h in hs :: Member(gen, source, h)),
        nodes := map id | id in db.nodes ::
          if db.nodes[id].hash in hs then CopiedRow(db.nodes[id], gen) else db.nodes[id])
  }

  lemma TouchKeepsIds(db: Db, hs: set<Hash>, source: Source, gen: int)
    requires IdsBelow(db)
    ensures IdsBelow(Touch(db, hs, source, gen))
  {
  }

  /** Identities already held by unretired rows that list the source. */
  ghost predicate Available(db: Db, hs: set<Hash>, source: Source) {
    && (forall h :: h in hs ==> Known(db, h))
    && (forall id :: id in db.nodes && db.nodes[id].hash in hs ==>
          source in db.nodes[id].sources && !db.nodes[id].lifecycle.Retired?)
  }

  lemma KnownAfterTouch(db: Db, hs: set<Hash>, source: Source, gen: int, h: Hash)
    requires Known(db, h)
    ensures Known(Touch(db, hs, source, gen), h)
  {
    var id :| id in db.nodes && db.nodes[id].hash == h;
    assert Touch(db, hs, source, gen).nodes[id].hash == h;
  }

  lemma SeenAfterTouch(n: Node, hs: set<Hash>, p: Proxy, gen: int, now: int)
    requires n.hash == p.hash && p.source in n.sources && !n.lifecycle.Retired?
    ensures var touched := if n.hash in hs then CopiedRow(n, gen) else n;
      Blur(SeenRow(touched, p, gen, now)) == Blur(CopiedRow(n, gen))
  {
    assert n.sources + {p.source} == n.sources;
  }

  /** Ingesting one available identity after observing `hs` is observing one more. */
  lemma IngestTouched(db: Db, hs: set<Hash>, p: Proxy, gen: int, now: int)
    requires Available(db, hs + {p.hash}, p.source)
    ensures Alike(IngestOne(Touch(db, hs, p.source, gen), p, gen, now), Touch(db, hs + {p.hash}, p.source, gen))
  {
    hide Known, SeenRow, CopiedRow, Blur;
    var mid := Touch(db, hs, p.source, gen);
    var left := IngestOne(mid, p, gen, now);
    var right := Touch(db, hs + {p.hash}, p.source, gen);
    KnownAfterTouch(db, hs, p.source, gen, p.hash);
    forall id | id in db.nodes
      ensures Blur(left.nodes[id]) == Blur(right.nodes[id])
    {
      TouchedRow(db, hs, p, gen, now, id);
    }
    assert left.members == right.members by {
      assert (set h | h in hs + {p.hash} :: Member(gen, p.source, h))
          == (set h | h in hs :: Member(gen, p.source, h)) + {Member(gen, p.source, p.hash)};
    }
  }

  lemma TouchedRow(db: Db, hs: set<Hash>, p: Proxy, gen: int, now: int, id: NodeId)
    requires id in db.nodes && Available(db, hs + {p.hash}, p.source)
    requires Known(Touch(db, hs, p.source, gen), p.hash)
    ensures Blur(IngestOne(Touch(db, hs, p.source, gen), p, gen, now).nodes[id])
         == Blur(Touch(db, hs + {p.hash}, p.source, gen).nodes[id])
  {
    hide Known, SeenRow, Blur;
    var n := db.nodes[id];
    var touched := if n.hash in hs then CopiedRow(n, gen) else n;
    assert Touch(db, hs, p.source, gen).nodes[id] == touched;
    if n.hash == p.hash {
      SeenAfterTouch(n, hs, p, gen, now);
    }
  }

  lemma AlikeTransitive(a: Db, b: Db, c: Db)
    requires Alike(a, b) && Alike(b, c)
    ensures Alike(a, c)
  {
    hide Blur;
  }

  lemma {:induction false} IngestAllKeepsIds(db: Db, ps: seq<Proxy>, gen: int, now: int)
    requires IdsBelow(db)
    ensures IdsBelow(IngestAll(db, ps, gen, now))
  {
    if |ps| > 0 {
      IngestAllKeepsIds(db, ps[..|ps| - 1], gen, now);
      IngestKeepsIds(IngestAll(db, ps[..|ps| - 1], gen, now), ps[|ps| - 1], gen, now);
    }
  }

  lemma IngestKeepsIds(db: Db, p: Proxy, gen: int, now: int)
    requires IdsBelow(db)
    ensures IdsBelow(IngestOne(db, p, gen, now))
  {
  }

  /** Stores alike stay alike when the same list is ingested into both. */
  lemma {:induction false} IngestAllKeepsAlike(cfg: Config, a: Db, b: Db, ps: seq<Proxy>, gen: int, now: int)
    requires Alike(a, b) && IdsBelow(a) && IdsBelow(b)
    ensures Alike(IngestAll(a, ps, gen, now), IngestAll(b, ps, gen, now))
  {
    hide Alike, IngestOne;
    if |ps| > 0 {
      var init := ps[..|ps| - 1];
      IngestAllKeepsAlike(cfg, a, b, init, gen, now);
      IngestAllKeepsIds(a, init, gen, now);
      IngestAllKeepsIds(b, init, gen, now);
      StepKeepsAlike(cfg, IngestAll(a, init, gen, now), IngestAll(b, init, gen, now),
                     At(now, Ingest(ps[|ps| - 1], gen)));
    }
  }

  /** Re-ingesting a body whose identities are all available only observes them. */
  lemma {:induction false} ReingestIsTouch(cfg: Config, db: Db, ps: seq<Proxy>, source: Source, gen: int, now: int)
    requires IdsBelow(db) && Available(db, Hashes(ps), source)
    requires forall p :: p in ps ==> p.source == source
    ensures Alike(IngestAll(db, ps, gen, now), Touch(db, Hashes(ps), source, gen))
  {
    hide IngestOne, Alike, Known, IdsBelow;
    if |ps| == 0 {
      TouchNothing(db, source, gen);
      assert Hashes(ps) == {};
    } else {
      var init, p := ps[..|ps| - 1], ps[|ps| - 1];
      assert ps == init + [p];
      BodyGrows(init, p);
      assert Available(db, Hashes(init), source);
      ReingestIsTouch(cfg, db, init, source, gen, now);
      IngestAllKeepsIds(db, init, gen, now);
      var mid := Touch(db, Hashes(init), source, gen);
      TouchKeepsIds(db, Hashes(init), source, gen);
      StepKeepsAlike(cfg, IngestAll(db, init, gen, now), mid, At(now, Ingest(p, gen)));
      IngestTouched(db, Hashes(init), p, gen, now);
      AlikeTransitive(IngestAll(db, ps, gen, now), IngestOne(mid, p, gen, now), Touch(db, Hashes(ps), source, gen));
    }
  }

  lemma TouchNothing(db: Db, source: Source, gen: int)
    ensures Alike(db, Touch(db, {}, source, gen))
  {
  }

  /** A 304 observes exactly the latest membership of its source. */
  lemma CopyIsTouch(configured: set<Source>, db: Db, pr: Proto, source: Source, gen: int)
    requires Bookkept(configured, db, pr) && MembersMatch(configured, db, pr)
    requires source in pr.latest && pr.latest[source] < gen
    ensures CopyGeneration(db, source, gen) == Touch(db, Hashes(pr.bodies[source]), source, gen)
  {
    hide Hashes, CopiedRow;
    LatestIsMax(configured, db, pr, source, gen);
    assert HashesAt(db, source, pr.latest[source]) == Hashes(pr.bodies[source]);
  }

  lemma CachedIsAvailable(configured: set<Source>, db: Db, pr: Proto, source: Source)
    requires Cached(configured, db, pr) && source in pr.latest
    ensures Available(db, Hashes(pr.bodies[source]), source)
  {
    hide Hashes, MembersMatch;
    var hs := Hashes(pr.bodies[source]);
    forall h | h in hs
      ensures Known(db, h)
    {
      var id :| HeldBy(db, pr, source, h, id);
      assert db.nodes[id].hash == h;
    }
    forall id | id in db.nodes && db.nodes[id].hash in hs
      ensures source in db.nodes[id].sources && !db.nodes[id].lifecycle.Retired?
    {
      var holder :| HeldBy(db, pr, source, db.nodes[id].hash, holder);
      assert holder == id;
    }
  }

  /** One 304 against one re-ingestion of the last body, from the same store. */
  lemma CopyIsReingest(cfg: Config, configured: set<Source>, db: Db, pr: Proto, source: Source, gen: int, now: int)
    requires IdsBelow(db) && Cached(configured, db, pr)
    requires source in pr.latest && pr.latest[source] < gen
    ensures Alike(CopyGeneration(db, source, gen), IngestAll(db, pr.bodies[source], gen, now))
  {
    hide Hashes, Touch, Alike, CopyGeneration, IngestAll, Available;
    CopyIsTouch(configured, db, pr, source, gen);
    CachedIsAvailable(configured, db, pr, source);
    ReingestIsTouch(cfg, db, pr.bodies[source], source, gen, now);
    AlikeSymmetric(IngestAll(db, pr.bodies[source], gen, now), Touch(db, Hashes(pr.bodies[source]), source, gen));
  }

  // ---- Which bodies a 304 stands for ----

  function MembersOf(hs: set<Hash>, source: Source, gen: int): set<Member> {
    set h | h in hs :: Member(gen, source, h)
  }

  lemma {:induction false} IngestAllMembers(db: Db, ps: seq<Proxy>, source: Source, gen: int, now: int)
    requires forall p :: p in ps ==> p.source == source
    ensures IngestAll(db, ps, gen, now).members == db.members + MembersOf(Hashes(ps), source, gen)
  {
    hide Known, SeenRow, NewRow;
    if |ps| > 0 {
      var init, p := ps[..|ps| - 1], ps[|ps| - 1];
      assert ps == init + [p];
      BodyGrows(init, p);
      IngestAllMembers(db, init, source, gen, now);
      assert MembersOf(Hashes(ps), source, gen) == MembersOf(Hashes(init), source, gen) + {Member(gen, source, p.hash)};
    }
  }

  lemma MembersTellHashes(db: Db, source: Source, gen: int, a: set<Hash>, b: set<Hash>)
    requires HashesAt(db, source, gen) == {}
    requires db.members + MembersOf(a, source, gen) == db.members + MembersOf(b, source, gen)
    ensures a == b
  {
    forall h
      ensures h in a <==> h in b
    {
      var m := Member(gen, source, h);
      assert m in db.members ==> h in HashesAt(db, source, gen);
      assert h in a <==> m in MembersOf(a, source, gen);
      assert h in b <==> m in MembersOf(b, source, gen);
    }
  }

  /** The members that a 304 adds, for a configured source with or without a membership. */
  lemma CopyAddsLastBody(configured: set<Source>, db: Db, pr: Proto, source: Source, gen: int)
    requires Cached(configured, db, pr) && source in configured && (source in pr.latest ==> pr.latest[source] < gen)
    ensures CopyGeneration(db, source, gen).members == db.members + MembersOf(Hashes(LastBody(pr, source)), source, gen)
    ensures HashesAt(db, source, gen) == {}
  {
    hide AllHeld, UniqueHashes;
    if source in pr.latest {
      LatestIsMax(configured, db, pr, source, gen);
      CopyIsTouch(configured, db, pr, source, gen);
    } else {
      NoMembershipYet(configured, db, pr, source, gen);
    }
  }

  /** A 304 leaves the store that ingesting `body` would have left if and only if `body` has the
      identities of the last body of the source that was ingested, none if none was. */
  lemma CopyStandsForIff(cfg: Config, configured: set<Source>, db: Db, pr: Proto, source: Source, gen: int,
                         body: seq<Proxy>, now: int)
    requires IdsBelow(db) && Cached(configured, db, pr)
    requires source in configured && (source in pr.latest ==> pr.latest[source] < gen)
    requires forall p :: p in body ==> p.source == source
    ensures Alike(CopyGeneration(db, source, gen), IngestAll(db, body, gen, now)) <==>
              Hashes(body) == Hashes(LastBody(pr, source))
  {
    hide CopyGeneration, IngestAll, IdsBelow, AllHeld, MembersMatch, UniqueHashes, Hashes, HashesAt, MembersOf, Touch,
        Blur;
    var copied, ingested := CopyGeneration(db, source, gen), IngestAll(db, body, gen, now);
    CopyAddsLastBody(configured, db, pr, source, gen);
    IngestAllMembers(db, body, source, gen, now);
    if Alike(copied, ingested) {
      SameTables(copied, ingested);
      MembersTellHashes(db, source, gen, Hashes(LastBody(pr, source)), Hashes(body));
    }
    if Hashes(body) == Hashes(LastBody(pr, source)) {
      if source in pr.latest {
        CopyIsTouch(configured, db, pr, source, gen);
        CachedIsAvailable(configured, db, pr, source);
        ReingestIsTouch(cfg, db, body, source, gen, now);
        AlikeSymmetric(ingested, copied);
      } else {
        NoMembershipYet(configured, db, pr, source, gen);
        NothingStandsForNothing(db, source, gen, body, now);
      }
    }
  }

  lemma SameTables(a: Db, b: Db)
    requires Alike(a, b)
    ensures a.members == b.members
  {
  }

  lemma NothingStandsForNothing(db: Db, source: Source, gen: int, body: seq<Proxy>, now: int)
    requires EarlierGens(db, source, gen) == {} && Hashes(body) == Hashes([])
    ensures Alike(CopyGeneration(db, source, gen), IngestAll(db, body, gen, now))
  {
    assert Hashes([]) == {};
    assert forall p :: p in body ==> p.hash in Hashes(body);
  }

  /** So every 304 of a history that follows the protocol stands for exactly those bodies. */
  lemma HistoryCopyStandsForIff(cfg: Config, configured: set<Source>, tr: seq<Timed>, i: nat, body: seq<Proxy>)
    requires i < |tr| && Conforms(cfg, configured, tr) && tr[i].step.CopyCached?
    requires forall p :: p in body ==> p.source == tr[i].step.source
    ensures Alike(State(cfg, tr, i + 1), IngestAll(State(cfg, tr, i), body, tr[i].step.gen, tr[i].now)) <==>
              Hashes(body) == Hashes(LastBody(ProtoAt(cfg, configured, tr, i), tr[i].step.source))
  {
    hide CopyGeneration, IngestAll, IdsBelow, Rebuildable, Cached, Hashes, Alike;
    HistoryIsCached(cfg, configured, tr, i);
    RowsFollowTheLog(cfg, tr, i);
    assert Allowed(configured, ProtoAt(cfg, configured, tr, i), tr[i]);
    CopyStandsForIff(cfg, configured, State(cfg, tr, i), ProtoAt(cfg, configured, tr, i), tr[i].step.source,
                     tr[i].step.gen,
                     body, tr[i].now);
  }

  lemma AlikeSymmetric(a: Db, b: Db)
    requires Alike(a, b)
    ensures Alike(b, a)
  {
    hide Blur;
  }

  // ---- Whole histories ----

  /** A step, with a 304 replaced by ingesting the source's last body again. */
  function RefetchStep(cfg: Config, db: Db, pr: Proto, t: Timed): Db {
    if t.step.CopyCached? && t.step.source in pr.bodies
    then IngestAll(db, pr.bodies[t.step.source], t.step.gen, t.now)
    else Next(cfg, db, t)
  }

  /** The same history without any 304. */
  function Refetched(cfg: Config, configured: set<Source>, tr: seq<Timed>, i: nat): Db
    requires i <= |tr|
  {
    if i == 0 then EMPTY
    else RefetchStep(cfg, Refetched(cfg, configured, tr, i - 1), ProtoAt(cfg, configured, tr, i - 1), tr[i - 1])
  }

  lemma TransparentStep(cfg: Config, configured: set<Source>, db: Db, ref: Db, pr: Proto, t: Timed)
    requires Alike(db, ref) && IdsBelow(db) && IdsBelow(ref)
    requires Cached(configured, db, pr) && Allowed(configured, pr, t)
    ensures Alike(Next(cfg, db, t), RefetchStep(cfg, ref, pr, t))
    ensures IdsBelow(RefetchStep(cfg, ref, pr, t))
  {
    hide RowStep, Alike, IdsBelow, IngestAll, IngestOne, CopyGeneration, MembersMatch, AllHeld, UniqueHashes;
    StepKeepsAlike(cfg, db, ref, t);
    if t.step.CopyCached? && t.step.source in pr.bodies {
      var body := pr.bodies[t.step.source];
      CopyIsReingest(cfg, configured, db, pr, t.step.source, t.step.gen, t.now);
      IngestAllKeepsAlike(cfg, db, ref, body, t.step.gen, t.now);
      IngestAllKeepsIds(ref, body, t.step.gen, t.now);
      AlikeTransitive(Next(cfg, db, t), IngestAll(db, body, t.step.gen, t.now),
                      IngestAll(ref, body, t.step.gen, t.now));
    }
  }

  /** 304 transparency: after any history that follows the refresh protocol, with probes,
      claims, waits, manual imports and operator actions interleaved anywhere, the store equals the
      one in which every 304 re-ingested the last body: same memberships, last seen
      generations, missing counters, lifecycle states and leases; only raw text may differ. */
  lemma {:induction false} NotModifiedIsTransparent(cfg: Config, configured: set<Source>, tr: seq<Timed>, i: nat)
    requires i <= |tr| && Conforms(cfg, configured, tr)
    ensures Alike(State(cfg, tr, i), Refetched(cfg, configured, tr, i))
    ensures IdsBelow(Refetched(cfg, configured, tr, i))
  {
    hide Next, RowStep, Alike, IdsBelow, Cached, Rebuildable, RefetchStep, Track, Allowed, State, ProtoAt;
    if i == 0 {
      StartAlike(cfg, configured, tr);
    } else {
      NotModifiedIsTransparent(cfg, configured, tr, i - 1);
      RowsFollowTheLog(cfg, tr, i - 1);
      HistoryIsCached(cfg, configured, tr, i - 1);
      TransparentStep(cfg, configured, State(cfg, tr, i - 1), Refetched(cfg, configured, tr, i - 1),
                      ProtoAt(cfg, configured, tr, i - 1), tr[i - 1]);
      StateStep(cfg, tr, i - 1);
    }
  }

  lemma StateStep(cfg: Config, tr: seq<Timed>, i: nat)
    requires i < |tr|
    ensures State(cfg, tr, i + 1) == Next(cfg, State(cfg, tr, i), tr[i])
  {
    hide Next;
  }

  lemma StartAlike(cfg: Config, configured: set<Source>, tr: seq<Timed>)
    ensures Alike(State(cfg, tr, 0), Refetched(cfg, configured, tr, 0))
    ensures IdsBelow(Refetched(cfg, configured, tr, 0))
  {
  }

  /** After an empty body a 304 stands for ingesting nothing exactly when the source never
      had a member: otherwise the older membership comes back. */
  lemma EmptyBodyIsNotCached(db: Db, source: Source, gen: int, now: int)
    requires HashesAt(db, source, gen) == {}
    ensures Alike(CopyGeneration(db, source, gen), IngestAll(db, [], gen, now)) <==> EarlierGens(db, source, gen) == {}
  {
    var gens := EarlierGens(db, source, gen);
    if gens != {} {
      var last := SetMax(gens);
      var m :| m in db.members && m.source == source && m.gen < gen && m.gen == last;
      assert m.hash in HashesAt(db, source, last);
      var copied := Member(gen, source, m.hash);
      assert copied in CopyGeneration(db, source, gen).members;
      assert copied in db.members ==> m.hash in HashesAt(db, source, gen);
      assert CopyGeneration(db, source, gen).(nodes := map[]).members != db.(nodes := map[]).members;
    } else {
      hide Blur;
    }
  }
}
