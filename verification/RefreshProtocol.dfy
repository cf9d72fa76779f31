/** The refresh protocol seen as a cache: what each source served last, and the
    store invariant that keeps that body servable again by a 304. */
module RefreshProtocol {
  import opened Domain
  import opened Database
  import opened Ledgers
  import opened Lifecycle
  import opened Reconciliation
  import opened Ranking

  const MANUAL: Source := "manual"

  /** Bookkeeping that is not in the store: the open generation, the sources answered by
      304 in it, and for every source its last body and the generation of its last membership. */
  datatype Proto = Proto(
    open: Option<int>,
    copied: set<Source>,
    bodies: map<Source, seq<Proxy>>,
    latest: map<Source, int>)

  const IDLE: Proto := Proto(None, {}, map[], map[])

  function Track(configured: set<Source>, db: Db, pr: Proto, t: Timed): Proto {
    match t.step
    case BeginRefresh => pr.(open := Some(db.lastGen + 1), copied := {})
    case CopyCached(source, gen) =>
      pr.(copied := pr.copied + {source}, latest := if source in pr.latest then pr.latest[source := gen] else pr.latest)
    case Ingest(p, gen) =>
      if p.source !in configured then pr
      else
        var served := if p.source in pr.bodies && p.source in pr.latest && pr.latest[p.source] == gen
                      then pr.bodies[p.source] else [];
        pr.(bodies := pr.bodies[p.source := served + [p]], latest := pr.latest[p.source := gen])
    case FinishRefresh(_, _, _) => pr.(open := None)
    case _ => pr
  }

  /** Refreshes over a fixed source list, one after the other, each of which may be abandoned at
      any point; 304 answers from any source; a refresh is complete only if every source that ever had
      a membership left one, that is, it served no empty body; manual imports at any time. */
  ghost predicate Allowed(configured: set<Source>, pr: Proto, t: Timed) {
    match t.step
    case CopyCached(source, gen) =>
      pr.open == Some(gen) && source in configured && (source in pr.latest ==> pr.latest[source] < gen)
    case Ingest(p, gen) =>
      (gen == 0 && p.source == MANUAL && MANUAL !in configured)
      || (pr.open == Some(gen) && p.source in configured && p.source !in pr.copied)
    case FinishRefresh(gen, _, _) =>
      pr.open == Some(gen)
      && (Complete(t.step) ==> forall s :: s in pr.latest ==> pr.latest[s] == gen)
    case _ => true
  }

  function ProtoAt(cfg: Config, configured: set<Source>, tr: seq<Timed>, i: nat): Proto
    requires i <= |tr|
  {
    if i == 0 then IDLE
    else Track(configured, State(cfg, tr, i - 1), ProtoAt(cfg, configured, tr, i - 1), tr[i - 1])
  }

  ghost predicate Conforms(cfg: Config, configured: set<Source>, tr: seq<Timed>) {
    forall i :: 0 <= i < |tr| ==> Allowed(configured, ProtoAt(cfg, configured, tr, i), tr[i])
  }

  // ---- The invariant ----

  function Hashes(ps: seq<Proxy>): set<Hash> {
    set p | p in ps :: p.hash
  }

  ghost predicate UniqueHashes(db: Db) {
    forall a, b :: a in db.nodes && b in db.nodes && db.nodes[a].hash == db.nodes[b].hash ==> a == b
  }

  /** The last body of the source that reached the store, if any has. */
  function LastBody(pr: Proto, source: Source): seq<Proxy> {
    if source in pr.bodies then pr.bodies[source] else []
  }

  /** The row keeps the identity `h` available to `source`: it is not retired, lists the
      source, and was seen in the open generation if the source already answered in it. */
  ghost predicate HeldBy(db: Db, pr: Proto, source: Source, h: Hash, id: NodeId)
    requires source in pr.latest
  {
    && id in db.nodes
    && var n := db.nodes[id];
    && n.hash == h && source in n.sources && !n.lifecycle.Retired?
    && (pr.open == Some(pr.latest[source]) ==>
          n.missing == 0 && (n.lastSeen == pr.latest[source] || IsManual(n.sources)))
  }

  ghost predicate AllHeld(db: Db, pr: Proto) {
    forall s, h :: s in pr.latest && s in pr.bodies && h in Hashes(pr.bodies[s]) ==>
      exists id :: HeldBy(db, pr, s, h, id)
  }

  ghost predicate Bookkept(configured: set<Source>, db: Db, pr: Proto) {
    && pr.latest.Keys == pr.bodies.Keys && pr.latest.Keys <= configured
    && (pr.open.Some? ==> pr.open.value == db.lastGen)
    && (forall s :: s in pr.bodies ==>
          pr.bodies[s] != [] && pr.latest[s] <= db.lastGen && (forall p :: p in pr.bodies[s] ==> p.source == s))
  }

  ghost predicate MembersMatch(configured: set<Source>, db: Db, pr: Proto)
    requires Bookkept(configured, db, pr)
  {
    && (forall m :: m in db.members && m.source in configured ==>
          m.source in pr.latest && m.gen <= pr.latest[m.source])
    && (forall s :: s in pr.latest ==> HashesAt(db, s, pr.latest[s]) == Hashes(pr.bodies[s]))
  }

  ghost predicate Cached(configured: set<Source>, db: Db, pr: Proto) {
    UniqueHashes(db) && Bookkept(configured, db, pr) && MembersMatch(configured, db, pr) && AllHeld(db, pr)
  }

  lemma BodyGrows(ps: seq<Proxy>, p: Proxy)
    ensures Hashes(ps + [p]) == Hashes(ps) + {p.hash}
  {
    assert p in ps + [p];
    assert forall q :: q in ps ==> q in ps + [p];
  }

  lemma TrackBookkept(cfg: Config, configured: set<Source>, db: Db, pr: Proto, t: Timed)
    requires Bookkept(configured, db, pr) && Allowed(configured, pr, t)
    ensures Bookkept(configured, Next(cfg, db, t), Track(configured, db, pr, t))
  {
    hide Next, Known, LogStep, HashesAt, EarlierGens, CopyMembers, MentionsManual;
    NextTables(cfg, db, t);
  }

  lemma LatestIsMax(configured: set<Source>, db: Db, pr: Proto, s: Source, gen: int)
    requires Bookkept(configured, db, pr) && MembersMatch(configured, db, pr)
    requires s in pr.latest && pr.latest[s] < gen
    ensures EarlierGens(db, s, gen) != {} && SetMax(EarlierGens(db, s, gen)) == pr.latest[s]
    ensures HashesAt(db, s, gen) == {}
    ensures HashesAt(CopyMembers(db, s, gen), s, gen) == Hashes(pr.bodies[s])
  {
    var p := pr.bodies[s][0];
    assert p.hash in HashesAt(db, s, pr.latest[s]);
    assert Member(pr.latest[s], s, p.hash) in db.members;
    assert pr.latest[s] in EarlierGens(db, s, gen);
    assert forall g :: g in EarlierGens(db, s, gen) ==> g <= pr.latest[s];
    var copied := set h | h in HashesAt(db, s, pr.latest[s]) :: Member(gen, s, h);
    var db' := CopyMembers(db, s, gen);
    assert db'.members == db.members + copied;
    forall h | h in Hashes(pr.bodies[s])
      ensures h in HashesAt(db', s, gen)
    {
      assert Member(gen, s, h) in db'.members;
    }
  }

  lemma NoMembershipYet(configured: set<Source>, db: Db, pr: Proto, s: Source, gen: int)
    requires Bookkept(configured, db, pr) && MembersMatch(configured, db, pr) && s in configured && s !in pr.latest
    ensures EarlierGens(db, s, gen) == {} && HashesAt(db, s, gen) == {}
  {
  }

  lemma CopyMembersMatch(cfg: Config, configured: set<Source>, db: Db, pr: Proto, t: Timed)
    requires Bookkept(configured, db, pr) && MembersMatch(configured, db, pr) && Allowed(configured, pr, t)
    requires t.step.CopyCached?
    ensures Bookkept(configured, Next(cfg, db, t), Track(configured, db, pr, t))
    ensures MembersMatch(configured, Next(cfg, db, t), Track(configured, db, pr, t))
  {
    hide Next, Known, LogStep, MentionsManual;
    var source, gen := t.step.source, t.step.gen;
    var db', pr' := Next(cfg, db, t), Track(configured, db, pr, t);
    TrackBookkept(cfg, configured, db, pr, t);
    NextTables(cfg, db, t);
    if source in pr.latest {
      LatestIsMax(configured, db, pr, source, gen);
    } else {
      NoMembershipYet(configured, db, pr, source, gen);
    }
    assert db'.members == CopyMembers(db, source, gen).members;
    forall s | s in pr'.latest
      ensures HashesAt(db', s, pr'.latest[s]) == Hashes(pr'.bodies[s])
    {
      if s == source {
        assert HashesAt(db', s, gen) == HashesAt(CopyMembers(db, source, gen), s, gen);
      } else {
        assert HashesAt(db', s, pr.latest[s]) == HashesAt(db, s, pr.latest[s]);
      }
    }
  }

  lemma IngestMembersMatch(cfg: Config, configured: set<Source>, db: Db, pr: Proto, t: Timed)
    requires Bookkept(configured, db, pr) && MembersMatch(configured, db, pr) && Allowed(configured, pr, t)
    requires t.step.Ingest?
    ensures Bookkept(configured, Next(cfg, db, t), Track(configured, db, pr, t))
    ensures MembersMatch(configured, Next(cfg, db, t), Track(configured, db, pr, t))
  {
    hide Next, Known, LogStep, MentionsManual;
    var p, gen := t.step.proxy, t.step.gen;
    var db', pr' := Next(cfg, db, t), Track(configured, db, pr, t);
    TrackBookkept(cfg, configured, db, pr, t);
    NextTables(cfg, db, t);
    assert db'.members == db.members + {Member(gen, p.source, p.hash)};
    forall s | s in pr'.latest
      ensures HashesAt(db', s, pr'.latest[s]) == Hashes(pr'.bodies[s])
    {
      if s == p.source && p.source in configured {
        var first := s !in pr.latest || pr.latest[s] != gen;
        var served := if first then [] else pr.bodies[s];
        BodyGrows(served, p);
        assert HashesAt(db, s, gen) == Hashes(served);
        assert Member(gen, s, p.hash) in db'.members;
        assert HashesAt(db', s, gen) == HashesAt(db, s, gen) + {p.hash};
      } else {
        assert HashesAt(db', s, pr.latest[s]) == HashesAt(db, s, pr.latest[s]);
      }
    }
  }

  lemma TrackMembersMatch(cfg: Config, configured: set<Source>, db: Db, pr: Proto, t: Timed)
    requires Bookkept(configured, db, pr) && MembersMatch(configured, db, pr) && Allowed(configured, pr, t)
    ensures Bookkept(configured, Next(cfg, db, t), Track(configured, db, pr, t))
    ensures MembersMatch(configured, Next(cfg, db, t), Track(configured, db, pr, t))
  {
    hide Next, Known, LogStep, MentionsManual;
    if t.step.CopyCached? {
      CopyMembersMatch(cfg, configured, db, pr, t);
    } else if t.step.Ingest? {
      IngestMembersMatch(cfg, configured, db, pr, t);
    } else {
      TrackBookkept(cfg, configured, db, pr, t);
      NextTables(cfg, db, t);
      var db' := Next(cfg, db, t);
      assert db'.members == db.members;
      assert forall s, g :: HashesAt(db', s, g) == HashesAt(db, s, g);
    }
  }

  lemma StepKeepsUnique(cfg: Config, db: Db, t: Timed, db': Db)
    requires RowWise(cfg, db, t, db') && UniqueHashes(db)
    ensures UniqueHashes(db')
  {
    hide RowStep, Sees;
    forall a | a in db'.nodes && a in db.nodes
      ensures db'.nodes[a].hash == db.nodes[a].hash
    {
      if Sees(db, t, db.nodes[a].hash) {
        StepSeen(cfg, db, t, a);
      } else {
        StepUnseen(cfg, db, t, a);
      }
    }
  }

  /** `config_hash` is unique in every reachable store. */
  lemma {:induction false} HistoryHasUniqueHashes(cfg: Config, tr: seq<Timed>, i: nat)
    requires i <= |tr|
    ensures UniqueHashes(State(cfg, tr, i))
  {
    hide Next, RowStep;
    if i > 0 {
      HistoryHasUniqueHashes(cfg, tr, i - 1);
      HistoryRowWise(cfg, tr, i - 1);
      StepKeepsUnique(cfg, State(cfg, tr, i - 1), tr[i - 1], State(cfg, tr, i));
    }
  }

  lemma ManualMentioned(sources: set<Source>)
    requires MANUAL in sources
    ensures IsManual(sources)
  {
    assert Lower(MANUAL[0..6]) == "manual";
    assert ManualAt(MANUAL, 0);
  }

  lemma StepKeepsHeld(cfg: Config, configured: set<Source>, db: Db, pr: Proto, t: Timed, db': Db, s: Source, h: Hash,
                      id: NodeId)
    requires RowWise(cfg, db, t, db') && AllShaped(db)
    requires Bookkept(configured, db, pr) && MembersMatch(configured, db, pr) && Allowed(configured, pr, t)
    requires s in pr.latest && HeldBy(db, pr, s, h, id)
    requires t.step.CopyCached? && t.step.source == s ==> h in Hashes(pr.bodies[s])
    requires t.step.Ingest? && t.step.proxy.source == s && pr.latest[s] != t.step.gen ==> t.step.proxy.hash == h
    ensures s in Track(configured, db, pr, t).latest
    ensures HeldBy(db', Track(configured, db, pr, t), s, h, id)
  {
    hide RowStep, IsManual, EarlierGens, HashesAt, CopyMembers, Hashes;
    var n := db.nodes[id];
    var n' := db'.nodes[id];
    if t.step.CopyCached? && t.step.source == s {
      LatestIsMax(configured, db, pr, s, t.step.gen);
    }
    if Sees(db, t, n.hash) {
      StepSeen(cfg, db, t, id);
      if t.step.Ingest? && t.step.gen == 0 && t.step.proxy.source == MANUAL && MANUAL !in configured {
        IngestAddsSource(cfg, db, t, id);
        ManualMentioned(n'.sources);
      }
    } else {
      StepUnseen(cfg, db, t, id);
    }
    if n'.lifecycle.Retired? {
      StepRetires(cfg, db, t, id);
      assert false;
    }
  }

  lemma IngestAddsSource(cfg: Config, db: Db, t: Timed, id: NodeId)
    requires id in db.nodes && t.step.Ingest? && t.step.proxy.hash == db.nodes[id].hash
    ensures RowStep(cfg, db, t, id).sources == db.nodes[id].sources + {t.step.proxy.source}
    ensures !RowStep(cfg, db, t, id).lifecycle.Retired?
  {
  }

  /** A newly observed identity is held by its row, old or new. */
  lemma IngestHolds(cfg: Config, configured: set<Source>, db: Db, pr: Proto, t: Timed, db': Db)
    requires RowWise(cfg, db, t, db') && IdsBelow(db) && t.step.Ingest?
    requires t.step.proxy.source in configured && Allowed(configured, pr, t)
    ensures t.step.proxy.source in Track(configured, db, pr, t).latest
    ensures exists id :: HeldBy(db', Track(configured, db, pr, t), t.step.proxy.source, t.step.proxy.hash, id)
  {
    hide RowStep, IsManual, LogStep;
    var p := t.step.proxy;
    var pr' := Track(configured, db, pr, t);
    if Known(db, p.hash) {
      var id :| id in db.nodes && db.nodes[id].hash == p.hash;
      StepSeen(cfg, db, t, id);
      IngestAddsSource(cfg, db, t, id);
      assert HeldBy(db', pr', p.source, p.hash, id);
    } else {
      assert db.nextId in db'.nodes;
      assert HeldBy(db', pr', p.source, p.hash, db.nextId);
    }
  }

  lemma StepKeepsAllHeld(cfg: Config, configured: set<Source>, db: Db, pr: Proto, t: Timed, db': Db)
    requires RowWise(cfg, db, t, db') && AllShaped(db) && IdsBelow(db)
    requires Cached(configured, db, pr) && Allowed(configured, pr, t)
    ensures AllHeld(db', Track(configured, db, pr, t))
  {
    hide RowStep, IsManual, EarlierGens, HashesAt, LogStep, HeldBy, RowWise, AllShaped, IdsBelow, UniqueHashes;
    var pr' := Track(configured, db, pr, t);
    forall s, h | s in pr'.latest && s in pr'.bodies && h in Hashes(pr'.bodies[s])
      ensures exists id :: HeldBy(db', pr', s, h, id)
    {
      if t.step.Ingest? && t.step.proxy.source == s && s in configured && h == t.step.proxy.hash {
        IngestHolds(cfg, configured, db, pr, t, db');
      } else {
        if t.step.Ingest? && t.step.proxy.source == s && s in configured && s in pr.bodies
           && pr.latest[s] == t.step.gen {
          BodyGrows(pr.bodies[s], t.step.proxy);
        }
        assert s in pr.latest && h in Hashes(pr.bodies[s]);
        var id :| HeldBy(db, pr, s, h, id);
        StepKeepsHeld(cfg, configured, db, pr, t, db', s, h, id);
      }
    }
  }

  lemma StepIsCached(cfg: Config, configured: set<Source>, db: Db, pr: Proto, t: Timed)
    requires IdsBelow(db) && AllShaped(db) && Cached(configured, db, pr) && Allowed(configured, pr, t)
    ensures Cached(configured, Next(cfg, db, t), Track(configured, db, pr, t))
  {
    hide Next, RowStep, Track, AllHeld, RowWise, UniqueHashes, IdsBelow, AllShaped, Allowed, HashesAt;
    NextRowWise(cfg, db, t);
    TrackMembersMatch(cfg, configured, db, pr, t);
    StepKeepsUnique(cfg, db, t, Next(cfg, db, t));
    StepKeepsAllHeld(cfg, configured, db, pr, t, Next(cfg, db, t));
  }

  /** In every history that follows the protocol, the latest membership of each configured
      source is its last served body, and every identity in it has one unretired row. */
  lemma {:induction false} HistoryIsCached(cfg: Config, configured: set<Source>, tr: seq<Timed>, i: nat)
    requires i <= |tr| && Conforms(cfg, configured, tr)
    ensures Cached(configured, State(cfg, tr, i), ProtoAt(cfg, configured, tr, i))
  {
    hide Next, RowStep, Track, IdsBelow, Rebuildable, AllShaped, Allowed;
    if i == 0 {
      EmptyIsCached(configured);
    } else {
      hide Cached;
      HistoryIsCached(cfg, configured, tr, i - 1);
      RowsAreShaped(cfg, tr, i - 1);
      RowsFollowTheLog(cfg, tr, i - 1);
      StepIsCached(cfg, configured, State(cfg, tr, i - 1), ProtoAt(cfg, configured, tr, i - 1), tr[i - 1]);
    }
  }

  lemma EmptyIsCached(configured: set<Source>)
    ensures Cached(configured, EMPTY, IDLE)
  {
  }

  /** No RETIRED row belongs to any configured source's latest membership. */
  lemma LatestMembersAreNotRetired(cfg: Config, configured: set<Source>, tr: seq<Timed>, i: nat, s: Source, id: NodeId)
    requires i <= |tr| && Conforms(cfg, configured, tr)
    requires s in ProtoAt(cfg, configured, tr, i).latest && id in State(cfg, tr, i).nodes
    requires State(cfg, tr, i).nodes[id].hash in
               HashesAt(State(cfg, tr, i), s, ProtoAt(cfg, configured, tr, i).latest[s])
    ensures !State(cfg, tr, i).nodes[id].lifecycle.Retired?
  {
    hide Next, Track, HashesAt;
    HistoryIsCached(cfg, configured, tr, i);
    var db, pr := State(cfg, tr, i), ProtoAt(cfg, configured, tr, i);
    var h := db.nodes[id].hash;
    assert h in Hashes(pr.bodies[s]);
    var holder :| HeldBy(db, pr, s, h, holder);
    assert holder == id;
  }
}
