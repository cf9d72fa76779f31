/** A whole refresh with 304 answers against the same refresh with every body fetched. */
module RefreshTransparency {
  import opened Domain
  import opened Database
  import opened Ledgers
  import opened Lifecycle
  import opened RefreshProtocol
  import opened NotModified
  import opened Ranking
  import opened Upstream

  /** The answer the source would have given without a cache: its last body again. */
  function Fetched(pr: Proto, r: Reply): Reply {
    if r.answer.Unchanged? then r.(answer := Body(LastBody(pr, r.source), 0)) else r
  }

  function AllFetched(pr: Proto, replies: seq<Reply>): (r: seq<Reply>)
    ensures |r| == |replies|
  {
    seq(|replies|, i requires 0 <= i < |replies| => Fetched(pr, replies[i]))
  }

  // ---- A 304 commutes with the bodies of other sources ----

  /** The identities marked as seen by a 304. */
  function SeenByCopy(db: Db, source: Source, gen: int): set<Hash> {
    HashesAt(CopyMembers(db, source, gen), source, gen)
  }

  lemma OtherMembersStay(db: Db, p: Proxy, source: Source, gen: int, now: int)
    requires p.source != source
    ensures EarlierGens(IngestOne(db, p, gen, now), source, gen) == EarlierGens(db, source, gen)
    ensures forall g :: HashesAt(IngestOne(db, p, gen, now), source, g) == HashesAt(db, source, g)
    ensures CopyMembers(IngestOne(db, p, gen, now), source, gen).members
         == CopyMembers(db, source, gen).members + {Member(gen, p.source, p.hash)}
    ensures SeenByCopy(IngestOne(db, p, gen, now), source, gen) == SeenByCopy(db, source, gen)
  {
    var db' := IngestOne(db, p, gen, now);
    assert db'.members == db.members + {Member(gen, p.source, p.hash)};
    assert EarlierGens(db', source, gen) == EarlierGens(db, source, gen);
    forall g
      ensures HashesAt(db', source, g) == HashesAt(db, source, g)
    {
    }
    assert CopyMembers(db', source, gen).members
        == CopyMembers(db, source, gen).members + {Member(gen, p.source, p.hash)};
  }

  lemma SeenRowsCommute(n: Node, p: Proxy, gen: int, now: int)
    ensures CopiedRow(SeenRow(n, p, gen, now), gen) == SeenRow(CopiedRow(n, gen), p, gen, now)
    ensures CopiedRow(NewRow(p, gen, now), gen) == NewRow(p, gen, now)
  {
  }

  lemma CopyKnows(db: Db, source: Source, gen: int, h: Hash)
    ensures Known(CopyGeneration(db, source, gen), h) == Known(db, h)
  {
    hide CopyMembers, HashesAt, EarlierGens;
    var db' := CopyGeneration(db, source, gen);
    assert db'.nodes.Keys == db.nodes.Keys;
    assert forall id :: id in db.nodes ==> db'.nodes[id].hash == db.nodes[id].hash;
  }

  lemma CopyCommutesRow(db: Db, p: Proxy, source: Source, gen: int, now: int, id: NodeId)
    requires IdsBelow(db) && p.source != source && EarlierGens(db, source, gen) != {}
    requires id in IngestOne(db, p, gen, now).nodes
    ensures var left := CopyGeneration(IngestOne(db, p, gen, now), source, gen);
      var right := IngestOne(CopyGeneration(db, source, gen), p, gen, now);
      id in left.nodes && id in right.nodes && left.nodes[id] == right.nodes[id]
  {
    OtherMembersStay(db, p, source, gen, now);
    CopyKnows(db, source, gen, p.hash);
    CopyKeepsTables(db, source, gen);
    hide CopyMembers, HashesAt, EarlierGens, Known;
    SeenRowsCommute(if id in db.nodes then db.nodes[id] else NewRow(p, gen, now), p, gen, now);
  }

  lemma CopyKeepsIds(db: Db, source: Source, gen: int)
    ensures CopyGeneration(db, source, gen).nodes.Keys == db.nodes.Keys
    ensures IdsBelow(db) ==> IdsBelow(CopyGeneration(db, source, gen))
  {
    hide CopyMembers, HashesAt, EarlierGens;
    CopyKeepsTables(db, source, gen);
  }

  lemma IngestTables(db: Db, p: Proxy, gen: int, now: int)
    ensures var db' := IngestOne(db, p, gen, now);
      && db'.nodes.Keys == db.nodes.Keys + (if Known(db, p.hash) then {} else {db.nextId})
      && db'.members == db.members + {Member(gen, p.source, p.hash)}
      && db'.log == db.log && db'.lastGen == db.lastGen && db'.completeGen == db.completeGen
      && db'.nextId == db.nextId + (if Known(db, p.hash) then 0 else 1)
  {
    hide Known;
  }

  lemma CopyCommutes(db: Db, p: Proxy, source: Source, gen: int, now: int)
    requires IdsBelow(db) && p.source != source
    ensures CopyGeneration(IngestOne(db, p, gen, now), source, gen)
         == IngestOne(CopyGeneration(db, source, gen), p, gen, now)
  {
    OtherMembersStay(db, p, source, gen, now);
    if EarlierGens(db, source, gen) != {} {
      var left := CopyGeneration(IngestOne(db, p, gen, now), source, gen);
      var right := IngestOne(CopyGeneration(db, source, gen), p, gen, now);
      forall id | id in IngestOne(db, p, gen, now).nodes
        ensures id in left.nodes && id in right.nodes && left.nodes[id] == right.nodes[id]
      {
        CopyCommutesRow(db, p, source, gen, now, id);
      }
      hide CopyGeneration, IngestOne, CopyMembers, HashesAt, EarlierGens, Known;
      CopyKnows(db, source, gen, p.hash);
      CopyKeepsIds(db, source, gen);
      CopyKeepsIds(IngestOne(db, p, gen, now), source, gen);
      CopyKeepsTables(db, source, gen);
      CopyKeepsTables(IngestOne(db, p, gen, now), source, gen);
      IngestTables(db, p, gen, now);
      IngestTables(CopyGeneration(db, source, gen), p, gen, now);
      assert left.nodes == right.nodes;
    }
  }

  lemma CopyKeepsTables(db: Db, source: Source, gen: int)
    ensures var db' := CopyGeneration(db, source, gen);
      db'.log == db.log && db'.lastGen == db.lastGen && db'.completeGen == db.completeGen && db'.nextId == db.nextId
    ensures EarlierGens(db, source, gen) != {} ==>
              CopyGeneration(db, source, gen).members == CopyMembers(db, source, gen).members
  {
  }

  lemma {:induction false} CopyCommutesAll(db: Db, ps: seq<Proxy>, source: Source, gen: int, now: int)
    requires IdsBelow(db) && forall p :: p in ps ==> p.source != source
    ensures CopyGeneration(IngestAll(db, ps, gen, now), source, gen)
         == IngestAll(CopyGeneration(db, source, gen), ps, gen, now)
  {
    hide CopyGeneration, IngestOne, IdsBelow;
    if |ps| > 0 {
      var init := ps[..|ps| - 1];
      CopyCommutesAll(db, init, source, gen, now);
      IngestAllKeepsIds(db, init, gen, now);
      CopyCommutes(IngestAll(db, init, gen, now), ps[|ps| - 1], source, gen, now);
    }
  }

  // ---- A 304 after other bodies have been ingested is still a re-ingestion ----

  lemma {:induction false} OtherMembersStayAll(db: Db, ps: seq<Proxy>, source: Source, gen: int, now: int)
    requires forall p :: p in ps ==> p.source != source
    ensures EarlierGens(IngestAll(db, ps, gen, now), source, gen) == EarlierGens(db, source, gen)
    ensures forall g :: HashesAt(IngestAll(db, ps, gen, now), source, g) == HashesAt(db, source, g)
  {
    hide IngestOne, EarlierGens, HashesAt;
    if |ps| > 0 {
      var init := ps[..|ps| - 1];
      OtherMembersStayAll(db, init, source, gen, now);
      OtherMembersStay(IngestAll(db, init, gen, now), ps[|ps| - 1], source, gen, now);
    }
  }

  lemma IngestKeepsAvailable(db: Db, p: Proxy, hs: set<Hash>, source: Source, gen: int, now: int)
    requires IdsBelow(db) && Available(db, hs, source)
    ensures Available(IngestOne(db, p, gen, now), hs, source)
  {
    var db' := IngestOne(db, p, gen, now);
    forall h | h in hs
      ensures Known(db', h)
    {
      var id :| id in db.nodes && db.nodes[id].hash == h;
      assert id in db'.nodes && db'.nodes[id].hash == h;
    }
  }

  lemma {:induction false} IngestAllKeepsAvailable(db: Db, ps: seq<Proxy>, hs: set<Hash>, source: Source, gen: int,
                                                   now: int)
    requires IdsBelow(db) && Available(db, hs, source)
    ensures Available(IngestAll(db, ps, gen, now), hs, source)
  {
    hide IngestOne, Available, IdsBelow;
    if |ps| > 0 {
      var init := ps[..|ps| - 1];
      IngestAllKeepsAvailable(db, init, hs, source, gen, now);
      IngestAllKeepsIds(db, init, gen, now);
      IngestKeepsAvailable(IngestAll(db, init, gen, now), ps[|ps| - 1], hs, source, gen, now);
    }
  }

  lemma CopyTouches(db: Db, source: Source, gen: int, hs: set<Hash>)
    requires EarlierGens(db, source, gen) != {} && HashesAt(db, source, SetMax(EarlierGens(db, source, gen))) == hs
    requires HashesAt(db, source, gen) == {}
    ensures CopyGeneration(db, source, gen) == Touch(db, hs, source, gen)
  {
    hide CopiedRow;
    var db' := CopyMembers(db, source, gen);
    assert HashesAt(db', source, gen) == hs by {
      forall h
        ensures h in HashesAt(db', source, gen) <==> h in hs
      {
        assert h in hs ==> Member(gen, source, h) in db'.members;
        assert Member(gen, source, h) in db.members ==> h in HashesAt(db, source, gen);
      }
    }
  }

  lemma CopyIsReingestAfter(cfg: Config, configured: set<Source>, db: Db, pr: Proto, ps: seq<Proxy>, source: Source,
                            gen: int, now: int)
    requires IdsBelow(db) && Cached(configured, db, pr)
    requires source in pr.latest && pr.latest[source] < gen && forall p :: p in ps ==> p.source != source
    ensures var here := IngestAll(db, ps, gen, now);
      Alike(CopyGeneration(here, source, gen), IngestAll(here, pr.bodies[source], gen, now))
  {
    hide Hashes, Touch, Alike, CopyGeneration, IngestAll, Available, IdsBelow, AllHeld, HashesAt, EarlierGens;
    hide UniqueHashes;
    var here, hs := IngestAll(db, ps, gen, now), Hashes(pr.bodies[source]);
    LatestIsMax(configured, db, pr, source, gen);
    OtherMembersStayAll(db, ps, source, gen, now);
    CopyTouches(here, source, gen, hs);
    CachedIsAvailable(configured, db, pr, source);
    IngestAllKeepsAvailable(db, ps, hs, source, gen, now);
    IngestAllKeepsIds(db, ps, gen, now);
    ReingestIsTouch(cfg, here, pr.bodies[source], source, gen, now);
    AlikeSymmetric(IngestAll(here, pr.bodies[source], gen, now), Touch(here, hs, source, gen));
  }

  /** A 304 of a source without a membership does nothing. */
  lemma CopyOfNothingAfter(configured: set<Source>, db: Db, pr: Proto, ps: seq<Proxy>, source: Source, gen: int,
                           now: int)
    requires Cached(configured, db, pr) && source in configured && source !in pr.latest
    requires forall p :: p in ps ==> p.source != source
    ensures var here := IngestAll(db, ps, gen, now);
      Alike(CopyGeneration(here, source, gen), IngestAll(here, LastBody(pr, source), gen, now))
  {
    hide IngestAll, IdsBelow, AllHeld, HashesAt, EarlierGens, UniqueHashes;
    NoMembershipYet(configured, db, pr, source, gen);
    OtherMembersStayAll(db, ps, source, gen, now);
    IngestNothing(IngestAll(db, ps, gen, now), gen, now);
  }

  lemma IngestNothing(db: Db, gen: int, now: int)
    ensures IngestAll(db, [], gen, now) == db
  {
  }

  // ---- The whole refresh ----

  lemma {:induction false} CopiesKeepIds(cfg: Config, db: Db, replies: seq<Reply>, gen: int)
    requires IdsBelow(db)
    ensures IdsBelow(Play(cfg, db, Copies(replies, gen)))
  {
    hide CopyGeneration, IdsBelow;
    if |replies| > 0 {
      var init, r := replies[..|replies| - 1], replies[|replies| - 1];
      CopiesKeepIds(cfg, db, init, gen);
      if r.answer.Unchanged? {
        CopyPlayed(cfg, db, init, gen, r);
        CopyKeepsIds(Play(cfg, db, Copies(init, gen)), r.source, gen);
      } else {
        assert Copies(replies, gen) == Copies(init, gen);
      }
    }
  }

  lemma CopyPlayed(cfg: Config, db: Db, init: seq<Reply>, gen: int, r: Reply)
    requires r.answer.Unchanged?
    ensures Play(cfg, db, Copies(init, gen) + [At(r.at, CopyCached(r.source, gen))])
         == CopyGeneration(Play(cfg, db, Copies(init, gen)), r.source, gen)
  {
    hide CopyGeneration;
    var t := At(r.at, CopyCached(r.source, gen));
    PlayAppend(cfg, db, Copies(init, gen), [t]);
    PlayOne(cfg, Play(cfg, db, Copies(init, gen)), t);
  }

  lemma {:induction false} ParsedSources(replies: seq<Reply>, p: Proxy)
    requires p in Parsed(replies)
    requires forall i :: 0 <= i < |replies| ==> CarriesItsSource(replies[i])
    ensures exists i :: 0 <= i < |replies| && replies[i].source == p.source
  {
    var n := |replies| - 1;
    if p in Parsed(replies[..n]) {
      ParsedSources(replies[..n], p);
      var i :| 0 <= i < n && replies[..n][i].source == p.source;
      assert replies[i].source == p.source;
    } else {
      assert replies[n].source == p.source;
    }
  }

  ghost predicate CarriesItsSource(r: Reply) {
    r.answer.Body? ==> forall p :: p in r.answer.proxies ==> p.source == r.source
  }

  /** The replies a refresh may get, from the point of view of the store. */
  ghost predicate Answerable(configured: set<Source>, replies: seq<Reply>) {
    && (forall i, j :: 0 <= i < j < |replies| ==> replies[i].source != replies[j].source)
    && (forall i :: 0 <= i < |replies| ==> CarriesItsSource(replies[i]))
    && (forall i :: 0 <= i < |replies| && replies[i].answer.Unchanged? ==> replies[i].source in configured)
  }

  lemma FetchedParsed(pr: Proto, replies: seq<Reply>)
    requires |replies| > 0
    ensures var n := |replies| - 1;
      && AllFetched(pr, replies)[..n] == AllFetched(pr, replies[..n])
      && AllFetched(pr, replies)[n] == Fetched(pr, replies[n])
  {
    var n := |replies| - 1;
    assert AllFetched(pr, replies)[..n] == AllFetched(pr, replies[..n]);
  }

  lemma {:induction false} IngestAllAppend(db: Db, a: seq<Proxy>, b: seq<Proxy>, gen: int, now: int)
    ensures IngestAll(db, a + b, gen, now) == IngestAll(IngestAll(db, a, gen, now), b, gen, now)
  {
    hide IngestOne;
    if |b| == 0 {
      assert a + b == a;
    } else {
      var n := |b| - 1;
      assert (a + b)[..|a + b| - 1] == a + b[..n];
      IngestAllAppend(db, a, b[..n], gen, now);
    }
  }

  lemma FetchedSources(configured: set<Source>, db: Db, pr: Proto, replies: seq<Reply>, i: nat)
    requires Bookkept(configured, db, pr) && Answerable(configured, replies) && i < |replies|
    ensures Fetched(pr, replies[i]).source == replies[i].source && CarriesItsSource(Fetched(pr, replies[i]))
    ensures replies[i].answer.Unchanged? ==> Fetched(pr, replies[i]).answer == Body(LastBody(pr, replies[i].source), 0)
  {
  }

  /** After the last reply, bodies and copies so far against bodies alone. */
  lemma OneMoreAlike(cfg: Config, configured: set<Source>, db: Db, pr: Proto, left: Db, right: Db, ps: seq<Proxy>,
                     r: Reply, gen: int, now: int)
    requires IdsBelow(db) && IdsBelow(left) && Cached(configured, db, pr) && Alike(left, right)
    requires right == IngestAll(db, ps, gen, now) && (forall p :: p in ps ==> p.source != r.source)
    requires r.answer.Unchanged? && r.source in configured && (r.source in pr.latest ==> pr.latest[r.source] < gen)
    ensures Alike(CopyGeneration(left, r.source, gen), IngestAll(right, LastBody(pr, r.source), gen, now))
  {
    hide Next, Alike, IngestAll, CopyGeneration, Cached, IdsBelow;
    CachedIsBookkept(configured, db, pr);
    IngestAllKeepsIds(db, ps, gen, now);
    CopyStep(cfg, left, r.source, gen);
    CopyStep(cfg, right, r.source, gen);
    StepKeepsAlike(cfg, left, right, At(0, CopyCached(r.source, gen)));
    if r.source in pr.latest {
      CopyIsReingestAfter(cfg, configured, db, pr, ps, r.source, gen, now);
    } else {
      CopyOfNothingAfter(configured, db, pr, ps, r.source, gen, now);
    }
    AlikeTransitive(CopyGeneration(left, r.source, gen), CopyGeneration(right, r.source, gen),
                    IngestAll(right, LastBody(pr, r.source), gen, now));
  }

  lemma CopyStep(cfg: Config, db: Db, source: Source, gen: int)
    ensures Next(cfg, db, At(0, CopyCached(source, gen))) == CopyGeneration(db, source, gen)
  {
  }

  lemma NoReplies(cfg: Config, db: Db, pr: Proto, replies: seq<Reply>, gen: int, now: int)
    requires replies == []
    ensures Alike(IngestAll(Play(cfg, db, Copies(replies, gen)), Parsed(replies), gen, now),
                  IngestAll(db, Parsed(AllFetched(pr, replies)), gen, now))
  {
    hide Next;
  }

  lemma AnswerablePrefix(configured: set<Source>, replies: seq<Reply>)
    requires Answerable(configured, replies) && |replies| > 0
    ensures Answerable(configured, replies[..|replies| - 1])
  {
    hide CarriesItsSource;
  }

  /** No earlier body comes from the source of the last reply. */
  lemma UnchangedSources(configured: set<Source>, db: Db, pr: Proto, replies: seq<Reply>)
    requires Bookkept(configured, db, pr) && Answerable(configured, replies) && |replies| > 0
    ensures var init, r := replies[..|replies| - 1], replies[|replies| - 1];
      && (forall p :: p in Parsed(init) ==> p.source != r.source)
      && (forall p :: p in Parsed(AllFetched(pr, init)) ==> p.source != r.source)
      && (r.answer.Unchanged? ==> r.source in configured)
  {
    var init, r := replies[..|replies| - 1], replies[|replies| - 1];
    hide CarriesItsSource, Bookkept, Parsed, Fetched;
    AnswerablePrefix(configured, replies);
    forall i | 0 <= i < |init|
      ensures AllFetched(pr, init)[i].source == init[i].source && CarriesItsSource(AllFetched(pr, init)[i])
    {
      FetchedSources(configured, db, pr, init, i);
    }
    forall p | p in Parsed(init)
      ensures p.source != r.source
    {
      ParsedSources(init, p);
    }
    forall p | p in Parsed(AllFetched(pr, init))
      ensures p.source != r.source
    {
      ParsedSources(AllFetched(pr, init), p);
    }
  }

  lemma {:induction false} RepliesAlike(cfg: Config, configured: set<Source>, db: Db, pr: Proto, replies: seq<Reply>,
                                        gen: int, now: int)
    requires IdsBelow(db) && Cached(configured, db, pr) && Answerable(configured, replies)
    requires forall s :: s in pr.latest ==> pr.latest[s] < gen
    ensures Alike(IngestAll(Play(cfg, db, Copies(replies, gen)), Parsed(replies), gen, now),
                  IngestAll(db, Parsed(AllFetched(pr, replies)), gen, now))
  {
    hide Next, Alike, IngestAll, CopyGeneration, Cached, IdsBelow, Play, Copies, Parsed, Answerable, AllFetched;
    if |replies| == 0 {
      NoReplies(cfg, db, pr, replies, gen, now);
    } else {
      var n := |replies| - 1;
      var init, r := replies[..n], replies[n];
      AnswerablePrefix(configured, replies);
      RepliesAlike(cfg, configured, db, pr, init, gen, now);
      FetchedParsed(pr, replies);
      assert replies[..n + 1] == replies && AllFetched(pr, replies)[..n + 1] == AllFetched(pr, replies);
      OneMoreReply(replies, n, gen);
      OneMoreReply(AllFetched(pr, replies), n, gen);
      CopiesKeepIds(cfg, db, init, gen);
      CachedIsBookkept(configured, db, pr);
      FetchedSources(configured, db, pr, replies, n);
      var copied := Play(cfg, db, Copies(init, gen));
      var ps, fetched := Parsed(init), Parsed(AllFetched(pr, init));
      IngestAllKeepsIds(copied, ps, gen, now);
      IngestAllKeepsIds(db, fetched, gen, now);
      if r.answer.Unchanged? {
        UnchangedSources(configured, db, pr, replies);
        CopyPlayed(cfg, db, init, gen, r);
        CopyCommutesAll(copied, ps, r.source, gen, now);
        OneMoreAlike(cfg, configured, db, pr, IngestAll(copied, ps, gen, now), IngestAll(db, fetched, gen, now),
                     fetched, r, gen, now);
        assert ps + [] == ps;
        IngestAllAppend(db, fetched, LastBody(pr, r.source), gen, now);
      } else {
        var more := if r.answer.Body? then r.answer.proxies else [];
        assert Copies(init, gen) + [] == Copies(init, gen);
        IngestAllKeepsAlike(cfg, IngestAll(copied, ps, gen, now), IngestAll(db, fetched, gen, now), more, gen, now);
        IngestAllAppend(copied, ps, more, gen, now);
        IngestAllAppend(db, fetched, more, gen, now);
      }
    }
  }

  lemma {:induction false} SameSuccesses(pr: Proto, replies: seq<Reply>)
    ensures Successes(AllFetched(pr, replies)) == Successes(replies)
  {
    if |replies| > 0 {
      FetchedParsed(pr, replies);
      SameSuccesses(pr, replies[..|replies| - 1]);
    }
  }

  lemma {:induction false} NoCopiesLeft(configured: set<Source>, db: Db, pr: Proto, replies: seq<Reply>, gen: int)
    requires Bookkept(configured, db, pr) && Answerable(configured, replies)
    ensures Copies(AllFetched(pr, replies), gen) == []
  {
    hide AllFetched, Answerable, Bookkept;
    if |replies| > 0 {
      FetchedParsed(pr, replies);
      AnswerablePrefix(configured, replies);
      NoCopiesLeft(configured, db, pr, replies[..|replies| - 1], gen);
      FetchedSources(configured, db, pr, replies, |replies| - 1);
    }
  }

  /** A refresh with 304 answers leaves the store that the same refresh would have left had every such
      source sent its last body again, ingested with the other bodies at the end. */
  lemma RefreshIsTransparent(cfg: Config, configured: set<Source>, db: Db, pr: Proto, start: int, replies: seq<Reply>,
                             ingestAt: int, finishAt: int)
    requires IdsBelow(db) && AllShaped(db) && Cached(configured, db, pr) && Answerable(configured, replies)
    ensures var gen := db.lastGen + 1;
      Alike(Play(cfg, db, RefreshSteps(gen, start, replies, ingestAt, finishAt)),
            Play(cfg, db, RefreshSteps(gen, start, AllFetched(pr, replies), ingestAt, finishAt)))
  {
    hide Next, Alike, IngestAll, Cached, IdsBelow, Play, Copies, Parsed, Answerable, AllFetched, RefreshSteps;
    hide AllShaped;
    var gen := db.lastGen + 1;
    var begin := At(start, BeginRefresh);
    var begun, pr' := Next(cfg, db, begin), Track(configured, db, pr, begin);
    StepIsCached(cfg, configured, db, pr, begin);
    BegunTables(cfg, configured, db, pr, begin);
    SameAnswers(pr, pr', replies);
    RepliesAlike(cfg, configured, begun, pr', replies, gen, ingestAt);
    RefreshPlayed(cfg, db, gen, start, replies, ingestAt, finishAt);
    RefreshPlayed(cfg, db, gen, start, AllFetched(pr, replies), ingestAt, finishAt);
    CachedIsBookkept(configured, begun, pr');
    NoCopiesLeft(configured, begun, pr', replies, gen);
    SameSuccesses(pr, replies);
    PlayEmpty(cfg, begun);
    CopiesKeepIds(cfg, begun, replies, gen);
    IngestAllKeepsIds(Play(cfg, begun, Copies(replies, gen)), Parsed(replies), gen, ingestAt);
    IngestAllKeepsIds(begun, Parsed(AllFetched(pr, replies)), gen, ingestAt);
    StepKeepsAlike(cfg, IngestAll(Play(cfg, begun, Copies(replies, gen)), Parsed(replies), gen, ingestAt),
                   IngestAll(begun, Parsed(AllFetched(pr, replies)), gen, ingestAt),
                   At(finishAt, FinishRefresh(gen, |replies|, Successes(replies))));
  }

  lemma PlayEmpty(cfg: Config, db: Db)
    ensures Play(cfg, db, []) == db
  {
  }

  lemma BegunTables(cfg: Config, configured: set<Source>, db: Db, pr: Proto, begin: Timed)
    requires begin.step.BeginRefresh? && IdsBelow(db) && Cached(configured, db, pr)
    ensures IdsBelow(Next(cfg, db, begin))
    ensures var pr' := Track(configured, db, pr, begin);
      pr'.bodies == pr.bodies && pr'.latest == pr.latest && forall s :: s in pr.latest ==> pr.latest[s] < db.lastGen + 1
  {
  }

  lemma SameAnswers(pr: Proto, pr': Proto, replies: seq<Reply>)
    requires pr'.bodies == pr.bodies
    ensures AllFetched(pr', replies) == AllFetched(pr, replies)
  {
    assert forall i :: 0 <= i < |replies| ==> AllFetched(pr', replies)[i] == AllFetched(pr, replies)[i];
  }

  /** In a history that follows the protocol, this holds of every refresh over the fixed source list,
      whether or not earlier refreshes were abandoned. */
  lemma HistoryRefreshIsTransparent(cfg: Config, configured: set<Source>, tr: seq<Timed>, start: int,
                                    replies: seq<Reply>, ingestAt: int, finishAt: int)
    requires Conforms(cfg, configured, tr) && FairReplies(configured, ProtoAt(cfg, configured, tr, |tr|), replies)
    ensures var db, pr := State(cfg, tr, |tr|), ProtoAt(cfg, configured, tr, |tr|);
      Alike(Play(cfg, db, RefreshSteps(db.lastGen + 1, start, replies, ingestAt, finishAt)),
            Play(cfg, db, RefreshSteps(db.lastGen + 1, start, AllFetched(pr, replies), ingestAt, finishAt)))
  {
    hide State, ProtoAt, Cached, IdsBelow, AllShaped, Rebuildable, Play, RefreshSteps, AllFetched, Alike;
    HistoryIsCached(cfg, configured, tr, |tr|);
    RowsAreShaped(cfg, tr, |tr|);
    RowsFollowTheLog(cfg, tr, |tr|);
    FairIsAnswerable(configured, ProtoAt(cfg, configured, tr, |tr|), replies);
    RefreshIsTransparent(cfg, configured, State(cfg, tr, |tr|), ProtoAt(cfg, configured, tr, |tr|), start, replies,
                         ingestAt, finishAt);
  }

  lemma FairIsAnswerable(configured: set<Source>, pr: Proto, replies: seq<Reply>)
    requires FairReplies(configured, pr, replies)
    ensures Answerable(configured, replies)
  {
    forall i | 0 <= i < |replies|
      ensures CarriesItsSource(replies[i])
    {
      if replies[i].answer.Body? {
        forall p | p in replies[i].answer.proxies
          ensures p.source == replies[i].source
        {
          var k :| 0 <= k < |replies[i].answer.proxies| && replies[i].answer.proxies[k] == p;
        }
      }
    }
  }
}
