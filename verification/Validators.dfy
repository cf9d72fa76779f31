/** The validators kept for a source, and when the body they certify is the one a 304 brings back. */
module Validators {
  import opened Domain
  import opened Database
  import opened Ledgers
  import opened Lifecycle
  import opened RefreshProtocol
  import opened NotModified
  import opened Upstream
  import opened RefreshTransparency

  /** A body served by the source, its validator if it had one, and whether the refresh got as far as
      ingesting it; the validator is recorded first. */
  datatype Serving = Serving(body: seq<Proxy>, tag: Option<string>, reached: bool)

  /** `COALESCE(excluded.etag, upstream_sources.etag)`. */
  function Coalesce(new_: Option<string>, old_: Option<string>): Option<string> {
    if new_.Some? then new_ else old_
  }

  /** The validator on record after some servings. */
  function StoredTag(servings: seq<Serving>): Option<string> {
    if |servings| == 0 then None
    else Coalesce(servings[|servings| - 1].tag, StoredTag(servings[..|servings| - 1]))
  }

  /** The body that the validator on record was served with: what the source means by a 304. */
  function Certified(servings: seq<Serving>): Option<seq<Proxy>> {
    if |servings| == 0 then None
    else if servings[|servings| - 1].tag.Some? then Some(servings[|servings| - 1].body)
    else Certified(servings[..|servings| - 1])
  }

  /** The last body that was ingested. */
  function Reached(servings: seq<Serving>): seq<Proxy> {
    if |servings| == 0 then []
    else if servings[|servings| - 1].reached then servings[|servings| - 1].body
    else Reached(servings[..|servings| - 1])
  }

  lemma {:induction false} CertifiedHasStoredTag(servings: seq<Serving>)
    ensures Certified(servings).Some? <==> StoredTag(servings).Some?
    ensures Certified(servings).Some? ==>
              exists i :: 0 <= i < |servings| && servings[i].body == Certified(servings).value
                && servings[i].tag == StoredTag(servings)
                && forall k :: i < k < |servings| ==> servings[k].tag.None?
  {
    if |servings| > 0 {
      var n := |servings| - 1;
      if servings[n].tag.Some? {
        assert servings[n].body == Certified(servings).value && servings[n].tag == StoredTag(servings);
      } else if Certified(servings).Some? {
        CertifiedHasStoredTag(servings[..n]);
        var i :| 0 <= i < n && servings[..n][i].body == Certified(servings).value
                 && servings[..n][i].tag == StoredTag(servings)
                 && forall k :: i < k < n ==> servings[..n][k].tag.None?;
        assert servings[i].body == Certified(servings).value;
        forall k | i < k < |servings|
          ensures servings[k].tag.None?
        {
          if k < n {
            assert servings[..n][k] == servings[k];
          }
        }
      } else {
        CertifiedHasStoredTag(servings[..n]);
      }
    }
  }

  // ---- The history of one source ----

  /** Bodies of the source, not empty. */
  ghost predicate Served(source: Source, servings: seq<Serving>) {
    forall i :: 0 <= i < |servings| ==>
      servings[i].body != [] && forall p :: p in servings[i].body ==> p.source == source
  }

  function ReplyOf(source: Source, body: seq<Proxy>, at: int): seq<Reply> {
    [Reply(source, at, Body(body, 0))]
  }

  /** A refresh that ends, or one that stops before its ingest. */
  function ServingSteps(source: Source, s: Serving, gen: int, at: int): seq<Timed> {
    if s.reached then RefreshSteps(gen, at, ReplyOf(source, s.body, at), at, at) else [At(at, BeginRefresh)]
  }

  function History(source: Source, servings: seq<Serving>, at: int): seq<Timed> {
    if |servings| == 0 then []
    else
      var n := |servings| - 1;
      History(source, servings[..n], at) + ServingSteps(source, servings[n], n + 1, at)
  }

  /** The store and the bookkeeping at the end of a history. */
  function After(cfg: Config, tr: seq<Timed>): Db {
    State(cfg, tr, |tr|)
  }

  function ProtoAfter(cfg: Config, source: Source, tr: seq<Timed>): Proto {
    ProtoAt(cfg, {source}, tr, |tr|)
  }

  /** The history follows the protocol, has opened `gens` generations, and the source's last body in the store is
      `body`. */
  ghost predicate Stands(cfg: Config, source: Source, tr: seq<Timed>, gens: nat, body: seq<Proxy>) {
    && Conforms(cfg, {source}, tr)
    && After(cfg, tr).lastGen == gens
    && Hashes(LastBody(ProtoAfter(cfg, source, tr), source)) == Hashes(body)
  }

  lemma BeginAppended(cfg: Config, source: Source, tr: seq<Timed>, begin: Timed)
    requires begin.step.BeginRefresh? && Conforms(cfg, {source}, tr)
    ensures Conforms(cfg, {source}, tr + [begin])
    ensures After(cfg, tr + [begin]) == Next(cfg, After(cfg, tr), begin)
    ensures ProtoAfter(cfg, source, tr + [begin]) == Track({source}, After(cfg, tr), ProtoAfter(cfg, source, tr), begin)
  {
    hide Next, Track;
    var all := tr + [begin];
    assert all[|tr|] == begin;
    PrefixState(cfg, {source}, tr, [begin], |tr|);
    assert ProtoAt(cfg, {source}, all, |tr| + 1)
        == Track({source}, State(cfg, all, |tr|), ProtoAt(cfg, {source}, all, |tr|), begin);
    hide State, ProtoAt;
    forall i | 0 <= i < |all|
      ensures Allowed({source}, ProtoAt(cfg, {source}, all, i), all[i])
    {
      if i < |tr| {
        PrefixState(cfg, {source}, tr, [begin], i);
        assert Allowed({source}, ProtoAt(cfg, {source}, tr, i), tr[i]);
      }
    }
  }

  lemma BeginStands(cfg: Config, source: Source, tr: seq<Timed>, gens: nat, body: seq<Proxy>, at: int)
    requires Stands(cfg, source, tr, gens, body)
    ensures Stands(cfg, source, tr + [At(at, BeginRefresh)], gens + 1, body)
    ensures After(cfg, tr + [At(at, BeginRefresh)]) == Next(cfg, After(cfg, tr), At(at, BeginRefresh))
  {
    hide After, ProtoAfter, Conforms, Hashes;
    BeginAppended(cfg, source, tr, At(at, BeginRefresh));
  }

  /** The membership of the open generation is the source's last body. */
  lemma NewestIsLatest(configured: set<Source>, db: Db, pr: Proto, source: Source, gen: int)
    requires Bookkept(configured, db, pr) && MembersMatch(configured, db, pr)
    requires source in configured && db.lastGen == gen && HashesAt(db, source, gen) != {}
    ensures Hashes(LastBody(pr, source)) == HashesAt(db, source, gen)
  {
    hide Hashes;
    var h :| h in HashesAt(db, source, gen);
    assert Member(gen, source, h) in db.members;
  }

  lemma FinishKeepsMembers(cfg: Config, db: Db, t: Timed)
    requires t.step.FinishRefresh?
    ensures Next(cfg, db, t).members == db.members && Next(cfg, db, t).lastGen == db.lastGen
  {
  }

  lemma {:induction false} IngestAllKeepsGen(db: Db, ps: seq<Proxy>, gen: int, now: int)
    ensures IngestAll(db, ps, gen, now).lastGen == db.lastGen
  {
    hide Known, SeenRow, NewRow;
    if |ps| > 0 {
      IngestAllKeepsGen(db, ps[..|ps| - 1], gen, now);
    }
  }

  lemma BodyReply(source: Source, body: seq<Proxy>, at: int, gen: int)
    ensures Parsed(ReplyOf(source, body, at)) == body && Copies(ReplyOf(source, body, at), gen) == []
    ensures Successes(ReplyOf(source, body, at)) == 1
  {
    var replies := ReplyOf(source, body, at);
    assert replies[..0] == [] && [] + body == body;
    assert Parsed(replies[..0]) == [];
  }

  /** A refresh with a body, played from the store: begin, ingest, finish. */
  lemma BodyPlayed(cfg: Config, db: Db, source: Source, body: seq<Proxy>, gen: int, at: int)
    ensures Play(cfg, db, RefreshSteps(gen, at, ReplyOf(source, body, at), at, at))
         == Next(cfg, IngestAll(Next(cfg, db, At(at, BeginRefresh)), body, gen, at), At(at, FinishRefresh(gen, 1, 1)))
  {
    hide Next, IngestAll, Parsed, Copies, Successes, RefreshSteps, Play;
    BodyReply(source, body, at, gen);
    RefreshPlayed(cfg, db, gen, at, ReplyOf(source, body, at), at, at);
    PlayEmpty(cfg, Next(cfg, db, At(at, BeginRefresh)));
  }

  /** What a refresh with a body leaves as members of its generation. */
  lemma BodyMembers(cfg: Config, configured: set<Source>, db: Db, pr: Proto, source: Source, body: seq<Proxy>, at: int)
    requires Cached(configured, db, pr) && source in configured && forall p :: p in body ==> p.source == source
    ensures var db' := Play(cfg, db, RefreshSteps(db.lastGen + 1, at, ReplyOf(source, body, at), at, at));
      HashesAt(db', source, db.lastGen + 1) == Hashes(body) && db'.lastGen == db.lastGen + 1
  {
    hide IngestAll, RefreshSteps, AllHeld, UniqueHashes;
    var gen := db.lastGen + 1;
    BodyPlayed(cfg, db, source, body, gen, at);
    var begun := Next(cfg, db, At(at, BeginRefresh));
    IngestAllMembers(begun, body, source, gen, at);
    IngestAllKeepsGen(begun, body, gen, at);
    FinishKeepsMembers(cfg, IngestAll(begun, body, gen, at), At(at, FinishRefresh(gen, 1, 1)));
    hide Next, Play, Hashes, ReplyOf;
    FutureIsEmpty(configured, db, pr, source);
    MembersAdded(db, source, gen, Hashes(body));
  }

  lemma FutureIsEmpty(configured: set<Source>, db: Db, pr: Proto, source: Source)
    requires Bookkept(configured, db, pr) && MembersMatch(configured, db, pr) && source in configured
    ensures HashesAt(db, source, db.lastGen + 1) == {}
  {
  }

  lemma MembersAdded(db: Db, source: Source, gen: int, hs: set<Hash>)
    requires HashesAt(db, source, gen) == {}
    ensures forall db': Db :: db'.members == db.members + MembersOf(hs, source, gen) ==>
              HashesAt(db', source, gen) == hs
  {
    forall db': Db | db'.members == db.members + MembersOf(hs, source, gen)
      ensures HashesAt(db', source, gen) == hs
    {
      forall h
        ensures h in HashesAt(db', source, gen) <==> h in hs
      {
        assert Member(gen, source, h) in db.members ==> h in HashesAt(db, source, gen);
      }
    }
  }

  lemma BodyStands(cfg: Config, source: Source, tr: seq<Timed>, gens: nat, before: seq<Proxy>, body: seq<Proxy>,
                   at: int)
    requires Stands(cfg, source, tr, gens, before)
    requires body != [] && forall p :: p in body ==> p.source == source
    ensures Stands(cfg, source, tr + RefreshSteps(gens + 1, at, ReplyOf(source, body, at), at, at), gens + 1, body)
  {
    hide State, ProtoAt, RefreshSteps, Conforms, Cached, Hashes, Play;
    var replies := ReplyOf(source, body, at);
    var steps := RefreshSteps(gens + 1, at, replies, at, at);
    HistoryIsCached(cfg, {source}, tr, |tr|) by {
      assert Conforms(cfg, {source}, tr);
    }
    assert replies[0].source == source;
    RefreshExtendsHistory(cfg, {source}, tr, at, replies, at, at);
    BodyMembers(cfg, {source}, After(cfg, tr), ProtoAfter(cfg, source, tr), source, body, at);
    HistoryIsCached(cfg, {source}, tr + steps, |tr + steps|);
    CachedParts({source}, After(cfg, tr + steps), ProtoAfter(cfg, source, tr + steps));
    BodyHasHash(body);
    NewestIsLatest({source}, After(cfg, tr + steps), ProtoAfter(cfg, source, tr + steps), source, gens + 1);
  }

  lemma CachedParts(configured: set<Source>, db: Db, pr: Proto)
    requires Cached(configured, db, pr)
    ensures Bookkept(configured, db, pr) && MembersMatch(configured, db, pr)
  {
  }

  lemma BodyHasHash(body: seq<Proxy>)
    requires body != []
    ensures Hashes(body) != {}
  {
    assert body[0].hash in Hashes(body);
  }

  lemma {:induction false} HistoryStands(cfg: Config, source: Source, servings: seq<Serving>, at: int)
    requires Served(source, servings)
    ensures Stands(cfg, source, History(source, servings, at), |servings|, Reached(servings))
  {
    hide Stands, RefreshSteps, Next;
    if |servings| == 0 {
      NothingStands(cfg, source);
    } else {
      var n := |servings| - 1;
      HistoryStands(cfg, source, servings[..n], at);
      var s, tr := servings[n], History(source, servings[..n], at);
      if s.reached {
        BodyStands(cfg, source, tr, n, Reached(servings[..n]), s.body, at);
      } else {
        BeginStands(cfg, source, tr, n, Reached(servings[..n]), at);
      }
    }
  }

  lemma NothingStands(cfg: Config, source: Source)
    ensures Stands(cfg, source, [], 0, [])
  {
  }

  // ---- The next 304 ----

  function CachedReply(source: Source, at: int): seq<Reply> {
    [Reply(source, at, Unchanged)]
  }

  lemma CachedPlayed(cfg: Config, db: Db, source: Source, gen: int, at: int)
    ensures Play(cfg, db, RefreshSteps(gen, at, CachedReply(source, at), at, at))
         == Next(cfg, CopyGeneration(Next(cfg, db, At(at, BeginRefresh)), source, gen),
                 At(at, FinishRefresh(gen, 1, 1)))
  {
    var replies := CachedReply(source, at);
    assert replies[..0] == [];
    assert Parsed(replies[..0]) == [] && Copies(replies[..0], gen) == [] && Successes(replies[..0]) == 0;
    assert Parsed(replies) == [] && Successes(replies) == 1;
    assert Copies(replies, gen) == [At(at, CopyCached(source, gen))];
    hide Next, IngestAll, Parsed, Copies, Successes, RefreshSteps, Play, CopyGeneration;
    var begun := Next(cfg, db, At(at, BeginRefresh));
    RefreshPlayed(cfg, db, gen, at, replies, at, at);
    PlayOne(cfg, begun, At(at, CopyCached(source, gen)));
    CopyIsStep(cfg, begun, source, gen, at);
    IngestNothing(CopyGeneration(begun, source, gen), gen, at);
  }

  lemma CopyIsStep(cfg: Config, db: Db, source: Source, gen: int, at: int)
    ensures Next(cfg, db, At(at, CopyCached(source, gen))) == CopyGeneration(db, source, gen)
  {
  }

  /** The two ways a refresh may end, compared after it has ended. */
  lemma EndsAlikeIff(cfg: Config, configured: set<Source>, db: Db, pr: Proto, source: Source, gen: int,
                     body: seq<Proxy>,
                     at: int, finish: Timed)
    requires IdsBelow(db) && Cached(configured, db, pr) && finish.step.FinishRefresh?
    requires source in configured && (source in pr.latest ==> pr.latest[source] < gen)
    requires forall p :: p in body ==> p.source == source
    ensures Alike(Next(cfg, CopyGeneration(db, source, gen), finish),
                  Next(cfg, IngestAll(db, body, gen, at), finish)) <==>
              Hashes(body) == Hashes(LastBody(pr, source))
  {
    hide Next, CopyGeneration, IngestAll, IdsBelow, Cached, Hashes, HashesAt, MembersOf, Blur;
    var copied, ingested := CopyGeneration(db, source, gen), IngestAll(db, body, gen, at);
    CopyStandsForIff(cfg, configured, db, pr, source, gen, body, at);
    CopyKeepsIds(db, source, gen);
    IngestAllKeepsIds(db, body, gen, at);
    FinishKeepsMembers(cfg, copied, finish);
    FinishKeepsMembers(cfg, ingested, finish);
    if Alike(copied, ingested) {
      StepKeepsAlike(cfg, copied, ingested, finish);
    }
    if Alike(Next(cfg, copied, finish), Next(cfg, ingested, finish)) {
      SameTables(Next(cfg, copied, finish), Next(cfg, ingested, finish));
      CopyAddsLastBody(configured, db, pr, source, gen);
      IngestAllMembers(db, body, source, gen, at);
      MembersTellHashes(db, source, gen, Hashes(LastBody(pr, source)), Hashes(body));
    }
  }

  lemma {:induction false} CertifiedIsServed(source: Source, servings: seq<Serving>)
    requires Served(source, servings) && Certified(servings).Some?
    ensures forall p :: p in Certified(servings).value ==> p.source == source
  {
    if servings[|servings| - 1].tag.None? {
      CertifiedIsServed(source, servings[..|servings| - 1]);
    }
  }

  /** After any servings, a refresh answered by a 304 leaves the store that fetching the certified body
      would have left if and only if that body has the identities of the last one that was ingested. */
  lemma NotModifiedIsRightIff(cfg: Config, source: Source, servings: seq<Serving>, at: int)
    requires Served(source, servings) && Certified(servings).Some?
    ensures var tr, gen := History(source, servings, at), |servings| + 1;
      Alike(Play(cfg, After(cfg, tr), RefreshSteps(gen, at, CachedReply(source, at), at, at)),
            Play(cfg, After(cfg, tr), RefreshSteps(gen, at, ReplyOf(source, Certified(servings).value, at), at, at)))
      <==> Hashes(Certified(servings).value) == Hashes(Reached(servings))
  {
    hide Next, State, ProtoAt, Alike, Play, RefreshSteps, CopyGeneration, IngestAll, Cached, IdsBelow, Rebuildable,
        AllShaped;
    hide Conforms, Hashes, History, Served, Certified, Reached;
    var tr, gen, body := History(source, servings, at), |servings| + 1, Certified(servings).value;
    HistoryStands(cfg, source, servings, at);
    CertifiedIsServed(source, servings);
    var db, pr, begin := After(cfg, tr), ProtoAfter(cfg, source, tr), At(at, BeginRefresh);
    HistoryIsCached(cfg, {source}, tr, |tr|);
    RowsFollowTheLog(cfg, tr, |tr|);
    RowsAreShaped(cfg, tr, |tr|);
    StepIsCached(cfg, {source}, db, pr, begin);
    BegunTables(cfg, {source}, db, pr, begin);
    CachedPlayed(cfg, db, source, gen, at);
    BodyPlayed(cfg, db, source, body, gen, at);
    EndsAlikeIff(cfg, {source}, Next(cfg, db, begin), Track({source}, db, pr, begin), source, gen, body, at,
                 At(at, FinishRefresh(gen, 1, 1)));
  }

  /** Every body that carries a validator and gets ingested keeps 304 answers right. */
  lemma {:induction false} TaggedAndReachedIsRight(servings: seq<Serving>)
    requires |servings| > 0
    requires forall i :: 0 <= i < |servings| ==> servings[i].tag.Some? && servings[i].reached
    ensures Certified(servings) == Some(Reached(servings))
  {
  }

  // ---- Three histories in which the next 304 is wrong ----

  const OLD: seq<Proxy> := [Proxy("feed", "vless://old", "old")]
  const NEW: seq<Proxy> := [Proxy("feed", "vless://new", "new")]

  /** The refresh that was served the new body stopped before ingesting it. */
  const STOPPED: seq<Serving> := [Serving(OLD, Some("1"), true), Serving(NEW, Some("2"), false)]

  /** The new body came without a validator, so the old one stayed on record. */
  const UNTAGGED: seq<Serving> := [Serving(OLD, Some("1"), true), Serving(NEW, None, true)]

  /** The very first refresh stopped before its ingest. */
  const FIRST: seq<Serving> := [Serving(OLD, Some("1"), false)]

  lemma WhatIsCertified()
    ensures Certified(STOPPED) == Some(NEW) && Reached(STOPPED) == OLD
    ensures Certified(UNTAGGED) == Some(OLD) && Reached(UNTAGGED) == NEW
    ensures Certified(FIRST) == Some(OLD) && Reached(FIRST) == []
    ensures Served("feed", STOPPED) && Served("feed", UNTAGGED) && Served("feed", FIRST)
  {
    assert STOPPED[..1] == [Serving(OLD, Some("1"), true)];
    assert UNTAGGED[..1] == [Serving(OLD, Some("1"), true)];
    assert FIRST[..0] == [];
  }

  lemma DifferentBodies()
    ensures Hashes(OLD) != Hashes(NEW) && Hashes(OLD) != Hashes([])
  {
    assert Hashes(OLD) == {"old"} && Hashes(NEW) == {"new"} && Hashes([]) == {};
  }

  /** In each of them, the 304 leaves another store than fetching the body that it certifies. */
  lemma WrongNotModified(cfg: Config, servings: seq<Serving>, at: int)
    requires servings == STOPPED || servings == UNTAGGED || servings == FIRST
    ensures Certified(servings).Some?
    ensures var tr, gen := History("feed", servings, at), |servings| + 1;
      !Alike(Play(cfg, After(cfg, tr), RefreshSteps(gen, at, CachedReply("feed", at), at, at)),
             Play(cfg, After(cfg, tr), RefreshSteps(gen, at, ReplyOf("feed", Certified(servings).value, at), at, at)))
  {
    hide Certified, Reached, Served, Alike, Play, RefreshSteps, History, After, Hashes;
    WhatIsCertified();
    DifferentBodies();
    NotModifiedIsRightIff(cfg, "feed", servings, at);
  }
}
