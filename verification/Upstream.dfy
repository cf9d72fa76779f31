/** One refresh of the upstream sources, and why it follows the refresh protocol. */
module Upstream {
  import opened Domain
  import opened Database
  import opened RefreshProtocol
  import opened NotModified
  import opened Store

  datatype Answer = Body(proxies: seq<Proxy>, rejected: nat) | Unchanged | Failed

  /** The answer of one source and the time at which it was handled. */
  datatype Reply = Reply(source: Source, at: int, answer: Answer)

  datatype RefreshReport = RefreshReport(
    gen: int, complete: bool, sourceCount: nat, successful: nat, accepted: nat, rejected: nat, inserted: nat)

  function Parsed(replies: seq<Reply>): seq<Proxy> {
    if |replies| == 0 then []
    else
      var last := replies[|replies| - 1];
      Parsed(replies[..|replies| - 1]) + (if last.answer.Body? then last.answer.proxies else [])
  }

  function Successes(replies: seq<Reply>): nat {
    if |replies| == 0 then 0
    else Successes(replies[..|replies| - 1]) + (if replies[|replies| - 1].answer.Failed? then 0 else 1)
  }

  function Rejections(replies: seq<Reply>): nat {
    if |replies| == 0 then 0
    else
      var last := replies[|replies| - 1];
      Rejections(replies[..|replies| - 1]) + (if last.answer.Body? then last.answer.rejected else 0)
  }

  /** The store statements issued for the 304 answers, in the order they arrive. */
  function Copies(replies: seq<Reply>, gen: int): seq<Timed> {
    if |replies| == 0 then []
    else
      var last := replies[|replies| - 1];
      Copies(replies[..|replies| - 1], gen)
      + (if last.answer.Unchanged? then [At(last.at, CopyCached(last.source, gen))] else [])
  }

  function Ingests(ps: seq<Proxy>, gen: int, now: int): (r: seq<Timed>)
    ensures |r| == |ps|
  {
    seq(|ps|, i requires 0 <= i < |ps| => At(now, Ingest(ps[i], gen)))
  }

  function RefreshSteps(gen: int, start: int, replies: seq<Reply>, ingestAt: int, finishAt: int): seq<Timed> {
    [At(start, BeginRefresh)] + Copies(replies, gen) + Ingests(Parsed(replies), gen, ingestAt)
    + [At(finishAt, FinishRefresh(gen, |replies|, Successes(replies)))]
  }

  lemma {:induction false} IngestsPlayed(cfg: Config, db: Db, ps: seq<Proxy>, gen: int, now: int)
    ensures Play(cfg, db, Ingests(ps, gen, now)) == IngestAll(db, ps, gen, now)
  {
    hide IngestOne;
    if |ps| > 0 {
      var n := |ps| - 1;
      assert Ingests(ps, gen, now)[..n] == Ingests(ps[..n], gen, now);
      IngestsPlayed(cfg, db, ps[..n], gen, now);
    }
  }

  lemma PlayOne(cfg: Config, db: Db, t: Timed)
    ensures Play(cfg, db, [t]) == Next(cfg, db, t)
  {
    hide Next;
    assert [t][..0] == [];
  }

  lemma RefreshPlayed(cfg: Config, db: Db, gen: int, start: int, replies: seq<Reply>, ingestAt: int, finishAt: int)
    ensures var copied := Play(cfg, Next(cfg, db, At(start, BeginRefresh)), Copies(replies, gen));
      Play(cfg, db, RefreshSteps(gen, start, replies, ingestAt, finishAt))
      == Next(cfg, IngestAll(copied, Parsed(replies), gen, ingestAt),
              At(finishAt, FinishRefresh(gen, |replies|, Successes(replies))))
  {
    hide Next, IngestAll;
    var begin, finish := At(start, BeginRefresh), At(finishAt, FinishRefresh(gen, |replies|, Successes(replies)));
    var copies, ingests := Copies(replies, gen), Ingests(Parsed(replies), gen, ingestAt);
    PlayOne(cfg, db, begin);
    PlayAppend(cfg, db, [begin], copies);
    PlayAppend(cfg, db, [begin] + copies, ingests);
    IngestsPlayed(cfg, Play(cfg, db, [begin] + copies), Parsed(replies), gen, ingestAt);
    PlayAppend(cfg, db, [begin] + copies + ingests, [finish]);
    PlayOne(cfg, Play(cfg, db, [begin] + copies + ingests), finish);
  }

  lemma NothingYet(cfg: Config, db: Db, replies: seq<Reply>, gen: int)
    ensures Parsed(replies[..0]) == [] && Successes(replies[..0]) == Rejections(replies[..0]) == 0
    ensures Copies(replies[..0], gen) == [] && Play(cfg, db, []) == db
  {
    hide Next;
  }

  lemma OneMoreReply(replies: seq<Reply>, i: nat, gen: int)
    requires i < |replies|
    ensures var r := replies[i];
      && Parsed(replies[..i + 1]) == Parsed(replies[..i]) + (if r.answer.Body? then r.answer.proxies else [])
      && Successes(replies[..i + 1]) == Successes(replies[..i]) + (if r.answer.Failed? then 0 else 1)
      && Rejections(replies[..i + 1]) == Rejections(replies[..i]) + (if r.answer.Body? then r.answer.rejected else 0)
      && Copies(replies[..i + 1], gen) ==
           Copies(replies[..i], gen) + (if r.answer.Unchanged? then [At(r.at, CopyCached(r.source, gen))] else [])
  {
    assert replies[..i + 1][..i] == replies[..i];
  }

  /** The membership rows that the 304 answers of a refresh add. */
  function MembersCopied(cfg: Config, db: Db, start: int, replies: seq<Reply>): nat {
    var begun := Next(cfg, db, At(start, BeginRefresh));
    |Play(cfg, begun, Copies(replies, db.lastGen + 1)).members - begun.members|
  }

  lemma CopiesOnlyAdd<T>(before: set<T>, here: set<T>, after: set<T>)
    requires before <= here <= after
    ensures |after - before| == |here - before| + |after - here|
  {
    assert after - before == (here - before) + (after - here);
  }

  /** Answers are handled as they arrive: a 304 copies at once, bodies are ingested together at the end. */
  method Refresh(store: Store, start: int, replies: seq<Reply>, ingestAt: int, finishAt: int)
    returns (report: RefreshReport)
    modifies store
    ensures store.View() == Play(store.cfg, old(store.View()),
                                 RefreshSteps(old(store.lastGen) + 1, start, replies, ingestAt, finishAt))
    ensures report.gen == old(store.lastGen) + 1
    ensures report.complete <==> |replies| > 0 && forall i :: 0 <= i < |replies| ==> !replies[i].answer.Failed?
    ensures report.sourceCount == |replies| && report.successful == Successes(replies)
    ensures report.accepted == |Parsed(replies)| + MembersCopied(store.cfg, old(store.View()), start, replies)
    ensures report.rejected == Rejections(replies)
    ensures report.inserted == store.nextId - old(store.nextId)
  {
    hide Next, IngestAll, Copies, Parsed, Play, Rejections, Successes;
    ghost var before := store.View();
    var gen := store.BeginRefresh(start);
    ghost var begun := store.View();
    NextTables(store.cfg, before, At(start, BeginRefresh));
    NothingYet(store.cfg, begun, replies, gen);
    var successful, accepted, rejected := 0, 0, 0;
    var parsed: seq<Proxy> := [];
    for i := 0 to |replies|
      invariant store.View() == Play(store.cfg, begun, Copies(replies[..i], gen))
      invariant parsed == Parsed(replies[..i])
      invariant successful == Successes(replies[..i]) && rejected == Rejections(replies[..i])
      invariant begun.members <= store.members && accepted == |parsed| + |store.members - begun.members|
      invariant store.nextId == old(store.nextId)
    {
      OneMoreReply(replies, i, gen);
      match replies[i].answer {
        case Body(proxies, refused) =>
          successful := successful + 1;
          accepted := accepted + |proxies|;
          rejected := rejected + refused;
          parsed := parsed + proxies;
          assert Copies(replies[..i + 1], gen) == Copies(replies[..i], gen);
        case Unchanged =>
          successful := successful + 1;
          ghost var here := store.View();
          var t := At(replies[i].at, CopyCached(replies[i].source, gen));
          NextTables(store.cfg, here, t);
          var copied := store.CopyCachedSourceGeneration(replies[i].at, replies[i].source, gen);
          PlayAppend(store.cfg, begun, Copies(replies[..i], gen), [t]);
          PlayOne(store.cfg, here, t);
          CopiesOnlyAdd(begun.members, here.members, store.members);
          accepted := accepted + copied;
        case Failed =>
          assert Copies(replies[..i + 1], gen) == Copies(replies[..i], gen);
      }
    }
    assert replies[..|replies|] == replies;
    AllSucceeded(replies);
    var inserted := store.IngestMany(ingestAt, parsed, gen);
    ghost var ingested := store.View();
    NextTables(store.cfg, ingested, At(finishAt, FinishRefresh(gen, |replies|, successful)));
    var complete := store.FinishRefresh(finishAt, gen, |replies|, successful);
    RefreshPlayed(store.cfg, before, gen, start, replies, ingestAt, finishAt);
    report := RefreshReport(gen, complete, |replies|, successful, accepted, rejected, inserted);
  }

  lemma {:induction false} AllSucceeded(replies: seq<Reply>)
    ensures Successes(replies) <= |replies|
    ensures Successes(replies) == |replies| <==> forall i :: 0 <= i < |replies| ==> !replies[i].answer.Failed?
  {
    if |replies| > 0 {
      var n := |replies| - 1;
      AllSucceeded(replies[..n]);
      assert forall i :: 0 <= i < n ==> replies[..n][i] == replies[i];
    }
  }

  // ---- A refresh follows the protocol ----

  function TrackAll(cfg: Config, configured: set<Source>, db: Db, pr: Proto, steps: seq<Timed>): Proto {
    if |steps| == 0 then pr
    else
      var n := |steps| - 1;
      Track(configured, Play(cfg, db, steps[..n]), TrackAll(cfg, configured, db, pr, steps[..n]), steps[n])
  }

  ghost predicate ConformsFrom(cfg: Config, configured: set<Source>, db: Db, pr: Proto, steps: seq<Timed>) {
    |steps| == 0
    || var n := |steps| - 1;
       ConformsFrom(cfg, configured, db, pr, steps[..n])
       && Allowed(configured, TrackAll(cfg, configured, db, pr, steps[..n]), steps[n])
  }

  lemma ExtendConforming(cfg: Config, configured: set<Source>, db: Db, pr: Proto, steps: seq<Timed>, t: Timed)
    requires ConformsFrom(cfg, configured, db, pr, steps)
    requires Allowed(configured, TrackAll(cfg, configured, db, pr, steps), t)
    ensures ConformsFrom(cfg, configured, db, pr, steps + [t])
    ensures TrackAll(cfg, configured, db, pr, steps + [t])
         == Track(configured, Play(cfg, db, steps), TrackAll(cfg, configured, db, pr, steps), t)
  {
    hide Next, Track, Allowed;
    assert (steps + [t])[..|steps|] == steps;
  }

  /** The sources answer once each, a body carries its source, and it is not empty if the source has a membership. */
  ghost predicate FairReplies(configured: set<Source>, pr: Proto, replies: seq<Reply>) {
    && (forall i, j :: 0 <= i < j < |replies| ==> replies[i].source != replies[j].source)
    && (forall s :: s in configured ==> exists i :: 0 <= i < |replies| && replies[i].source == s)
    && (forall i :: 0 <= i < |replies| ==>
          && replies[i].source in configured
          && (replies[i].answer.Body? ==>
                (replies[i].source in pr.latest ==> replies[i].answer.proxies != [])
                && forall k :: 0 <= k < |replies[i].answer.proxies| ==>
                     replies[i].answer.proxies[k].source == replies[i].source))
  }

  /** Where the bookkeeping stands after the first `k` answers. */
  ghost predicate AfterCopies(pr0: Proto, pr: Proto, gen: int, replies: seq<Reply>, k: nat)
    requires k <= |replies|
  {
    && pr.open == Some(gen)
    && (forall i :: 0 <= i < |replies| ==> (replies[i].source in pr.copied <==> i < k && replies[i].answer.Unchanged?))
    && pr.latest.Keys == pr0.latest.Keys
    && (forall s :: s in pr.latest ==> pr.latest[s] == if s in pr.copied then gen else pr0.latest[s])
  }

  lemma {:induction false} CopiesConform(cfg: Config, configured: set<Source>, db: Db, pr0: Proto,
                                         replies: seq<Reply>, k: nat, start: int)
    requires Bookkept(configured, db, pr0) && FairReplies(configured, pr0, replies) && k <= |replies|
    ensures var steps := [At(start, BeginRefresh)] + Copies(replies[..k], db.lastGen + 1);
      ConformsFrom(cfg, configured, db, pr0, steps)
      && AfterCopies(pr0, TrackAll(cfg, configured, db, pr0, steps), db.lastGen + 1, replies, k)
  {
    hide Next, Track, TrackAll, ConformsFrom, Allowed, AfterCopies, FairReplies, Copies, Play;
    var gen := db.lastGen + 1;
    var begin := At(start, BeginRefresh);
    if k == 0 {
      NothingYet(cfg, db, replies, gen);
      assert [begin] + [] == [begin];
      BeginConforms(cfg, configured, db, pr0, replies, begin);
    } else {
      CopiesConform(cfg, configured, db, pr0, replies, k - 1, start);
      OneMoreReply(replies, k - 1, gen);
      var steps := [begin] + Copies(replies[..k - 1], gen);
      var pr := TrackAll(cfg, configured, db, pr0, steps);
      var r := replies[k - 1];
      if r.answer.Unchanged? {
        var t := At(r.at, CopyCached(r.source, gen));
        assert [begin] + Copies(replies[..k], gen) == steps + [t];
        CopyAllowed(configured, db, Play(cfg, db, steps), pr0, pr, replies, k - 1);
        ExtendConforming(cfg, configured, db, pr0, steps, t);
      } else {
        assert [begin] + Copies(replies[..k], gen) == steps;
        NoCopy(pr0, pr, gen, replies, k - 1);
      }
    }
  }

  lemma BeginConforms(cfg: Config, configured: set<Source>, db: Db, pr0: Proto, replies: seq<Reply>, begin: Timed)
    requires begin.step.BeginRefresh?
    ensures ConformsFrom(cfg, configured, db, pr0, [begin])
    ensures AfterCopies(pr0, TrackAll(cfg, configured, db, pr0, [begin]), db.lastGen + 1, replies, 0)
  {
    hide Next;
    assert [] + [begin] == [begin];
    ExtendConforming(cfg, configured, db, pr0, [], begin);
  }

  lemma NoCopy(pr0: Proto, pr: Proto, gen: int, replies: seq<Reply>, k: nat)
    requires k < |replies| && AfterCopies(pr0, pr, gen, replies, k) && !replies[k].answer.Unchanged?
    ensures AfterCopies(pr0, pr, gen, replies, k + 1)
  {
  }

  lemma CopyAdvances(configured: set<Source>, gen: int, here: Db, pr0: Proto, pr: Proto, replies: seq<Reply>, k: nat)
    requires forall i, j :: 0 <= i < j < |replies| ==> replies[i].source != replies[j].source
    requires k < |replies| && AfterCopies(pr0, pr, gen, replies, k) && replies[k].answer.Unchanged?
    ensures AfterCopies(pr0, Track(configured, here, pr, At(replies[k].at, CopyCached(replies[k].source, gen))), gen,
                        replies, k + 1)
  {
  }

  lemma CopyAllowed(configured: set<Source>, db: Db, here: Db, pr0: Proto, pr: Proto, replies: seq<Reply>, k: nat)
    requires Bookkept(configured, db, pr0) && FairReplies(configured, pr0, replies) && k < |replies|
    requires AfterCopies(pr0, pr, db.lastGen + 1, replies, k) && replies[k].answer.Unchanged?
    ensures Allowed(configured, pr, At(replies[k].at, CopyCached(replies[k].source, db.lastGen + 1)))
    ensures AfterCopies(pr0, Track(configured, here, pr,
                                   At(replies[k].at, CopyCached(replies[k].source, db.lastGen + 1))),
                        db.lastGen + 1, replies, k + 1)
  {
    CopyAdvances(configured, db.lastGen + 1, here, pr0, pr, replies, k);
    hide Track;
  }

  /** Every proxy parsed in the refresh comes from a source that answered with a body. */
  lemma {:induction false} ParsedFromBodies(replies: seq<Reply>, p: Proxy)
    requires forall i :: 0 <= i < |replies| && replies[i].answer.Body? ==>
               forall k :: 0 <= k < |replies[i].answer.proxies| ==>
                 replies[i].answer.proxies[k].source == replies[i].source
    requires p in Parsed(replies)
    ensures exists i :: 0 <= i < |replies| && replies[i].answer.Body? && replies[i].source == p.source
  {
    var n := |replies| - 1;
    var last := replies[n];
    if last.answer.Body? && p in last.answer.proxies {
      assert replies[n].source == p.source;
    } else {
      ParsedFromBodies(replies[..n], p);
      var i :| 0 <= i < n && replies[..n][i].answer.Body? && replies[..n][i].source == p.source;
      assert replies[i].source == p.source;
    }
  }

  lemma {:induction false} BodiesAreParsed(replies: seq<Reply>, i: nat, p: Proxy)
    requires i < |replies| && replies[i].answer.Body? && p in replies[i].answer.proxies
    ensures p in Parsed(replies)
  {
    if i < |replies| - 1 {
      BodiesAreParsed(replies[..|replies| - 1], i, p);
    }
  }

  ghost predicate AfterIngests(pr1: Proto, pr: Proto, gen: int, ps: seq<Proxy>, k: nat)
    requires k <= |ps|
  {
    && pr.open == Some(gen) && pr.copied == pr1.copied
    && (forall s :: s in pr1.copied && s in pr.latest ==> pr.latest[s] == gen)
    && (forall s :: s in pr.latest ==> s in pr1.latest || pr.latest[s] == gen)
    && (forall i :: 0 <= i < k ==> ps[i].source in pr.latest && pr.latest[ps[i].source] == gen)
  }

  lemma {:induction false} IngestsConform(cfg: Config, configured: set<Source>, db: Db, pr0: Proto, head: seq<Timed>,
                                          pr1: Proto, gen: int, ps: seq<Proxy>, k: nat, now: int)
    requires ConformsFrom(cfg, configured, db, pr0, head) && pr1 == TrackAll(cfg, configured, db, pr0, head)
    requires pr1.open == Some(gen) && k <= |ps|
    requires forall s :: s in pr1.copied && s in pr1.latest ==> pr1.latest[s] == gen
    requires forall i :: 0 <= i < |ps| ==> ps[i].source in configured && ps[i].source !in pr1.copied
    ensures var steps := head + Ingests(ps[..k], gen, now);
      ConformsFrom(cfg, configured, db, pr0, steps)
      && AfterIngests(pr1, TrackAll(cfg, configured, db, pr0, steps), gen, ps, k)
  {
    hide Next, Track, TrackAll, ConformsFrom, Allowed, Play;
    if k == 0 {
      assert head + Ingests(ps[..0], gen, now) == head;
    } else {
      IngestsConform(cfg, configured, db, pr0, head, pr1, gen, ps, k - 1, now);
      var steps := head + Ingests(ps[..k - 1], gen, now);
      var t := At(now, Ingest(ps[k - 1], gen));
      assert head + Ingests(ps[..k], gen, now) == steps + [t];
      IngestAllowed(configured, Play(cfg, db, steps), pr1, TrackAll(cfg, configured, db, pr0, steps), gen, ps, k - 1,
                    now);
      ExtendConforming(cfg, configured, db, pr0, steps, t);
    }
  }

  lemma IngestAllowed(configured: set<Source>, here: Db, pr1: Proto, pr: Proto, gen: int, ps: seq<Proxy>, k: nat,
                      now: int)
    requires k < |ps| && AfterIngests(pr1, pr, gen, ps, k)
    requires ps[k].source in configured && ps[k].source !in pr1.copied
    ensures Allowed(configured, pr, At(now, Ingest(ps[k], gen)))
    ensures AfterIngests(pr1, Track(configured, here, pr, At(now, Ingest(ps[k], gen))), gen, ps, k + 1)
  {
  }

  /** Whether or not the refresh before it was abandoned, the statements of a refresh over the fixed source list
      follow the protocol, whatever mix of bodies, 304s and failures the sources answer. */
  lemma RefreshConforms(cfg: Config, configured: set<Source>, db: Db, pr: Proto, start: int, replies: seq<Reply>,
                        ingestAt: int, finishAt: int)
    requires Bookkept(configured, db, pr) && FairReplies(configured, pr, replies)
    ensures ConformsFrom(cfg, configured, db, pr, RefreshSteps(db.lastGen + 1, start, replies, ingestAt, finishAt))
    ensures TrackAll(cfg, configured, db, pr,
                     RefreshSteps(db.lastGen + 1, start, replies, ingestAt, finishAt)).open.None?
  {
    hide Next, TrackAll, ConformsFrom, Bookkept, Play, Copies;
    var gen := db.lastGen + 1;
    var ps := Parsed(replies);
    CopiesConform(cfg, configured, db, pr, replies, |replies|, start);
    assert replies[..|replies|] == replies && ps[..|ps|] == ps;
    var head := [At(start, BeginRefresh)] + Copies(replies, gen);
    var pr1 := TrackAll(cfg, configured, db, pr, head);
    BodiesWereNotCopied(configured, pr, pr1, gen, replies);
    IngestsConform(cfg, configured, db, pr, head, pr1, gen, ps, |ps|, ingestAt);
    var steps := head + Ingests(ps, gen, ingestAt);
    var pr2 := TrackAll(cfg, configured, db, pr, steps);
    var finish := At(finishAt, FinishRefresh(gen, |replies|, Successes(replies)));
    AllSucceeded(replies);
    if Complete(finish.step) {
      assert pr.latest.Keys <= configured by {
        BookkeptSources(configured, db, pr);
      }
      EverySourceIsLatest(configured, pr, pr1, pr2, gen, replies);
    }
    hide AfterCopies, FairReplies, Parsed, Successes, Ingests;
    ExtendConforming(cfg, configured, db, pr, steps, finish);
  }

  lemma BookkeptSources(configured: set<Source>, db: Db, pr: Proto)
    requires Bookkept(configured, db, pr)
    ensures pr.latest.Keys <= configured
  {
  }

  lemma BodiesWereNotCopied(configured: set<Source>, pr: Proto, pr1: Proto, gen: int, replies: seq<Reply>)
    requires FairReplies(configured, pr, replies) && AfterCopies(pr, pr1, gen, replies, |replies|)
    ensures forall i :: 0 <= i < |Parsed(replies)| ==>
              Parsed(replies)[i].source in configured && Parsed(replies)[i].source !in pr1.copied
  {
    hide Parsed;
    forall p | p in Parsed(replies)
      ensures p.source in configured && p.source !in pr1.copied
    {
      ParsedFromBodies(replies, p);
    }
  }

  /** When every source has answered, every membership is of the open generation. */
  lemma EverySourceIsLatest(configured: set<Source>, pr: Proto, pr1: Proto, pr2: Proto, gen: int, replies: seq<Reply>)
    requires FairReplies(configured, pr, replies) && AfterCopies(pr, pr1, gen, replies, |replies|)
    requires AfterIngests(pr1, pr2, gen, Parsed(replies), |Parsed(replies)|)
    requires forall i :: 0 <= i < |replies| ==> !replies[i].answer.Failed?
    requires pr.latest.Keys <= configured
    ensures forall s :: s in pr2.latest ==> pr2.latest[s] == gen
  {
    hide Parsed;
    forall s | s in pr2.latest && s in pr1.latest
      ensures pr2.latest[s] == gen
    {
      assert s in configured;
      var i :| 0 <= i < |replies| && replies[i].source == s;
      if replies[i].answer.Body? {
        var p := replies[i].answer.proxies[0];
        BodiesAreParsed(replies, i, p);
        var k :| 0 <= k < |Parsed(replies)| && Parsed(replies)[k] == p;
      }
    }
  }

  lemma {:induction false} PrefixState(cfg: Config, configured: set<Source>, tr: seq<Timed>, steps: seq<Timed>, i: nat)
    requires i <= |tr|
    ensures State(cfg, tr + steps, i) == State(cfg, tr, i)
    ensures ProtoAt(cfg, configured, tr + steps, i) == ProtoAt(cfg, configured, tr, i)
  {
    hide Next, Track;
    if i > 0 {
      PrefixState(cfg, configured, tr, steps, i - 1);
    }
  }

  lemma {:induction false} SuffixState(cfg: Config, configured: set<Source>, tr: seq<Timed>, steps: seq<Timed>, k: nat)
    requires k <= |steps|
    ensures State(cfg, tr + steps, |tr| + k) == Play(cfg, State(cfg, tr, |tr|), steps[..k])
    ensures ProtoAt(cfg, configured, tr + steps, |tr| + k)
         == TrackAll(cfg, configured, State(cfg, tr, |tr|), ProtoAt(cfg, configured, tr, |tr|), steps[..k])
  {
    hide Next, Track;
    if k == 0 {
      PrefixState(cfg, configured, tr, steps, |tr|);
    } else {
      SuffixState(cfg, configured, tr, steps, k - 1);
      assert steps[..k][..k - 1] == steps[..k - 1];
      assert (tr + steps)[|tr| + k - 1] == steps[..k][k - 1];
    }
  }

  lemma {:induction false} ConformingPrefix(cfg: Config, configured: set<Source>, db: Db, pr: Proto,
                                            steps: seq<Timed>, k: nat)
    requires k < |steps| && ConformsFrom(cfg, configured, db, pr, steps)
    ensures Allowed(configured, TrackAll(cfg, configured, db, pr, steps[..k]), steps[k])
    decreases |steps|
  {
    hide Next, Track, Allowed, TrackAll;
    var n := |steps| - 1;
    if k < n {
      assert steps[..n][..k] == steps[..k];
      ConformingPrefix(cfg, configured, db, pr, steps[..n], k);
    }
  }

  /** A conforming history stays conforming, hence transparent to 304s, when a whole refresh is appended to it. */
  lemma RefreshExtendsHistory(cfg: Config, configured: set<Source>, tr: seq<Timed>, start: int, replies: seq<Reply>,
                              ingestAt: int, finishAt: int)
    requires Conforms(cfg, configured, tr)
    requires FairReplies(configured, ProtoAt(cfg, configured, tr, |tr|), replies)
    ensures var steps := RefreshSteps(State(cfg, tr, |tr|).lastGen + 1, start, replies, ingestAt, finishAt);
      && Conforms(cfg, configured, tr + steps)
      && ProtoAt(cfg, configured, tr + steps, |tr + steps|).open.None?
      && State(cfg, tr + steps, |tr + steps|) == Play(cfg, State(cfg, tr, |tr|), steps)
  {
    hide Next, Track, Allowed, TrackAll, ConformsFrom, Cached, RefreshSteps, Play;
    var db, pr := State(cfg, tr, |tr|), ProtoAt(cfg, configured, tr, |tr|);
    var steps := RefreshSteps(db.lastGen + 1, start, replies, ingestAt, finishAt);
    HistoryIsCached(cfg, configured, tr, |tr|);
    CachedIsBookkept(configured, db, pr);
    RefreshConforms(cfg, configured, db, pr, start, replies, ingestAt, finishAt);
    forall i | 0 <= i < |tr + steps|
      ensures Allowed(configured, ProtoAt(cfg, configured, tr + steps, i), (tr + steps)[i])
    {
      if i < |tr| {
        PrefixState(cfg, configured, tr, steps, i);
      } else {
        SuffixState(cfg, configured, tr, steps, i - |tr|);
        ConformingPrefix(cfg, configured, db, pr, steps, i - |tr|);
      }
    }
    SuffixState(cfg, configured, tr, steps, |steps|);
    assert steps[..|steps|] == steps;
  }

  lemma CachedIsBookkept(configured: set<Source>, db: Db, pr: Proto)
    requires Cached(configured, db, pr)
    ensures Bookkept(configured, db, pr)
  {
  }
}
