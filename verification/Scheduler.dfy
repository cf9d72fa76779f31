/** One scheduler tick: quotas, then a two-pass claim over four queues. */
module Scheduler {
  import opened Domain
  import opened Database
  import opened RefreshProtocol
  import opened Sets
  import opened Ranking
  import opened Quota
  import opened Store

  const QUEUES: seq<LifecycleState> := [Candidate, Probation, Dormant, Active]

  datatype Row = Row(id: NodeId, node: Node)

  datatype Job = Job(id: NodeId, raw: string, queue: LifecycleState, downloadDue: bool)

  // ---- The claim query ----

  function Points(condition: bool, points: int): int {
    if condition then points else 0
  }

  function Priority(n: Node, now: int, pressure: real): int {
    Points(n.lease.Some? && n.lease.value <= now + HOUR, 100)
    + Points(n.lastDownloadAt.Some?, 80)
    + Points(n.lastFailureClass == Some(TlsTimeout), 50)
    + Points(n.lastTestAt.None? || n.lastTestAt.value <= now - HOUR, 40)
    + 30
    - Points(n.lastDownloadAt.None? && n.failureStreak >= 5, 80)
    - Points(pressure >= 0.75 && n.lastDownloadAt.None?, 100)
  }

  /** Spreads rows of one priority; a hash of fewer than two characters has no bucket and sorts first. */
  function Bucket(h: Hash): int {
    if |h| < 2 then -1 else (h[0] as int * 31 + h[1] as int) % 17
  }

  predicate Outranks(a: Node, b: Node, now: int, pressure: real) {
    var pa, pb := Priority(a, now, pressure), Priority(b, now, pressure);
    if pa != pb then pa > pb
    else if Bucket(a.hash) != Bucket(b.hash) then Bucket(a.hash) < Bucket(b.hash)
    else if a.hash != b.hash then LexLess(a.hash, b.hash)
    else a.nextTestAt < b.nextTestAt
  }

  function Order(now: int, pressure: real): (Row, Row) -> bool {
    (a: Row, b: Row) => Outranks(a.node, b.node, now, pressure)
  }

  function Due(nodes: map<NodeId, Node>, queue: LifecycleState, now: int): set<Row> {
    set id | id in nodes && Eligible(nodes[id], queue, now) :: Row(id, nodes[id])
  }

  ghost predicate UniqueRows(nodes: map<NodeId, Node>) {
    UniqueHashes(EMPTY.(nodes := nodes))
  }

  lemma OutranksTransitive(a: Node, b: Node, c: Node, now: int, pressure: real)
    requires Outranks(a, b, now, pressure) && Outranks(b, c, now, pressure)
    ensures Outranks(a, c, now, pressure)
  {
    hide Priority, Bucket;
    if a.hash != b.hash && b.hash != c.hash && LexLess(a.hash, b.hash) && LexLess(b.hash, c.hash) {
      LexTransitive(a.hash, b.hash, c.hash);
      if a.hash == c.hash {
        LexIrreflexive(a.hash);
      }
    }
  }

  /** The ORDER BY clause never ties on two due rows: no claim depends on the engine's whim. */
  lemma OrderIsTotal(nodes: map<NodeId, Node>, queue: LifecycleState, now: int, pressure: real)
    requires UniqueRows(nodes)
    ensures StrictTotal(Due(nodes, queue, now), Order(now, pressure))
  {
    hide Priority, Bucket, LexLess;
    var rows, before := Due(nodes, queue, now), Order(now, pressure);
    forall a, b | a in rows && b in rows && a != b
      ensures before(a, b) || before(b, a)
    {
      LexTotal(a.node.hash, b.node.hash);
    }
    forall a, b, c | a in rows && b in rows && c in rows && before(a, b) && before(b, c)
      ensures before(a, c)
    {
      OutranksTransitive(a.node, b.node, c.node, now, pressure);
    }
  }

  // ---- What the ranking prefers ----

  /** One column at a time: a lease about to end, a download on record, a TLS timeout as the last failure and
      a test long ago each put a row ahead of the same row without it; five failures without a download put it back. */
  lemma RankingPrefers(n: Node, now: int, pressure: real, soon: int, late: int)
    requires soon <= now + HOUR < late
    ensures Outranks(n.(lease := Some(soon)), n.(lease := Some(late)), now, pressure)
    ensures Outranks(n.(lease := Some(soon)), n.(lease := None), now, pressure)
    ensures Outranks(n.(lastDownloadAt := Some(soon)), n.(lastDownloadAt := None), now, pressure)
    ensures n.lastFailureClass != Some(TlsTimeout) ==>
              Outranks(n.(lastFailureClass := Some(TlsTimeout)), n, now, pressure)
    ensures n.lastTestAt.Some? && n.lastTestAt.value > now - HOUR ==>
              Outranks(n.(lastTestAt := Some(now - HOUR)), n, now, pressure)
              && Outranks(n.(lastTestAt := None), n, now, pressure)
    ensures n.lastDownloadAt.None? && n.failureStreak >= 5 ==> Outranks(n.(failureStreak := 4), n, now, pressure)
  {
  }

  /** The lease of the row ends within the hour, or has ended. */
  predicate Expiring(n: Node, now: int) {
    n.lease.Some? && n.lease.value <= now + HOUR
  }

  /** Rows that have completed a download and whose lease is about to end come before all rows whose lease is
      not; and a row that has completed one comes before a row that has not and has no lease about to end,
      once that row has failed five times or the machine is under pressure. */
  lemma RankingPutsProvenFirst(a: Node, b: Node, now: int, pressure: real)
    requires a.lastDownloadAt.Some? && !Expiring(b, now)
    ensures Expiring(a, now) ==> Outranks(a, b, now, pressure)
    ensures b.lastDownloadAt.None? && (b.failureStreak >= 5 || pressure >= 0.75) ==> Outranks(a, b, now, pressure)
  {
  }

  /** Between rows of equal priority only the hash decides. */
  lemma TiesAreBrokenByHash(a: Node, b: Node, c: Node, d: Node, now: int, pressure: real)
    requires a.hash == c.hash && b.hash == d.hash && a.hash != b.hash
    requires Priority(a, now, pressure) == Priority(b, now, pressure)
    requires Priority(c, now, pressure) == Priority(d, now, pressure)
    ensures Outranks(a, b, now, pressure) <==> Outranks(c, d, now, pressure)
  {
  }

  function JobOf(row: Row, queue: LifecycleState, now: int, interval: int): Job {
    Job(row.id, row.node.raw, queue,
        !queue.Active? || row.node.lastDownloadAt.None? || row.node.lastDownloadAt.value + interval <= now)
  }

  function Jobs(rows: seq<Row>, queue: LifecycleState, now: int, interval: int): (r: seq<Job>)
    ensures |r| == |rows|
  {
    seq(|rows|, i requires 0 <= i < |rows| => JobOf(rows[i], queue, now, interval))
  }

  function Ids(jobs: seq<Job>): set<NodeId> {
    set j | j in jobs :: j.id
  }

  /** The rows after every job has been marked as being tested. */
  function Claimed(nodes: map<NodeId, Node>, ids: set<NodeId>, until: int): map<NodeId, Node> {
    map id | id in nodes :: if id in ids then ClaimRow(nodes[id], until) else nodes[id]
  }

  /** What is still due after some claims is what was due and has not been claimed. */
  lemma DueAfterClaims(nodes: map<NodeId, Node>, ids: set<NodeId>, until: int, queue: LifecycleState, now: int)
    requires queue.Queue()
    ensures Due(Claimed(nodes, ids, until), queue, now) == set r | r in Due(nodes, queue, now) && r.id !in ids
  {
    var after := Claimed(nodes, ids, until);
    forall id | id in nodes
      ensures Eligible(after[id], queue, now) <==> Eligible(nodes[id], queue, now) && id !in ids
    {
    }
  }

  /** Claiming the first rows of a query result leaves the next one as it was. */
  lemma StillDue(nodes: map<NodeId, Node>, queue: LifecycleState, now: int, rows: seq<Row>, i: nat, done: seq<Job>,
                 interval: int)
    requires i < |rows| && Distinct(rows) && (forall r :: r in rows ==> r in Due(nodes, queue, now))
    requires done == Jobs(rows[..i], queue, now, interval)
    ensures rows[i].id in nodes && rows[i].id !in Ids(done) && nodes[rows[i].id] == rows[i].node
    ensures Eligible(rows[i].node, queue, now)
    ensures Ids(done + [JobOf(rows[i], queue, now, interval)]) == Ids(done) + {rows[i].id}
    ensures Jobs(rows[..i + 1], queue, now, interval) == done + [JobOf(rows[i], queue, now, interval)]
  {
    hide Eligible;
    assert rows[i] in Due(nodes, queue, now);
    forall k | 0 <= k < i
      ensures done[k].id != rows[i].id
    {
      assert rows[k] in Due(nodes, queue, now);
    }
    assert Jobs(rows[..i + 1], queue, now, interval)[..i] == done;
  }

  /** The statement that claims an eligible row changes that row and nothing else. */
  lemma ClaimOneMore(cfg: Config, db: Db, nodes: map<NodeId, Node>, ids: set<NodeId>, id: NodeId,
                     queue: LifecycleState, now: int, leaseFor: int)
    requires db.nodes == Claimed(nodes, ids, now + leaseFor) && id in nodes && id !in ids
    requires queue.Queue() && Eligible(nodes[id], queue, now)
    ensures id in db.nodes && Eligible(db.nodes[id], queue, now)
    ensures Next(cfg, db, At(now, Step.Claim(id, queue, leaseFor)))
         == db.(nodes := Claimed(nodes, ids + {id}, now + leaseFor))
  {
    hide Eligible;
  }

  method AppendClaims(store: Store, now: int, queue: LifecycleState, limit: nat, total: nat, jobs: seq<Job>,
                      leaseFor: int, interval: int, pressure: real) returns (more: seq<Job>)
    requires queue.Queue() && |jobs| <= total && UniqueRows(store.nodes)
    modifies store
    ensures StrictTotal(Due(old(store.nodes), queue, now), Order(now, pressure))
    ensures var rows := TopK(Due(old(store.nodes), queue, now), Order(now, pressure), Min(limit, total - |jobs|));
      more == jobs + Jobs(rows, queue, now, interval)
    ensures store.View() == old(store.View()).(nodes := Claimed(old(store.nodes), Ids(more[|jobs|..]), now + leaseFor))
  {
    hide Eligible, Outranks, StrictTotal, UniqueRows, Next, Order, Jobs, Claimed, JobOf;
    OrderIsTotal(store.nodes, queue, now, pressure);
    ghost var before := store.View();
    var rows := TopK(Due(store.nodes, queue, now), Order(now, pressure), Min(limit, total - |jobs|));
    TopKSpec(Due(store.nodes, queue, now), Order(now, pressure), Min(limit, total - |jobs|));
    NothingClaimed(store.nodes, now + leaseFor, rows, queue, now, interval);
    var found: seq<Job> := [];
    for i := 0 to |rows|
      invariant found == Jobs(rows[..i], queue, now, interval)
      invariant store.View() == before.(nodes := Claimed(before.nodes, Ids(found), now + leaseFor))
    {
      var row := rows[i];
      StillDue(before.nodes, queue, now, rows, i, found, interval);
      ClaimOneMore(store.cfg, store.View(), before.nodes, Ids(found), row.id, queue, now, leaseFor);
      var claimed := store.Claim(now, row.id, queue, leaseFor);
      if claimed {
        found := found + [JobOf(row, queue, now, interval)];
      }
    }
    assert rows[..|rows|] == rows;
    more := jobs + found;
    assert more[|jobs|..] == found;
  }

  lemma NothingClaimed(nodes: map<NodeId, Node>, until: int, rows: seq<Row>, queue: LifecycleState, now: int,
                       interval: int)
    ensures Claimed(nodes, Ids([]), until) == nodes
    ensures Jobs(rows[..0], queue, now, interval) == []
  {
  }

  // ---- One tick ----

  function DueIn(nodes: map<NodeId, Node>, q: nat, now: int): set<Row>
    requires q < 4
  {
    Due(nodes, QUEUES[q], now)
  }

  /** The due rows of queue `q` that `ids` claims. */
  function Picked(nodes: map<NodeId, Node>, q: nat, now: int, ids: set<NodeId>): set<Row>
    requires q < 4
  {
    set r | r in DueIn(nodes, q, now) && r.id in ids
  }

  /** Queue `q` has given exactly the first `n` rows of its ranking. */
  ghost predicate Served(nodes: map<NodeId, Node>, q: nat, now: int, pressure: real, ids: set<NodeId>, n: nat)
    requires q < 4
  {
    && StrictTotal(DueIn(nodes, q, now), Order(now, pressure))
    && n <= |DueIn(nodes, q, now)|
    && Picked(nodes, q, now, ids) == Elements(TopK(DueIn(nodes, q, now), Order(now, pressure), n))
  }

  lemma {:induction false} TopKCap<T(!new)>(rows: set<T>, before: (T, T) -> bool, k: nat)
    requires StrictTotal(rows, before) && k >= |rows|
    ensures TopK(rows, before, k) == TopK(rows, before, |rows|)
  {
    if rows != {} {
      var best := Best(rows, before);
      TopKUnfold(rows, before, k, best);
      TopKUnfold(rows, before, |rows|, best);
      TopKCap(rows - {best}, before, k - 1);
    }
  }

  lemma TopKRows<T(!new)>(rows: set<T>, before: (T, T) -> bool, k: nat)
    requires StrictTotal(rows, before)
    ensures var r := TopK(rows, before, k);
      Distinct(r) && Elements(r) <= rows && |r| == |Elements(r)| == Min(k, |rows|)
  {
    hide TopK, StrictTotal, InOrder, Unbeaten;
    TopKSpec(rows, before, k);
    DistinctElements(TopK(rows, before, k));
  }

  lemma NextRows<T(!new)>(due: set<T>, before: (T, T) -> bool, n: nat, limit: nat)
    requires StrictTotal(due, before) && n <= |due|
    ensures StrictTotal(due - Elements(TopK(due, before, n)), before)
    ensures var rows := TopK(due - Elements(TopK(due, before, n)), before, limit);
      |rows| == Min(limit, |due| - n) && TopK(due, before, n) + rows == TopK(due, before, n + |rows|)
  {
    hide StrictTotal, TopK, Elements, Distinct;
    TwoPasses(due, before, n, limit);
    TopKRows(due, before, n);
    RestSize(due, Elements(TopK(due, before, n)));
    TopKRows(due - Elements(TopK(due, before, n)), before, limit);
    if n + limit > |due| {
      TopKCap(due, before, n + limit);
    }
  }

  /** A query over what the first `n` rows leave behind returns the next rows of the ranking. */
  lemma NextOfRanking<T(!new)>(due: set<T>, before: (T, T) -> bool, n: nat, limit: nat, rows: seq<T>)
    requires StrictTotal(due, before) && n <= |due|
    requires var left := due - Elements(TopK(due, before, n));
      StrictTotal(left, before) && rows == TopK(left, before, limit)
    ensures |rows| == Min(limit, |due| - n) && Distinct(rows)
    ensures Elements(rows) <= due - Elements(TopK(due, before, n))
    ensures Elements(TopK(due, before, n)) + Elements(rows) == Elements(TopK(due, before, n + |rows|))
  {
    hide StrictTotal, TopK, Distinct, Elements;
    NextRows(due, before, n, limit);
    TopKRows(due - Elements(TopK(due, before, n)), before, limit);
    ElementsAppend(TopK(due, before, n), rows);
  }

  lemma ElementsAppend<T>(a: seq<T>, b: seq<T>)
    ensures Elements(a + b) == Elements(a) + Elements(b)
  {
  }

  lemma QueuesAreDisjoint(nodes: map<NodeId, Node>, p: nat, q: nat, now: int, a: Row, b: Row)
    requires p < 4 && q < 4 && p != q && a in DueIn(nodes, p, now) && b in DueIn(nodes, q, now)
    ensures a.id != b.id
  {
  }

  /** Querying what is left of one queue extends its served prefix and touches no other queue. */
  lemma ServeMore(nodes: map<NodeId, Node>, q: nat, now: int, pressure: real, ids: set<NodeId>, n: nat, limit: nat,
                  rows: seq<Row>, more: set<NodeId>)
    requires q < 4 && Served(nodes, q, now, pressure, ids, n)
    requires var left := DueIn(nodes, q, now) - Picked(nodes, q, now, ids);
      StrictTotal(left, Order(now, pressure)) && rows == TopK(left, Order(now, pressure), limit)
    requires more == set r | r in rows :: r.id
    ensures |rows| == Min(limit, |DueIn(nodes, q, now)| - n) && Distinct(rows)
    ensures Elements(rows) <= DueIn(nodes, q, now) - Picked(nodes, q, now, ids)
    ensures Served(nodes, q, now, pressure, ids + more, n + |rows|)
    ensures forall p | 0 <= p < 4 && p != q :: Picked(nodes, p, now, ids + more) == Picked(nodes, p, now, ids)
  {
    hide Eligible, StrictTotal, TopK, Order, Distinct;
    NextOfRanking(DueIn(nodes, q, now), Order(now, pressure), n, limit, rows);
    MorePicked(nodes, q, q, now, ids, rows, more);
    forall p | 0 <= p < 4 && p != q
      ensures Picked(nodes, p, now, ids + more) == Picked(nodes, p, now, ids)
    {
      MorePicked(nodes, p, q, now, ids, rows, more);
    }
  }

  lemma MorePicked(nodes: map<NodeId, Node>, p: nat, q: nat, now: int, ids: set<NodeId>, rows: seq<Row>,
                   more: set<NodeId>)
    requires p < 4 && q < 4 && Elements(rows) <= DueIn(nodes, q, now) && more == set r | r in rows :: r.id
    ensures Picked(nodes, p, now, ids + more) == Picked(nodes, p, now, ids) + (if p == q then Elements(rows) else {})
  {
    forall r | r in DueIn(nodes, p, now)
      ensures r.id in more <==> p == q && r in rows
    {
      if r.id in more {
        var other :| other in rows && other.id == r.id;
        assert other in Elements(rows);
        if p != q {
          QueuesAreDisjoint(nodes, p, q, now, r, other);
        }
      }
    }
  }

  /** Every job is one due row of its queue, and no row is claimed twice. */
  ghost predicate GoodJobs(nodes: map<NodeId, Node>, now: int, interval: int, jobs: seq<Job>) {
    && (forall j :: j in jobs ==>
          j.queue in QUEUES && j.id in nodes && Eligible(nodes[j.id], j.queue, now)
          && j == JobOf(Row(j.id, nodes[j.id]), j.queue, now, interval))
    && (forall i, k :: 0 <= i < k < |jobs| ==> jobs[i].id != jobs[k].id)
  }

  /** Queue `q` has given the first `given[q]` rows of its ranking, and `jobs` are those rows. */
  ghost predicate Progress(nodes: map<NodeId, Node>, now: int, interval: int, pressure: real, jobs: seq<Job>,
                           given: seq<nat>) {
    && |given| == 4
    && (forall q | 0 <= q < 4 :: Served(nodes, q, now, pressure, Ids(jobs), given[q]))
    && |jobs| == given[0] + given[1] + given[2] + given[3]
    && GoodJobs(nodes, now, interval, jobs)
  }

  lemma ClaimedTwice(nodes: map<NodeId, Node>, a: set<NodeId>, b: set<NodeId>, until: int)
    requires a !! b
    ensures Claimed(Claimed(nodes, a, until), b, until) == Claimed(nodes, a + b, until)
  {
  }

  lemma ClaimedStaysUnique(nodes: map<NodeId, Node>, ids: set<NodeId>, until: int)
    requires UniqueRows(nodes)
    ensures UniqueRows(Claimed(nodes, ids, until))
  {
  }

  lemma MoreGoodJobs(nodes: map<NodeId, Node>, q: nat, now: int, interval: int, jobs: seq<Job>, rows: seq<Row>)
    requires q < 4 && GoodJobs(nodes, now, interval, jobs)
    requires Distinct(rows) && Elements(rows) <= DueIn(nodes, q, now) - Picked(nodes, q, now, Ids(jobs))
    ensures GoodJobs(nodes, now, interval, jobs + Jobs(rows, QUEUES[q], now, interval))
    ensures Ids(Jobs(rows, QUEUES[q], now, interval)) == set r | r in rows :: r.id
    ensures Ids(jobs) !! Ids(Jobs(rows, QUEUES[q], now, interval))
  {
    hide Eligible;
    var found := Jobs(rows, QUEUES[q], now, interval);
    forall i | 0 <= i < |rows|
      ensures rows[i] in DueIn(nodes, q, now) && rows[i].id !in Ids(jobs) && found[i].id == rows[i].id
    {
      assert rows[i] in Elements(rows);
    }
    forall i | 0 <= i < |jobs|
      ensures jobs[i].id in Ids(jobs)
    {
    }
    assert forall id :: id in Ids(found) <==> exists r :: r in rows && r.id == id;
  }

  /** One query of one queue, at any point of the tick. */
  lemma TickStep(nodes: map<NodeId, Node>, q: nat, now: int, interval: int, pressure: real, until: int,
                 jobs: seq<Job>, given: seq<nat>, limit: nat, more: seq<Job>)
    requires q < 4 && Progress(nodes, now, interval, pressure, jobs, given)
    requires var due := Due(Claimed(nodes, Ids(jobs), until), QUEUES[q], now);
      StrictTotal(due, Order(now, pressure))
      && more == jobs + Jobs(TopK(due, Order(now, pressure), limit), QUEUES[q], now, interval)
    ensures Progress(nodes, now, interval, pressure, more,
                     given[q := given[q] + Min(limit, |DueIn(nodes, q, now)| - given[q])])
    ensures Claimed(Claimed(nodes, Ids(jobs), until), Ids(more[|jobs|..]), until) == Claimed(nodes, Ids(more), until)
  {
    hide Eligible, StrictTotal, TopK, Order, Distinct, Jobs, Claimed, GoodJobs, Elements, Picked, DueIn;
    var ids := Ids(jobs);
    DueAfterClaims(nodes, ids, until, QUEUES[q], now);
    LeftInQueue(nodes, q, now, ids);
    var rows := TopK(Due(Claimed(nodes, ids, until), QUEUES[q], now), Order(now, pressure), limit);
    var found := Jobs(rows, QUEUES[q], now, interval);
    ServeMore(nodes, q, now, pressure, ids, given[q], limit, rows, set r | r in rows :: r.id);
    MoreGoodJobs(nodes, q, now, interval, jobs, rows);
    assert more[|jobs|..] == found;
    assert Ids(more) == ids + Ids(found);
    ClaimedTwice(nodes, ids, Ids(found), until);
  }

  lemma LeftInQueue(nodes: map<NodeId, Node>, q: nat, now: int, ids: set<NodeId>)
    requires q < 4
    ensures DueIn(nodes, q, now) - Picked(nodes, q, now, ids) == set r | r in Due(nodes, QUEUES[q], now) && r.id !in ids
  {
  }

  function DueCount(nodes: map<NodeId, Node>, q: nat, now: int): nat
    requires q < 4
  {
    |DueIn(nodes, q, now)|
  }

  /** What queue `q` is sure to give: its quota, or all it has. */
  function Guaranteed(capacity: nat, nodes: map<NodeId, Node>, q: nat, now: int): nat
    requires q < 4
  {
    Min(Share(capacity, q), DueCount(nodes, q, now))
  }

  /** The claim guarantee of one tick. */
  ghost predicate FairTick(capacity: nat, nodes: map<NodeId, Node>, now: int, pressure: real, jobs: seq<Job>) {
    && |jobs| == Min(capacity, DueCount(nodes, 0, now) + DueCount(nodes, 1, now)
                               + DueCount(nodes, 2, now) + DueCount(nodes, 3, now))
    && forall q | 0 <= q < 4 ::
      var given := |Picked(nodes, q, now, Ids(jobs))|;
      // the best rows of the queue, as one query would rank them
      && Served(nodes, q, now, pressure, Ids(jobs), given)
      // at least the quota
      && given >= Guaranteed(capacity, nodes, q, now)
      // overflow only after every earlier queue is exhausted
      && (given > Guaranteed(capacity, nodes, q, now) ==>
            forall p | 0 <= p < q :: DueIn(nodes, p, now) == Picked(nodes, p, now, Ids(jobs)))
  }

  /** Counts reached after the second pass has looked at the first `q` queues. */
  ghost predicate Overflowed(capacity: nat, nodes: map<NodeId, Node>, now: int, jobs: seq<Job>, given: seq<nat>, q: nat)
    requires |given| == 4
  {
    && |jobs| <= capacity
    && (|jobs| == capacity || forall p | 0 <= p < q && p < 4 :: given[p] == DueCount(nodes, p, now))
    && (forall p | 0 <= p < 4 :: given[p] >= Guaranteed(capacity, nodes, p, now))
    && (forall p | q <= p < 4 :: given[p] == Guaranteed(capacity, nodes, p, now))
    && (forall p | 0 <= p < 4 && given[p] > Guaranteed(capacity, nodes, p, now) ::
          forall r | 0 <= r < p :: given[r] == DueCount(nodes, r, now))
  }

  lemma OverflowIsFair(capacity: nat, nodes: map<NodeId, Node>, now: int, interval: int, pressure: real,
                       jobs: seq<Job>, given: seq<nat>, q: nat)
    requires Progress(nodes, now, interval, pressure, jobs, given) && Overflowed(capacity, nodes, now, jobs, given, q)
    requires |jobs| == capacity || q == 4
    ensures FairTick(capacity, nodes, now, pressure, jobs)
  {
    hide Eligible, Order, StrictTotal, Guaranteed, GoodJobs, Distinct;
    forall p | 0 <= p < 4
      ensures |Picked(nodes, p, now, Ids(jobs))| == given[p] <= DueCount(nodes, p, now)
      ensures given[p] == DueCount(nodes, p, now) ==> DueIn(nodes, p, now) == Picked(nodes, p, now, Ids(jobs))
    {
      TopKRows(DueIn(nodes, p, now), Order(now, pressure), given[p]);
      if given[p] == DueCount(nodes, p, now) {
        FullSubset(Picked(nodes, p, now, Ids(jobs)), DueIn(nodes, p, now));
      }
    }
  }

  /** One query of the tick, with the rows as they were when the tick began. */
  method ClaimFrom(store: Store, ghost nodes: map<NodeId, Node>, now: int, q: nat, limit: nat, capacity: nat,
                   jobs: seq<Job>, ghost given: seq<nat>, leaseFor: int, interval: int, pressure: real)
    returns (more: seq<Job>)
    requires q < 4 && |jobs| <= capacity && UniqueRows(nodes)
    requires store.nodes == Claimed(nodes, Ids(jobs), now + leaseFor)
    requires Progress(nodes, now, interval, pressure, jobs, given)
    modifies store
    ensures Progress(nodes, now, interval, pressure, more,
                     given[q := given[q] + Min(Min(limit, capacity - |jobs|), DueCount(nodes, q, now) - given[q])])
    ensures store.View() == old(store.View()).(nodes := Claimed(nodes, Ids(more), now + leaseFor))
  {
    hide Eligible, Order, StrictTotal, TopK, Progress, Claimed, Due, UniqueRows, Jobs;
    ClaimedStaysUnique(nodes, Ids(jobs), now + leaseFor);
    more := AppendClaims(store, now, QUEUES[q], limit, capacity, jobs, leaseFor, interval, pressure);
    ProgressLength(nodes, now, interval, pressure, jobs, given);
    TickStep(nodes, q, now, interval, pressure, now + leaseFor, jobs, given, Min(limit, capacity - |jobs|), more);
  }

  lemma ProgressLength(nodes: map<NodeId, Node>, now: int, interval: int, pressure: real, jobs: seq<Job>,
                       given: seq<nat>)
    requires Progress(nodes, now, interval, pressure, jobs, given)
    ensures |given| == 4 && |jobs| == given[0] + given[1] + given[2] + given[3]
    ensures forall q | 0 <= q < 4 :: given[q] <= DueCount(nodes, q, now)
    ensures GoodJobs(nodes, now, interval, jobs)
  {
  }

  lemma NothingServed(nodes: map<NodeId, Node>, now: int, interval: int, pressure: real, until: int)
    requires UniqueRows(nodes)
    ensures Progress(nodes, now, interval, pressure, [], [0, 0, 0, 0])
    ensures Claimed(nodes, Ids([]), until) == nodes
  {
    hide Eligible, Order, StrictTotal;
    forall q | 0 <= q < 4
      ensures Served(nodes, q, now, pressure, Ids([]), 0)
    {
      OrderIsTotal(nodes, QUEUES[q], now, pressure);
      assert TopK(DueIn(nodes, q, now), Order(now, pressure), 0) == [];
    }
  }

  /** Counts reached after the first pass has looked at the first `q` queues. */
  ghost predicate InQuota(capacity: nat, nodes: map<NodeId, Node>, now: int, given: seq<nat>, q: nat)
    requires |given| == 4
  {
    forall p | 0 <= p < 4 :: given[p] == if p < q then Guaranteed(capacity, nodes, p, now) else 0
  }

  lemma NothingGiven(capacity: nat, nodes: map<NodeId, Node>, now: int)
    ensures InQuota(capacity, nodes, now, [0, 0, 0, 0], 0)
  {
  }

  /** The quotas add up to the capacity, so no quota is cut short by it. */
  lemma QuotaStep(capacity: nat, nodes: map<NodeId, Node>, now: int, given: seq<nat>, q: nat, claimed: nat)
    requires q < 4 && |given| == 4 && InQuota(capacity, nodes, now, given, q)
    requires claimed == given[0] + given[1] + given[2] + given[3]
    ensures claimed + Share(capacity, q) <= capacity
    ensures InQuota(capacity, nodes, now,
                    given[q := given[q] + Min(Min(Share(capacity, q), capacity - claimed),
                                              DueCount(nodes, q, now) - given[q])], q + 1)
  {
    hide Share, DueCount;
    SharesAreFair(capacity);
    assert given[0] <= Share(capacity, 0) && given[1] <= Share(capacity, 1)
        && given[2] <= Share(capacity, 2) && given[3] <= Share(capacity, 3);
  }

  lemma QuotaDone(capacity: nat, nodes: map<NodeId, Node>, now: int, jobs: seq<Job>, given: seq<nat>)
    requires |given| == 4 && InQuota(capacity, nodes, now, given, 4)
    requires |jobs| == given[0] + given[1] + given[2] + given[3]
    ensures Overflowed(capacity, nodes, now, jobs, given, 0) && |jobs| <= capacity
  {
    hide Share, DueCount;
    SharesAreFair(capacity);
  }

  lemma OverflowStep(capacity: nat, nodes: map<NodeId, Node>, now: int, jobs: seq<Job>, given: seq<nat>, q: nat,
                     more: seq<Job>, given': seq<nat>)
    requires q < 4 && |given| == |given'| == 4 && Overflowed(capacity, nodes, now, jobs, given, q) && |jobs| < capacity
    requires |jobs| == given[0] + given[1] + given[2] + given[3]
    requires |more| == given'[0] + given'[1] + given'[2] + given'[3]
    requires given[q] <= DueCount(nodes, q, now)
    requires given' == given[q := given[q] + Min(capacity - |jobs|, DueCount(nodes, q, now) - given[q])]
    ensures Overflowed(capacity, nodes, now, more, given', q + 1)
  {
    hide Share, DueCount, Guaranteed;
    assert |more| == |jobs| + given'[q] - given[q];
  }

  /** The columns that make a row due in a queue. */
  predicate DueNow(n: Node, queue: LifecycleState, now: int) {
    && queue in {Candidate, Probation, Dormant, Active}
    && (n.lifecycle == queue || (n.lifecycle == WaitingForPort && n.waitingFrom == Some(queue)))
    && n.valid && n.nextTestAt <= now && (n.testLease.None? || n.testLease.value <= now)
  }

  lemma JobColumns(nodes: map<NodeId, Node>, now: int, interval: int, jobs: seq<Job>)
    requires GoodJobs(nodes, now, interval, jobs)
    ensures forall j :: j in jobs ==>
              && j.id in nodes && DueNow(nodes[j.id], j.queue, now) && j.raw == nodes[j.id].raw
              && (j.downloadDue <==>
                    || j.queue != Active || nodes[j.id].lastDownloadAt.None?
                    || nodes[j.id].lastDownloadAt.value + interval <= now)
  {
  }

  lemma ServedIsPicked(nodes: map<NodeId, Node>, now: int, jobs: seq<Job>, q: nat)
    requires q < 4
    ensures Given(nodes, now, jobs, q) <= DueCount(nodes, q, now)
    ensures Given(nodes, now, jobs, q) == DueCount(nodes, q, now) ==>
              DueIn(nodes, q, now) == Picked(nodes, q, now, Ids(jobs))
  {
    hide Eligible;
    SubsetSize(Picked(nodes, q, now, Ids(jobs)), DueIn(nodes, q, now));
    if Given(nodes, now, jobs, q) == DueCount(nodes, q, now) {
      FullSubset(Picked(nodes, q, now, Ids(jobs)), DueIn(nodes, q, now));
    }
  }

  lemma DueRowIsQueued(nodes: map<NodeId, Node>, now: int, id: NodeId, queue: LifecycleState) returns (q: nat)
    requires id in nodes && DueNow(nodes[id], queue, now)
    ensures q < 4 && Row(id, nodes[id]) in DueIn(nodes, q, now)
  {
    q := if queue == Candidate then 0 else if queue == Probation then 1 else if queue == Dormant then 2 else 3;
    assert QUEUES[q] == queue;
  }

  lemma PickedIsClaimed(nodes: map<NodeId, Node>, q: nat, now: int, ids: set<NodeId>, row: Row)
    requires q < 4 && row in Picked(nodes, q, now, ids)
    ensures row.id in ids
  {
  }

  lemma ShortTickEmptiesQueues(capacity: nat, nodes: map<NodeId, Node>, now: int, interval: int, pressure: real,
                               jobs: seq<Job>)
    requires GoodJobs(nodes, now, interval, jobs) && FairTick(capacity, nodes, now, pressure, jobs) && |jobs| < capacity
    ensures DueIn(nodes, 0, now) == Picked(nodes, 0, now, Ids(jobs))
    ensures DueIn(nodes, 1, now) == Picked(nodes, 1, now, Ids(jobs))
    ensures DueIn(nodes, 2, now) == Picked(nodes, 2, now, Ids(jobs))
    ensures DueIn(nodes, 3, now) == Picked(nodes, 3, now, Ids(jobs))
  {
    JobsAreCounted(nodes, now, interval, jobs);
    FairTickServes(capacity, nodes, now, pressure, jobs, 0);
    hide GoodJobs, FairTick, Given, DueCount, Served, Ids, DueIn, Picked;
    ServedIsPicked(nodes, now, jobs, 0);
    ServedIsPicked(nodes, now, jobs, 1);
    ServedIsPicked(nodes, now, jobs, 2);
    ServedIsPicked(nodes, now, jobs, 3);
  }

  /** A tick that claims fewer rows than it may leaves no due row behind. */
  lemma ShortTickTakesAll(capacity: nat, nodes: map<NodeId, Node>, now: int, interval: int, pressure: real,
                          jobs: seq<Job>)
    requires GoodJobs(nodes, now, interval, jobs) && FairTick(capacity, nodes, now, pressure, jobs) && |jobs| < capacity
    ensures forall id, queue :: id in nodes && DueNow(nodes[id], queue, now) ==> id in Ids(jobs)
  {
    hide GoodJobs, FairTick, Ids, DueNow, DueIn, Picked;
    ShortTickEmptiesQueues(capacity, nodes, now, interval, pressure, jobs);
    forall id, queue | id in nodes && DueNow(nodes[id], queue, now)
      ensures id in Ids(jobs)
    {
      var q := DueRowIsQueued(nodes, now, id, queue);
      PickedIsClaimed(nodes, q, now, Ids(jobs), Row(id, nodes[id]));
    }
  }

  /** One tick with no concurrent claimer. */
  method ClaimDue(store: Store, now: int, requested: nat, leaseFor: int, interval: int,
                  pressure: real)
    returns (jobs: seq<Job>)
    requires UniqueRows(store.nodes)
    modifies store
    ensures GoodJobs(old(store.nodes), now, interval, jobs)
    ensures FairTick(Max(requested, 1), old(store.nodes), now, pressure, jobs)
    ensures forall j :: j in jobs ==>
              && j.id in old(store.nodes) && DueNow(old(store.nodes)[j.id], j.queue, now)
              && j.raw == old(store.nodes)[j.id].raw
              && (j.downloadDue <==>
                    || j.queue != Active || old(store.nodes)[j.id].lastDownloadAt.None?
                    || old(store.nodes)[j.id].lastDownloadAt.value + interval <= now)
    ensures |jobs| < requested ==>
              forall id, queue :: id in old(store.nodes) && DueNow(old(store.nodes)[id], queue, now) ==> id in Ids(jobs)
    ensures store.View() == old(store.View()).(nodes := Claimed(old(store.nodes), Ids(jobs), now + leaseFor))
  {
    hide Progress, GoodJobs, FairTick, Share, Claimed, DueCount, UniqueRows, InQuota, Overflowed, Ids, DueNow;
    ghost var before := store.View();
    ghost var nodes := store.nodes;
    ghost var given: seq<nat> := [0, 0, 0, 0];
    var capacity := Max(requested, 1);
    var quota := ForCapacity(capacity);
    jobs := [];
    NothingServed(nodes, now, interval, pressure, now + leaseFor);
    NothingGiven(capacity, nodes, now);
    for q := 0 to 4
      invariant store.View() == before.(nodes := Claimed(nodes, Ids(jobs), now + leaseFor))
      invariant |given| == 4 && |jobs| == given[0] + given[1] + given[2] + given[3]
      invariant Progress(nodes, now, interval, pressure, jobs, given)
      invariant InQuota(capacity, nodes, now, given, q)
    {
      ProgressLength(nodes, now, interval, pressure, jobs, given);
      QuotaStep(capacity, nodes, now, given, q, |jobs|);
      ghost var given' := given[q := given[q] +
                                Min(Min(quota.At(q), capacity - |jobs|), DueCount(nodes, q, now) - given[q])];
      jobs := ClaimFrom(store, nodes, now, q, quota.At(q), capacity, jobs, given, leaseFor, interval, pressure);
      given := given';
      ProgressLength(nodes, now, interval, pressure, jobs, given);
    }
    QuotaDone(capacity, nodes, now, jobs, given);
    var q := 0;
    while q < 4 && |jobs| < capacity
      invariant 0 <= q <= 4
      invariant store.View() == before.(nodes := Claimed(nodes, Ids(jobs), now + leaseFor))
      invariant |given| == 4 && |jobs| == given[0] + given[1] + given[2] + given[3] <= capacity
      invariant Progress(nodes, now, interval, pressure, jobs, given)
      invariant Overflowed(capacity, nodes, now, jobs, given, q)
    {
      ProgressLength(nodes, now, interval, pressure, jobs, given);
      ghost var given' := given[q := given[q] + Min(capacity - |jobs|, DueCount(nodes, q, now) - given[q])];
      var more := ClaimFrom(store, nodes, now, q, capacity - |jobs|, capacity, jobs, given, leaseFor, interval,
                            pressure);
      ProgressLength(nodes, now, interval, pressure, more, given');
      OverflowStep(capacity, nodes, now, jobs, given, q, more, given');
      OverflowInCapacity(capacity, nodes, now, more, given', q + 1);
      jobs, given := more, given';
      q := q + 1;
    }
    OverflowIsFair(capacity, nodes, now, interval, pressure, jobs, given, q);
    ProgressLength(nodes, now, interval, pressure, jobs, given);
    JobColumns(nodes, now, interval, jobs);
    if |jobs| < capacity {
      ShortTickTakesAll(capacity, nodes, now, interval, pressure, jobs);
    }
  }

  lemma OverflowInCapacity(capacity: nat, nodes: map<NodeId, Node>, now: int, jobs: seq<Job>, given: seq<nat>, q: nat)
    requires |given| == 4 && Overflowed(capacity, nodes, now, jobs, given, q)
    ensures |jobs| <= capacity
  {
  }

  /** The counts of one tick: at least what is sure, at most what is due, overflow only past exhausted queues. */
  ghost predicate MeetsGuarantee(due: seq<nat>, sure: seq<nat>, given: seq<nat>) {
    && |due| == |sure| == |given| == 4
    && (forall q | 0 <= q < 4 :: sure[q] <= given[q] <= due[q])
    && (forall q | 0 <= q < 4 && given[q] > sure[q] :: forall p | 0 <= p < q :: given[p] == due[p])
  }

  lemma CountsAreDetermined(due: seq<nat>, sure: seq<nat>, a: seq<nat>, b: seq<nat>)
    requires MeetsGuarantee(due, sure, a) && MeetsGuarantee(due, sure, b)
    requires a[0] + a[1] + a[2] + a[3] == b[0] + b[1] + b[2] + b[3]
    ensures a == b
  {
  }

  function Given(nodes: map<NodeId, Node>, now: int, jobs: seq<Job>, q: nat): nat
    requires q < 4
  {
    |Picked(nodes, q, now, Ids(jobs))|
  }

  lemma {:induction false} JobsAreCounted(nodes: map<NodeId, Node>, now: int, interval: int, jobs: seq<Job>)
    requires GoodJobs(nodes, now, interval, jobs)
    ensures Given(nodes, now, jobs, 0) + Given(nodes, now, jobs, 1)
            + Given(nodes, now, jobs, 2) + Given(nodes, now, jobs, 3) == |jobs|
  {
    hide Eligible, JobOf;
    var n := |jobs| - 1;
    if n < 0 {
      assert forall q | 0 <= q < 4 :: Picked(nodes, q, now, Ids(jobs)) == {};
    } else {
      var head, last := jobs[..n], jobs[n];
      JobsAreCounted(nodes, now, interval, head);
      assert last in jobs && jobs == head + [last];
      var k :| 0 <= k < 4 && QUEUES[k] == last.queue;
      hide GoodJobs, Given;
      LastCounted(nodes, now, interval, head, last, k, 0);
      LastCounted(nodes, now, interval, head, last, k, 1);
      LastCounted(nodes, now, interval, head, last, k, 2);
      LastCounted(nodes, now, interval, head, last, k, 3);
    }
  }

  lemma LastCounted(nodes: map<NodeId, Node>, now: int, interval: int, head: seq<Job>, last: Job, k: nat, q: nat)
    requires GoodJobs(nodes, now, interval, head + [last]) && k < 4 && q < 4 && QUEUES[k] == last.queue
    ensures Given(nodes, now, head + [last], q) == Given(nodes, now, head, q) + (if q == k then 1 else 0)
  {
    hide GoodJobs, Picked;
    LastPicked(nodes, now, interval, head, last, k, q);
  }

  lemma LastPicked(nodes: map<NodeId, Node>, now: int, interval: int, head: seq<Job>, last: Job, k: nat, q: nat)
    requires GoodJobs(nodes, now, interval, head + [last]) && k < 4 && q < 4 && QUEUES[k] == last.queue
    ensures last.id in nodes
    ensures Picked(nodes, q, now, Ids(head + [last]))
         == Picked(nodes, q, now, Ids(head)) + (if q == k then {Row(last.id, nodes[last.id])} else {})
    ensures Row(last.id, nodes[last.id]) !in Picked(nodes, q, now, Ids(head))
  {
    hide Eligible;
    var jobs := head + [last];
    assert jobs[|head|] == last && last in jobs;
    assert Ids(jobs) == Ids(head) + {last.id};
    var row := Row(last.id, nodes[last.id]);
    assert row in DueIn(nodes, k, now);
    forall j | j in head
      ensures j.id != last.id
    {
      var i :| 0 <= i < |head| && head[i] == j;
      assert jobs[i] == j;
    }
    if q != k && row in DueIn(nodes, q, now) {
      QueuesAreDisjoint(nodes, q, k, now, row, row);
    }
  }

  function DueCounts(nodes: map<NodeId, Node>, now: int): seq<nat> {
    [DueCount(nodes, 0, now), DueCount(nodes, 1, now), DueCount(nodes, 2, now), DueCount(nodes, 3, now)]
  }

  function SureCounts(capacity: nat, nodes: map<NodeId, Node>, now: int): seq<nat> {
    [Guaranteed(capacity, nodes, 0, now), Guaranteed(capacity, nodes, 1, now),
     Guaranteed(capacity, nodes, 2, now), Guaranteed(capacity, nodes, 3, now)]
  }

  function GivenCounts(nodes: map<NodeId, Node>, now: int, jobs: seq<Job>): seq<nat> {
    [Given(nodes, now, jobs, 0), Given(nodes, now, jobs, 1), Given(nodes, now, jobs, 2), Given(nodes, now, jobs, 3)]
  }

  lemma FairTickGives(capacity: nat, nodes: map<NodeId, Node>, now: int, pressure: real, jobs: seq<Job>, q: nat)
    requires FairTick(capacity, nodes, now, pressure, jobs) && q < 4
    ensures Guaranteed(capacity, nodes, q, now) <= Given(nodes, now, jobs, q) <= DueCount(nodes, q, now)
    ensures Given(nodes, now, jobs, q) > Guaranteed(capacity, nodes, q, now) ==>
              forall p | 0 <= p < q :: Given(nodes, now, jobs, p) == DueCount(nodes, p, now)
  {
    hide DueIn, Guaranteed, Ids, Order, StrictTotal, Picked, TopK, Elements;
  }

  lemma FairTickMeetsGuarantee(capacity: nat, nodes: map<NodeId, Node>, now: int, pressure: real, jobs: seq<Job>)
    requires FairTick(capacity, nodes, now, pressure, jobs)
    ensures MeetsGuarantee(DueCounts(nodes, now), SureCounts(capacity, nodes, now), GivenCounts(nodes, now, jobs))
  {
    hide FairTick, Guaranteed, Given, DueCount;
    FairTickGives(capacity, nodes, now, pressure, jobs, 0);
    FairTickGives(capacity, nodes, now, pressure, jobs, 1);
    FairTickGives(capacity, nodes, now, pressure, jobs, 2);
    FairTickGives(capacity, nodes, now, pressure, jobs, 3);
  }

  /** The claim guarantee leaves no freedom: any two ticks that meet it claim the same rows of every queue. */
  lemma FairTickIsDetermined(capacity: nat, nodes: map<NodeId, Node>, now: int, interval: int, pressure: real,
                             a: seq<Job>, b: seq<Job>, q: nat)
    requires GoodJobs(nodes, now, interval, a) && FairTick(capacity, nodes, now, pressure, a)
    requires GoodJobs(nodes, now, interval, b) && FairTick(capacity, nodes, now, pressure, b)
    requires q < 4
    ensures Picked(nodes, q, now, Ids(a)) == Picked(nodes, q, now, Ids(b))
  {
    hide DueIn, Ids, Order, StrictTotal, Picked, TopK, Elements, MeetsGuarantee, GoodJobs, FairTick, Given;
    hide DueCount, Guaranteed;
    JobsAreCounted(nodes, now, interval, a);
    JobsAreCounted(nodes, now, interval, b);
    FairTickMeetsGuarantee(capacity, nodes, now, pressure, a);
    FairTickMeetsGuarantee(capacity, nodes, now, pressure, b);
    FairTickServes(capacity, nodes, now, pressure, a, q);
    FairTickServes(capacity, nodes, now, pressure, b, q);
    CountsAreDetermined(DueCounts(nodes, now), SureCounts(capacity, nodes, now), GivenCounts(nodes, now, a),
                        GivenCounts(nodes, now, b));
    assert Given(nodes, now, a, q) == GivenCounts(nodes, now, a)[q];
    assert Given(nodes, now, b, q) == GivenCounts(nodes, now, b)[q];
  }

  lemma FairTickServes(capacity: nat, nodes: map<NodeId, Node>, now: int, pressure: real, jobs: seq<Job>, q: nat)
    requires FairTick(capacity, nodes, now, pressure, jobs) && q < 4
    ensures Served(nodes, q, now, pressure, Ids(jobs), Given(nodes, now, jobs, q))
    ensures |jobs| == Min(capacity, DueCount(nodes, 0, now) + DueCount(nodes, 1, now)
                                    + DueCount(nodes, 2, now) + DueCount(nodes, 3, now))
  {
  }

  function ClaimSteps(now: int, jobs: seq<Job>, leaseFor: int): (r: seq<Timed>)
    ensures |r| == |jobs|
  {
    seq(|jobs|, i requires 0 <= i < |jobs| => At(now, Step.Claim(jobs[i].id, jobs[i].queue, leaseFor)))
  }

  /** A tick is a history of claim statements, every one of which finds its row. */
  lemma {:induction false} TickIsClaims(cfg: Config, db: Db, now: int, interval: int, jobs: seq<Job>, leaseFor: int)
    requires GoodJobs(db.nodes, now, interval, jobs)
    ensures Play(cfg, db, ClaimSteps(now, jobs, leaseFor)) == db.(nodes := Claimed(db.nodes, Ids(jobs), now + leaseFor))
  {
    hide Next, Eligible, JobOf;
    if |jobs| == 0 {
      NothingClaimed(db.nodes, now + leaseFor, [], Candidate, now, interval);
    } else {
      var n := |jobs| - 1;
      var head, last := jobs[..n], jobs[n];
      TickIsClaims(cfg, db, now, interval, head, leaseFor);
      hide Claimed;
      assert ClaimSteps(now, jobs, leaseFor)[..n] == ClaimSteps(now, head, leaseFor);
      assert jobs == head + [last];
      assert Ids(jobs) == Ids(head) + {last.id};
      assert last in jobs;
      ClaimOneMore(cfg, Play(cfg, db, ClaimSteps(now, head, leaseFor)), db.nodes, Ids(head), last.id, last.queue, now,
                   leaseFor);
    }
  }
}
