/** The tables of the node store and the effect of every SQL statement on them.

    Each `Step` is one atomic statement or transaction.  `Next` is total: a
    statement whose WHERE clause matches nothing leaves the tables unchanged. */
module Database {
  import opened Domain
  import opened Health
  import opened Evidence
  import opened Ranking

  datatype Config = Config(
    half: real -> real,
    relayInterval: int,
    downloadInterval: int,
    minResidence: int,
    prune: nat)
  {
    ghost predicate Valid() {
      HalvingLaw(half) && 15 * MINUTE <= minResidence <= 30 * MINUTE
    }

    function MissingBeforeRetire(): nat {
      Max(prune, 3)
    }
  }

  datatype Proxy = Proxy(source: Source, raw: string, hash: Hash)

  datatype Node = Node(
    hash: Hash,
    raw: string,
    sources: set<Source>,
    lifecycle: LifecycleState,
    testingFrom: Option<LifecycleState>,
    waitingFrom: Option<LifecycleState>,
    valid: bool,
    alpha: real,
    beta: real,
    score: real,
    lease: Option<int>,
    activatedAt: Option<int>,
    failureStreak: nat,
    independentFailures: nat,
    lastFailureRun: Option<RunId>,
    lastFailureClass: Option<FailureClass>,
    lastSuccessAt: Option<int>,
    lastDownloadAt: Option<int>,
    lastTestAt: Option<int>,
    nextTestAt: int,
    testLease: Option<int>,
    lastSeen: int,
    missing: nat,
    createdAt: int,
    tombstoneUntil: Option<int>)

  datatype Member = Member(gen: int, source: Source, hash: Hash)

  datatype Db = Db(
    nodes: map<NodeId, Node>,
    log: Log,
    members: set<Member>,
    lastGen: nat,
    completeGen: int,
    nextId: NodeId)

  const EMPTY: Db := Db(map[], [], {}, 0, 0, 0)

  datatype Step =
    | Claim(id: NodeId, queue: LifecycleState, leaseFor: int)
    | Probe(id: NodeId, run: RunId, stage: TestStage, outcome: FailureClass, fast: bool, draw: nat)
    | Release(id: NodeId)
    | Wait(id: NodeId, retryAfter: int)
    | Ingest(proxy: Proxy, gen: int)
    | BeginRefresh
    | CopyCached(source: Source, gen: int)
    | FinishRefresh(gen: int, sourceCount: nat, successful: nat)
    | ReviveNode(id: NodeId)
    | ReviveDormant
    | ScheduleManualTest(id: NodeId)
    | CleanupRetired

  datatype Timed = At(now: int, step: Step)

  // ---- Source provenance ----

  function LowerAscii(c: char): char {
    if 'A' <= c <= 'Z' then (c as int + 32) as char else c
  }

  function Lower(s: string): string {
    seq(|s|, i requires 0 <= i < |s| => LowerAscii(s[i]))
  }

  predicate ManualAt(s: Source, i: nat)
    requires i + 6 <= |s|
  {
    Lower(s[i..i + 6]) == "manual"
  }

  /** `source_subs LIKE '%manual%'` on one source name. */
  predicate MentionsManual(s: Source) {
    exists i: nat | i + 6 <= |s| :: ManualAt(s, i)
  }

  predicate IsManual(sources: set<Source>) {
    exists s | s in sources :: MentionsManual(s)
  }

  // ---- Scheduler leases ----

  predicate Expired(lease: Option<int>, now: int) {
    lease.None? || lease.value <= now
  }

  predicate Eligible(n: Node, queue: LifecycleState, now: int) {
    && (n.lifecycle == queue || (n.lifecycle.WaitingForPort? && n.waitingFrom == Some(queue)))
    && n.valid
    && n.nextTestAt <= now
    && Expired(n.testLease, now)
  }

  function ClaimRow(n: Node, until: int): Node {
    n.(testingFrom := Some(if n.lifecycle.WaitingForPort? then n.waitingFrom.GetOr(Candidate) else n.lifecycle),
       waitingFrom := None,
       lifecycle := Testing,
       testLease := Some(until))
  }

  function ReleaseRow(n: Node): Node {
    if n.lifecycle.Testing? then
      n.(lifecycle := n.testingFrom.GetOr(Testing), testingFrom := None, testLease := None)
    else n
  }

  function WaitRow(n: Node, now: int, retryAfter: int): Node {
    if n.valid then
      n.(waitingFrom := Some(n.lifecycle),
         lifecycle := WaitingForPort,
         testLease := None,
         testingFrom := None,
         nextTestAt := now + Max(retryAfter, SECOND))
    else n
  }

  // ---- Probe events ----

  /** The state a probe result is judged against. */
  function Prior(n: Node): LifecycleState {
    if n.lifecycle.Testing? then n.testingFrom.GetOr(Testing) else n.lifecycle
  }

  predicate Logged(log: Log, id: NodeId, run: RunId, stage: TestStage) {
    exists i | 0 <= i < |log| :: log[i].id == id && log[i].run == run && log[i].stage == stage
  }

  /** `log` already ends with `e`. */
  function InputFor(cfg: Config, log: Log, n: Node, e: TestEvent): HealthInput {
    var events := WindowEvents(log, e.id, e.at);
    HealthInput(
      Prior(n), n.lease, n.activatedAt,
      Alpha(cfg.half, events, e.at), Beta(cfg.half, events, e.at),
      n.failureStreak, n.independentFailures,
      e.outcome.Failed() && n.lastFailureRun != Some(e.run),
      n.lastDownloadAt.Some?,
      e.stage, e.outcome, e.fast, e.at,
      cfg.relayInterval, cfg.downloadInterval, cfg.minResidence)
  }

  function DecidedRow(n: Node, input: HealthInput, d: HealthDecision, run: RunId): Node {
    n.(lifecycle := d.lifecycle,
       testingFrom := None,
       testLease := None,
       valid := n.valid && !input.outcome.InvalidConfig?,
       alpha := input.alpha,
       beta := input.beta,
       score := d.score,
       lease := d.lease,
       activatedAt := if d.lifecycle.Active? && !input.prior.Active? then Some(input.now) else n.activatedAt,
       failureStreak := d.failureStreak,
       independentFailures := d.independentFailures,
       lastFailureRun := if input.outcome.Failed() then Some(run) else n.lastFailureRun,
       lastFailureClass := if input.outcome.Failed() then Some(input.outcome) else n.lastFailureClass,
       lastSuccessAt := if input.outcome.Success? then Some(input.now) else n.lastSuccessAt,
       lastDownloadAt := if input.outcome.Success? && input.stage.Download? then Some(input.now) else n.lastDownloadAt,
       lastTestAt := Some(input.now),
       nextTestAt := d.nextTestAt)
  }

  function ProbedRow(cfg: Config, log: Log, n: Node, e: TestEvent, draw: nat): Node {
    var input := InputFor(cfg, log, n, e);
    DecidedRow(n, input, Decide(input, draw), e.run)
  }

  function EventOf(p: Step, now: int): TestEvent
    requires p.Probe?
  {
    TestEvent(p.id, p.run, p.stage, p.outcome, p.fast, now)
  }

  /** The probe is recorded: the node exists and this run/stage is new. */
  predicate Fresh(db: Db, p: Step)
    requires p.Probe?
  {
    p.id in db.nodes && !Logged(db.log, p.id, p.run, p.stage)
  }

  function ApplyProbe(cfg: Config, db: Db, now: int, p: Step): Db
    requires p.Probe?
  {
    if !Fresh(db, p) then db
    else
      var e := EventOf(p, now);
      var log := db.log + [e];
      db.(log := log, nodes := db.nodes[p.id := ProbedRow(cfg, log, db.nodes[p.id], e, p.draw)])
  }

  // ---- Upstream reconciliation ----

  function NewRow(p: Proxy, gen: int, now: int): Node {
    Node(p.hash, p.raw, {p.source}, Candidate, None, None, true, 1.0, 1.0, 0.5, None, None, 0, 0,
         None, None, None, None, None, now, None, gen, 0, now, None)
  }

  function SeenRow(n: Node, p: Proxy, gen: int, now: int): Node {
    n.(raw := p.raw,
       sources := n.sources + {p.source},
       lastSeen := gen,
       missing := 0,
       lifecycle := if n.lifecycle.Retired? then Candidate else n.lifecycle,
       tombstoneUntil := if n.lifecycle.Retired? then None else n.tombstoneUntil,
       nextTestAt := if n.lifecycle.Retired? then now else n.nextTestAt)
  }

  function CopiedRow(n: Node, gen: int): Node {
    n.(lastSeen := gen, missing := 0)
  }

  function AgedRow(n: Node, gen: int): Node {
    if n.lastSeen != gen && !IsManual(n.sources) then n.(missing := n.missing + 1) else n
  }

  predicate Retirable(n: Node, now: int, minimum: nat) {
    && n.lifecycle.Publishable()
    && n.missing >= minimum
    && n.createdAt <= now - 12 * HOUR
    && Expired(n.lease, now)
  }

  function RetireRow(n: Node, now: int, minimum: nat): Node {
    if Retirable(n, now, minimum) then n.(lifecycle := Retired, tombstoneUntil := Some(now + 30 * DAY))
    else n
  }

  predicate Known(db: Db, h: Hash) {
    exists id | id in db.nodes :: db.nodes[id].hash == h
  }

  function IngestOne(db: Db, p: Proxy, gen: int, now: int): Db {
    var members := db.members + {Member(gen, p.source, p.hash)};
    if Known(db, p.hash) then
      db.(members := members,
          nodes := map id | id in db.nodes ::
            if db.nodes[id].hash == p.hash then SeenRow(db.nodes[id], p, gen, now) else db.nodes[id])
    else
      db.(members := members, nodes := db.nodes[db.nextId := NewRow(p, gen, now)], nextId := db.nextId + 1)
  }

  /** Generations before `gen` in which `source` has members. */
  function EarlierGens(db: Db, source: Source, gen: int): set<int> {
    set m | m in db.members && m.source == source && m.gen < gen :: m.gen
  }

  function HashesAt(db: Db, source: Source, gen: int): set<Hash> {
    set m | m in db.members && m.source == source && m.gen == gen :: m.hash
  }

  function CopyMembers(db: Db, source: Source, gen: int): Db {
    var gens := EarlierGens(db, source, gen);
    if gens == {} then db
    else
      var copied := set h | h in HashesAt(db, source, SetMax(gens)) :: Member(gen, source, h);
      db.(members := db.members + copied)
  }

  function CopyGeneration(db: Db, source: Source, gen: int): Db {
    if EarlierGens(db, source, gen) == {} then db
    else
      var db' := CopyMembers(db, source, gen);
      var seen := HashesAt(db', source, gen);
      db'.(nodes := map id | id in db.nodes ::
             if db.nodes[id].hash in seen then CopiedRow(db.nodes[id], gen) else db.nodes[id])
  }

  predicate Complete(s: Step)
    requires s.FinishRefresh?
  {
    s.sourceCount > 0 && s.successful == s.sourceCount
  }

  function Finish(cfg: Config, db: Db, now: int, s: Step): Db
    requires s.FinishRefresh?
  {
    if !Complete(s) then db
    else
      db.(completeGen := Max(db.completeGen, s.gen),
          nodes := map id | id in db.nodes ::
            RetireRow(AgedRow(db.nodes[id], s.gen), now, cfg.MissingBeforeRetire()))
  }

  // ---- Operator actions ----

  function ReviveNodeRow(n: Node, now: int): Node {
    if (n.lifecycle.Dormant? || n.lifecycle.Probation? || n.lifecycle.Candidate?) && n.valid then
      n.(lifecycle := Probation, nextTestAt := now, testLease := None, testingFrom := None)
    else n
  }

  function ReviveDormantRow(n: Node, now: int): Node {
    if n.lifecycle.Dormant? && n.valid then n.(lifecycle := Probation, nextTestAt := now) else n
  }

  function ScheduleRow(n: Node, now: int): Node {
    if n.lifecycle.Testing? then n else n.(nextTestAt := now)
  }

  predicate Tombstoned(n: Node, now: int) {
    n.lifecycle.Retired? && n.tombstoneUntil.Some? && n.tombstoneUntil.value <= now
  }

  // ---- One step ----

  function SetRow(db: Db, id: NodeId, n: Node): Db {
    db.(nodes := db.nodes[id := n])
  }

  function Next(cfg: Config, db: Db, t: Timed): Db {
    var now := t.now;
    match t.step
    case Claim(id, queue, leaseFor) =>
      if id in db.nodes && queue.Queue() && Eligible(db.nodes[id], queue, now)
      then SetRow(db, id, ClaimRow(db.nodes[id], now + leaseFor)) else db
    case Probe(_, _, _, _, _, _) => ApplyProbe(cfg, db, now, t.step)
    case Release(id) => if id in db.nodes then SetRow(db, id, ReleaseRow(db.nodes[id])) else db
    case Wait(id, retry) => if id in db.nodes then SetRow(db, id, WaitRow(db.nodes[id], now, retry)) else db
    case Ingest(p, gen) => IngestOne(db, p, gen, now)
    case BeginRefresh => db.(lastGen := db.lastGen + 1)
    case CopyCached(source, gen) => CopyGeneration(db, source, gen)
    case FinishRefresh(_, _, _) => Finish(cfg, db, now, t.step)
    case ReviveNode(id) => if id in db.nodes then SetRow(db, id, ReviveNodeRow(db.nodes[id], now)) else db
    case ReviveDormant => db.(nodes := map id | id in db.nodes :: ReviveDormantRow(db.nodes[id], now))
    case ScheduleManualTest(id) => if id in db.nodes then SetRow(db, id, ScheduleRow(db.nodes[id], now)) else db
    case CleanupRetired => db.(nodes := map id | id in db.nodes && !Tombstoned(db.nodes[id], now) :: db.nodes[id])
  }

  /** The tables after the first `i` steps of a history that starts from an empty store. */
  function State(cfg: Config, tr: seq<Timed>, i: nat): Db
    requires i <= |tr|
  {
    if i == 0 then EMPTY else Next(cfg, State(cfg, tr, i - 1), tr[i - 1])
  }

  /** The tables after a list of steps from any starting point. */
  function Play(cfg: Config, db: Db, tr: seq<Timed>): Db {
    if |tr| == 0 then db else Next(cfg, Play(cfg, db, tr[..|tr| - 1]), tr[|tr| - 1])
  }

  lemma {:induction false} PlayAppend(cfg: Config, db: Db, a: seq<Timed>, b: seq<Timed>)
    ensures Play(cfg, db, a + b) == Play(cfg, Play(cfg, db, a), b)
  {
    if |b| == 0 {
      assert a + b == a;
    } else {
      var n := |b| - 1;
      assert (a + b)[..|a + b| - 1] == a + b[..n];
      PlayAppend(cfg, db, a, b[..n]);
    }
  }

  /** What a step does to one existing row, whichever statement it is. */
  function RowStep(cfg: Config, db: Db, t: Timed, id: NodeId): Node
    requires id in db.nodes
  {
    var n := db.nodes[id];
    match t.step
    case Claim(i, queue, leaseFor) =>
      if i == id && queue.Queue() && Eligible(n, queue, t.now) then ClaimRow(n, t.now + leaseFor) else n
    case Probe(i, _, _, _, _, draw) =>
      if i == id && Fresh(db, t.step) then
        ProbedRow(cfg, db.log + [EventOf(t.step, t.now)], n, EventOf(t.step, t.now), draw)
      else n
    case Release(i) => if i == id then ReleaseRow(n) else n
    case Wait(i, retry) => if i == id then WaitRow(n, t.now, retry) else n
    case Ingest(p, gen) => if n.hash == p.hash then SeenRow(n, p, gen, t.now) else n
    case BeginRefresh => n
    case CopyCached(source, gen) =>
      if EarlierGens(db, source, gen) != {} && n.hash in HashesAt(CopyMembers(db, source, gen), source, gen)
      then CopiedRow(n, gen) else n
    case FinishRefresh(gen, _, _) =>
      if Complete(t.step) then RetireRow(AgedRow(n, gen), t.now, cfg.MissingBeforeRetire()) else n
    case ReviveNode(i) => if i == id then ReviveNodeRow(n, t.now) else n
    case ReviveDormant => ReviveDormantRow(n, t.now)
    case ScheduleManualTest(i) => if i == id then ScheduleRow(n, t.now) else n
    case CleanupRetired => n
  }

  function LogStep(db: Db, t: Timed): Log {
    if t.step.Probe? && Fresh(db, t.step) then db.log + [EventOf(t.step, t.now)] else db.log
  }

  /** What a step does to everything but the rows. */
  function TableStep(db: Db, t: Timed): Db {
    Db(map[],
       LogStep(db, t),
       match t.step
       case Ingest(p, gen) => db.members + {Member(gen, p.source, p.hash)}
       case CopyCached(source, gen) => CopyMembers(db, source, gen).members
       case _ => db.members,
       if t.step.BeginRefresh? then db.lastGen + 1 else db.lastGen,
       if t.step.FinishRefresh? && Complete(t.step) then Max(db.completeGen, t.step.gen) else db.completeGen,
       if t.step.Ingest? && !Known(db, t.step.proxy.hash) then db.nextId + 1 else db.nextId)
  }

  lemma NextTables(cfg: Config, db: Db, t: Timed)
    ensures Next(cfg, db, t).(nodes := map[]) == TableStep(db, t)
  {
    hide ProbedRow, Logged, Known, RetireRow, AgedRow, ReviveDormantRow, Tombstoned, HashesAt, EarlierGens;
    hide ClaimRow, WaitRow, ReleaseRow, Eligible, ScheduleRow, ReviveNodeRow, SeenRow;
    if t.step.CopyCached? {
      assert CopyMembers(db, t.step.source, t.step.gen).(members := db.members) == db;
    }
  }

  /** Ids are never reused, and every logged id was once inserted. */
  ghost predicate IdsBelow(db: Db) {
    && (forall id :: id in db.nodes ==> id < db.nextId)
    && (forall i :: 0 <= i < |db.log| ==> db.log[i].id < db.nextId)
  }

  /** The row-wise reading of a step: every surviving row moved by `RowStep`,
      every other row is newly ingested, and only tombstones disappear. */
  ghost predicate RowWise(cfg: Config, db: Db, t: Timed, db': Db) {
    && db'.log == LogStep(db, t)
    && (forall id :: id in db.nodes && id in db'.nodes ==> db'.nodes[id] == RowStep(cfg, db, t, id))
    && (forall id :: id !in db.nodes ==>
          (id in db'.nodes <==> t.step.Ingest? && id == db.nextId && !Known(db, t.step.proxy.hash)))
    && (forall id :: id in db'.nodes && id !in db.nodes ==>
          db'.nodes[id] == NewRow(t.step.proxy, t.step.gen, t.now))
    && (forall id :: id in db.nodes ==>
          (id !in db'.nodes <==> t.step.CleanupRetired? && Tombstoned(db.nodes[id], t.now)))
    && db.nextId <= db'.nextId
    && IdsBelow(db')
  }

  lemma KeyedStepRowWise(cfg: Config, db: Db, t: Timed)
    requires IdsBelow(db)
    requires t.step.Claim? || t.step.Release? || t.step.Wait? || t.step.ReviveNode? || t.step.ScheduleManualTest?
    ensures RowWise(cfg, db, t, Next(cfg, db, t))
  {
    var db' := Next(cfg, db, t);
    assert db'.nodes.Keys == db.nodes.Keys;
    forall id | id in db.nodes
      ensures db'.nodes[id] == RowStep(cfg, db, t, id)
    {
      if id == t.step.id {
      }
    }
  }

  lemma ProbeRowWise(cfg: Config, db: Db, t: Timed)
    requires IdsBelow(db) && t.step.Probe?
    ensures RowWise(cfg, db, t, Next(cfg, db, t))
  {
    var db' := Next(cfg, db, t);
    assert db'.nodes.Keys == db.nodes.Keys;
  }

  lemma IngestRowWise(cfg: Config, db: Db, t: Timed)
    requires IdsBelow(db) && t.step.Ingest?
    ensures RowWise(cfg, db, t, Next(cfg, db, t))
  {
    assert db.nextId !in db.nodes;
    if !Known(db, t.step.proxy.hash) {
      assert forall id :: id in db.nodes ==> db.nodes[id].hash != t.step.proxy.hash;
    }
  }

  lemma BulkStepRowWise(cfg: Config, db: Db, t: Timed)
    requires IdsBelow(db)
    requires t.step.BeginRefresh? || t.step.CopyCached? || t.step.FinishRefresh?
             || t.step.ReviveDormant? || t.step.CleanupRetired?
    ensures RowWise(cfg, db, t, Next(cfg, db, t))
  {
  }

  lemma NextRowWise(cfg: Config, db: Db, t: Timed)
    requires IdsBelow(db)
    ensures RowWise(cfg, db, t, Next(cfg, db, t))
  {
    match t.step
    case Claim(_, _, _) => KeyedStepRowWise(cfg, db, t);
    case Release(_) => KeyedStepRowWise(cfg, db, t);
    case Wait(_, _) => KeyedStepRowWise(cfg, db, t);
    case ReviveNode(_) => KeyedStepRowWise(cfg, db, t);
    case ScheduleManualTest(_) => KeyedStepRowWise(cfg, db, t);
    case Probe(_, _, _, _, _, _) => ProbeRowWise(cfg, db, t);
    case Ingest(_, _) => IngestRowWise(cfg, db, t);
    case _ => BulkStepRowWise(cfg, db, t);
  }
}
