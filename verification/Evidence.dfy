/** The append-only event log and the evidence that a probe reads back from it. */
module Evidence {
  import opened Domain
  import opened Sets
  import opened Sums

  const MAX_ALPHA: real := 24.0
  const MAX_BETA: real := 64.0
  const MAX_EVENTS: nat := 512
  const HORIZON: int := 30 * DAY

  datatype TestEvent = TestEvent(
    id: NodeId, run: RunId, stage: TestStage, outcome: FailureClass, fast: bool, at: int)

  type Log = seq<TestEvent>

  /** Decayed success weight (`good`) or failure weight of one event at time `now`. */
  function Part(half: real -> real, good: bool, now: int, e: TestEvent): real {
    var d := Delta(e.stage, e.outcome, e.fast);
    Decay(half, if good then d.alpha else d.beta, now - e.at, d.halfLife)
  }

  lemma PartNonNegative(half: real -> real, good: bool, now: int, e: TestEvent)
    requires HalvingLaw(half)
    ensures Part(half, good, now, e) >= 0.0
  {
    var d := Delta(e.stage, e.outcome, e.fast);
    DecayBounds(half, if good then d.alpha else d.beta, now - e.at, d.halfLife);
  }

  predicate Recent(e: TestEvent, id: NodeId, now: int) {
    e.id == id && e.at >= now - HORIZON
  }

  /** Indices of the node's events of the last 30 days. */
  function Recents(log: Log, id: NodeId, now: int): set<nat> {
    set i: nat | i < |log| && Recent(log[i], id, now)
  }

  /** Event `j` comes before event `i` in `ORDER BY occurred_at DESC, id DESC`. */
  predicate Later(log: Log, j: nat, i: nat)
    requires j < |log| && i < |log|
  {
    log[j].at > log[i].at || (log[j].at == log[i].at && j > i)
  }

  function LaterRecents(log: Log, id: NodeId, now: int, i: nat): set<nat>
    requires i < |log|
  {
    set j: nat | j < |log| && Recent(log[j], id, now) && Later(log, j, i)
  }

  /** The rows kept by the evidence query: recent, and among the latest 512. */
  function Window(log: Log, id: NodeId, now: int): set<nat> {
    set i: nat | i < |log| && Recent(log[i], id, now) && |LaterRecents(log, id, now, i)| < MAX_EVENTS
  }

  /** The events at the positions `w`, in log order. */
  function Pick(log: Log, w: set<nat>): Log {
    if |log| == 0 then []
    else
      var n := |log| - 1;
      Pick(log[..n], w) + (if n in w then [log[n]] else [])
  }

  function WindowEvents(log: Log, id: NodeId, now: int): Log {
    Pick(log, Window(log, id, now))
  }

  function Weight(half: real -> real, good: bool, now: int, events: Log): real {
    Total((e: TestEvent) => Part(half, good, now, e), events)
  }

  function Alpha(half: real -> real, events: Log, now: int): real {
    var raw := 1.0 + Weight(half, true, now, events);
    if raw <= MAX_ALPHA then raw else MAX_ALPHA
  }

  function Beta(half: real -> real, events: Log, now: int): real {
    var raw := 1.0 + Weight(half, false, now, events);
    if raw <= MAX_BETA then raw else MAX_BETA
  }

  lemma {:induction false} TotalNonNegative(half: real -> real, good: bool, now: int, events: Log)
    requires HalvingLaw(half)
    ensures Weight(half, good, now, events) >= 0.0
  {
    if |events| > 0 {
      PartNonNegative(half, good, now, events[0]);
      TotalNonNegative(half, good, now, events[1..]);
    }
  }

  /** Whatever the history, a score never reaches 0 or 1. */
  lemma ScoreBounds(half: real -> real, events: Log, now: int)
    requires HalvingLaw(half)
    ensures 1.0 <= Alpha(half, events, now) <= 24.0
    ensures 1.0 <= Beta(half, events, now) <= 64.0
    ensures 1.0 / 65.0 <= Score(Alpha(half, events, now), Beta(half, events, now)) <= 24.0 / 25.0
  {
    TotalNonNegative(half, true, now, events);
    TotalNonNegative(half, false, now, events);
    RatioBounds(Alpha(half, events, now), Beta(half, events, now));
  }

  lemma QuotientCompare(a: real, t: real, c: real)
    requires t > 0.0
    ensures a / t < c <==> a < c * t
  {
    var r := a / t;
    assert r * t == a;
    if r < c {
      assert (c - r) * t > 0.0;
    } else {
      assert (r - c) * t >= 0.0;
    }
  }

  lemma RatioBounds(a: real, b: real)
    requires 1.0 <= a <= 24.0 && 1.0 <= b <= 64.0
    ensures 1.0 / 65.0 <= Score(a, b) <= 24.0 / 25.0
    ensures Score(a, b) == a / (a + b)
  {
    QuotientCompare(a, a + b, 1.0 / 65.0);
    QuotientCompare(-a, a + b, -24.0 / 25.0);
    assert (-a) / (a + b) == -(a / (a + b));
  }

  /** No success history blocks demotion: enough decayed failure weight forces the score down. */
  lemma FailureWeightForcesLowScore(half: real -> real, events: Log, now: int)
    requires HalvingLaw(half)
    requires Weight(half, false, now, events) >= 44.0
    ensures Score(Alpha(half, events, now), Beta(half, events, now)) < 0.35
  {
    ScoreBounds(half, events, now);
    var a, b := Alpha(half, events, now), Beta(half, events, now);
    RatioBounds(a, b);
    assert b >= 45.0;
    QuotientCompare(a, a + b, 0.35);
  }

  /** Two histories with the same window events, in any order, give the same evidence. */
  lemma EvidenceOrderFree(half: real -> real, a: Log, b: Log, now: int)
    requires multiset(a) == multiset(b)
    ensures Alpha(half, a, now) == Alpha(half, b, now)
    ensures Beta(half, a, now) == Beta(half, b, now)
  {
    TotalPermutation((e: TestEvent) => Part(half, true, now, e), a, b);
    TotalPermutation((e: TestEvent) => Part(half, false, now, e), a, b);
  }

  /** Appending an event can only push older events out of the window. */
  lemma WindowShrinks(log: Log, e: TestEvent, id: NodeId, now: int)
    ensures forall i: nat :: i < |log| && i in Window(log + [e], id, now) ==> i in Window(log, id, now)
  {
    var log' := log + [e];
    forall i: nat | i < |log| && i in Window(log', id, now)
      ensures i in Window(log, id, now)
    {
      assert log'[i] == log[i];
      assert LaterRecents(log, id, now, i) <= LaterRecents(log', id, now, i) by {
        forall j | j in LaterRecents(log, id, now, i) ensures j in LaterRecents(log', id, now, i) {
          assert log'[j] == log[j];
        }
      }
      SubsetSize(LaterRecents(log, id, now, i), LaterRecents(log', id, now, i));
    }
  }

  lemma {:induction false} TotalAppend(f: TestEvent -> real, s: Log, t: Log)
    ensures Total(f, s + t) == Total(f, s) + Total(f, t)
  {
    if |s| == 0 {
      assert s + t == t;
    } else {
      assert (s + t)[1..] == s[1..] + t;
      TotalAppend(f, s[1..], t);
    }
  }

  lemma WeightAppend(half: real -> real, good: bool, now: int, s: Log, t: Log)
    ensures Weight(half, good, now, s + t) == Weight(half, good, now, s) + Weight(half, good, now, t)
  {
    TotalAppend((e: TestEvent) => Part(half, good, now, e), s, t);
  }

  lemma WeightSingle(half: real -> real, good: bool, now: int, e: TestEvent)
    ensures Weight(half, good, now, [e]) == Part(half, good, now, e)
    ensures Weight(half, good, now, []) == 0.0
  {
    var f := (e: TestEvent) => Part(half, good, now, e);
    assert [e][1..] == [];
    assert Total(f, [e]) == f(e) + Total(f, []);
  }

  lemma {:induction false} WeightMonotone(half: real -> real, good: bool, now: int, log: Log, w: set<nat>, v: set<nat>)
    requires HalvingLaw(half)
    requires forall i: nat :: i < |log| && i in w ==> i in v
    ensures Weight(half, good, now, Pick(log, w)) <= Weight(half, good, now, Pick(log, v))
  {
    if |log| > 0 {
      var n := |log| - 1;
      WeightMonotone(half, good, now, log[..n], w, v);
      PartNonNegative(half, good, now, log[n]);
      WeightSingle(half, good, now, log[n]);
      WeightAppend(half, good, now, Pick(log[..n], w), if n in w then [log[n]] else []);
      WeightAppend(half, good, now, Pick(log[..n], v), if n in v then [log[n]] else []);
    }
  }

  /** An event of another node, or one without failure weight, never increases a node's failure weight. */
  lemma HarmlessEvent(half: real -> real, log: Log, e: TestEvent, id: NodeId, now: int)
    requires HalvingLaw(half)
    requires e.id != id || Delta(e.stage, e.outcome, e.fast).beta == 0.0
    ensures Weight(half, false, now, WindowEvents(log + [e], id, now))
         <= Weight(half, false, now, WindowEvents(log, id, now))
  {
    var log' := log + [e];
    var w, v := Window(log', id, now), Window(log, id, now);
    var n := |log|;
    assert log'[..n] == log && log'[n] == e;
    assert n in w ==> e.id == id;
    WindowShrinks(log, e, id, now);
    WeightMonotone(half, false, now, log, w, v);
    WeightSingle(half, false, now, e);
    WeightAppend(half, false, now, Pick(log, w), if n in w then [e] else []);
  }

  // ---- Noise: inconclusive events carry no weight ----

  function Conclusive(log: Log): Log {
    if |log| == 0 then []
    else
      var n := |log| - 1;
      Conclusive(log[..n]) + (if log[n].outcome.Inconclusive() then [] else [log[n]])
  }

  function RecentEvents(log: Log, id: NodeId, now: int): Log {
    if |log| == 0 then []
    else
      var n := |log| - 1;
      RecentEvents(log[..n], id, now) + (if Recent(log[n], id, now) then [log[n]] else [])
  }

  lemma {:induction false} PickRecents(log: Log, w: set<nat>, id: NodeId, now: int)
    requires forall i: nat :: i < |log| ==> (i in w <==> Recent(log[i], id, now))
    ensures Pick(log, w) == RecentEvents(log, id, now)
  {
    if |log| > 0 {
      var n := |log| - 1;
      assert forall i: nat :: i < n ==> log[..n][i] == log[i];
      PickRecents(log[..n], w, id, now);
    }
  }

  lemma {:induction false} RecentsSize(log: Log, id: NodeId, now: int)
    ensures |Recents(log, id, now)| == |RecentEvents(log, id, now)|
  {
    if |log| == 0 {
      assert Recents(log, id, now) == {};
    } else {
      var n := |log| - 1;
      RecentsSize(log[..n], id, now);
      assert forall i: nat :: i < n ==> log[..n][i] == log[i];
      if Recent(log[n], id, now) {
        assert Recents(log, id, now) == Recents(log[..n], id, now) + {n};
      } else {
        assert Recents(log, id, now) == Recents(log[..n], id, now);
      }
    }
  }

  /** While the 512-event cap does not bite, the window is every recent event. */
  lemma OpenWindow(log: Log, id: NodeId, now: int)
    requires |RecentEvents(log, id, now)| <= MAX_EVENTS
    ensures WindowEvents(log, id, now) == RecentEvents(log, id, now)
  {
    RecentsSize(log, id, now);
    forall i: nat | i < |log| && Recent(log[i], id, now)
      ensures i in Window(log, id, now)
    {
      assert i in Recents(log, id, now);
      assert LaterRecents(log, id, now, i) <= Recents(log, id, now) - {i};
      SubsetSize(LaterRecents(log, id, now, i), Recents(log, id, now) - {i});
    }
    PickRecents(log, Window(log, id, now), id, now);
  }

  lemma {:induction false} ConclusiveWeight(half: real -> real, good: bool, log: Log, id: NodeId, now: int)
    ensures Weight(half, good, now, RecentEvents(log, id, now))
         == Weight(half, good, now, RecentEvents(Conclusive(log), id, now))
    ensures |RecentEvents(Conclusive(log), id, now)| <= |RecentEvents(log, id, now)|
  {
    if |log| > 0 {
      var n := |log| - 1;
      var e := log[n];
      ConclusiveWeight(half, good, log[..n], id, now);
      var tail := if Recent(e, id, now) then [e] else [];
      WeightSingle(half, good, now, e);
      WeightAppend(half, good, now, RecentEvents(log[..n], id, now), tail);
      if e.outcome.Inconclusive() {
        assert Part(half, good, now, e) == 0.0;
        assert Conclusive(log) == Conclusive(log[..n]);
      } else {
        var c := Conclusive(log[..n]);
        assert (c + [e])[..|c|] == c;
        WeightAppend(half, good, now, RecentEvents(c, id, now), tail);
      }
    }
  }

  /** Deleting every inconclusive event leaves the evidence of an open window unchanged. */
  lemma EvidenceIgnoresNoise(half: real -> real, log: Log, id: NodeId, now: int)
    requires |RecentEvents(log, id, now)| <= MAX_EVENTS
    ensures Alpha(half, WindowEvents(log, id, now), now) == Alpha(half, WindowEvents(Conclusive(log), id, now), now)
    ensures Beta(half, WindowEvents(log, id, now), now) == Beta(half, WindowEvents(Conclusive(log), id, now), now)
  {
    ConclusiveWeight(half, true, log, id, now);
    ConclusiveWeight(half, false, log, id, now);
    OpenWindow(log, id, now);
    OpenWindow(Conclusive(log), id, now);
  }
}
