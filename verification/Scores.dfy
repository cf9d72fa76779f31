/** What a recorded observation does to the score of its node: failures count against it, successes for it,
    and by how much. */
module Scores {
  import opened Domain
  import opened Sets
  import opened Ranking
  import opened Evidence

  /** The score of the node at time `now`, as a probe at that time would store it. */
  function ScoreAt(half: real -> real, log: Log, id: NodeId, now: int): real {
    Score(AlphaAt(half, log, id, now), BetaAt(half, log, id, now))
  }

  function AlphaAt(half: real -> real, log: Log, id: NodeId, now: int): real {
    Alpha(half, WindowEvents(log, id, now), now)
  }

  function BetaAt(half: real -> real, log: Log, id: NodeId, now: int): real {
    Beta(half, WindowEvents(log, id, now), now)
  }

  /** No more than 512 events of the node in the last 30 days. */
  predicate OpenAt(log: Log, id: NodeId, now: int) {
    |set i: nat | i < |log| && log[i].id == id && log[i].at >= now - 30 * DAY| <= 512
  }

  lemma OpenIsOpen(log: Log, id: NodeId, now: int)
    requires OpenAt(log, id, now)
    ensures WindowEvents(log, id, now) == RecentEvents(log, id, now)
  {
    assert (set i: nat | i < |log| && log[i].id == id && log[i].at >= now - 30 * DAY) == Recents(log, id, now);
    RecentsSize(log, id, now);
    OpenWindow(log, id, now);
  }

  lemma OpenBefore(log: Log, e: TestEvent, id: NodeId, now: int)
    requires OpenAt(log + [e], id, now)
    ensures OpenAt(log, id, now)
  {
    var more := log + [e];
    assert forall i: nat :: i < |log| ==> more[i] == log[i];
    SubsetSize(set i: nat | i < |log| && log[i].id == id && log[i].at >= now - 30 * DAY,
               set i: nat | i < |more| && more[i].id == id && more[i].at >= now - 30 * DAY);
  }

  /** In an open window one more recent event adds its own weight. */
  lemma WeightOfOneMore(half: real -> real, good: bool, log: Log, e: TestEvent, now: int)
    requires OpenAt(log + [e], e.id, now)
    ensures Weight(half, good, now, WindowEvents(log + [e], e.id, now))
         == Weight(half, good, now, WindowEvents(log, e.id, now))
            + (if e.at >= now - 30 * DAY then Part(half, good, now, e) else 0.0)
  {
    OpenBefore(log, e, e.id, now);
    OpenIsOpen(log, e.id, now);
    OpenIsOpen(log + [e], e.id, now);
    assert (log + [e])[..|log|] == log;
    var tail := if Recent(e, e.id, now) then [e] else [];
    hide Part;
    WeightAppend(half, good, now, RecentEvents(log, e.id, now), tail);
    WeightSingle(half, good, now, e);
  }

  lemma RatioMoves(a: real, b: real, a': real, b': real)
    requires a >= 1.0 && b >= 1.0 && a' >= 1.0 && b' >= 1.0 && a' <= a && b <= b'
    ensures Score(a', b') <= Score(a, b)
    ensures a' < a || b < b' ==> Score(a', b') < Score(a, b)
    ensures Score(a, b) == a / (a + b)
  {
    var r, r' := a / (a + b), a' / (a' + b');
    assert r * (a + b) == a && r' * (a' + b') == a';
    assert a' * b <= a * b';
    if a' < a || b < b' {
      CrossLess(a, b, a', b');
    }
    CrossRatio(a, b, a', b', r, r');
    InUnit(a, b);
    InUnit(a', b');
  }

  lemma CrossLess(a: real, b: real, a': real, b': real)
    requires a >= 1.0 && b >= 1.0 && a' >= 1.0 && b' >= 1.0 && a' <= a && b <= b' && (a' < a || b < b')
    ensures a' * b < a * b'
  {
    if a' < a {
      assert a' * b < a * b;
      assert a * b <= a * b';
    } else {
      assert a * b < a * b';
    }
  }

  lemma CrossRatio(a: real, b: real, a': real, b': real, r: real, r': real)
    requires a >= 1.0 && b >= 1.0 && a' >= 1.0 && b' >= 1.0
    requires r * (a + b) == a && r' * (a' + b') == a'
    ensures a' * b <= a * b' ==> r' <= r
    ensures a' * b < a * b' ==> r' < r
  {
    var s, s' := a + b, a' + b';
    assert (r - r') * (s * s') == a * s' - a' * s by {
      assert r * (s * s') == (r * s) * s';
      assert r' * (s * s') == (r' * s') * s;
    }
    assert a * s' - a' * s == a * b' - a' * b;
    assert s * s' > 0.0;
    if r' > r {
      assert (r - r') * (s * s') < 0.0;
    }
    if r' == r {
      assert (r - r') * (s * s') == 0.0;
    }
  }

  lemma InUnit(a: real, b: real)
    requires a >= 1.0 && b >= 1.0
    ensures Score(a, b) == a / (a + b)
  {
    var r := a / (a + b);
    assert r * (a + b) == a;
    assert r < 0.0 ==> r * (a + b) < 0.0;
    assert r > 1.0 ==> (r - 1.0) * (a + b) > 0.0;
  }

  // ---- Which observations count, and which way ----

  /** A conclusive failure; a slow download is one only where a download was tried. */
  predicate CountsAgainst(e: TestEvent) {
    && e.outcome != Success && e.outcome != LocalOverload && e.outcome != EndpointFailure
    && (e.outcome == DownloadTooSlow ==> e.stage == Download)
  }

  predicate CountsFor(e: TestEvent) {
    e.outcome == Success && (e.stage == Relay || e.stage == Http || e.stage == Download)
  }

  lemma DecayPositive(half: real -> real, value: real, elapsed: int, halfLife: int)
    requires HalvingLaw(half) && value > 0.0
    ensures Decay(half, value, elapsed, halfLife) > 0.0
  {
    if elapsed > 0 {
      ShareLeft(half, elapsed, halfLife);
      hide Age, HalvingLaw;
      assert value * half(Age(elapsed, halfLife)) > 0.0;
    }
  }

  lemma PartSigns(half: real -> real, e: TestEvent, now: int)
    requires HalvingLaw(half)
    ensures e.outcome != Success ==> Part(half, true, now, e) == 0.0
    ensures e.outcome == Success || e.outcome == LocalOverload || e.outcome == EndpointFailure ==>
              Part(half, false, now, e) == 0.0
    ensures Part(half, false, now, e) >= 0.0 && Part(half, true, now, e) >= 0.0
    ensures CountsAgainst(e) ==> Part(half, false, now, e) > 0.0
    ensures CountsFor(e) ==> Part(half, true, now, e) > 0.0
  {
    var d := Delta(e.stage, e.outcome, e.fast);
    PartNonNegative(half, true, now, e);
    PartNonNegative(half, false, now, e);
    if CountsAgainst(e) {
      DecayPositive(half, d.beta, now - e.at, d.halfLife);
    }
    if CountsFor(e) {
      DecayPositive(half, d.alpha, now - e.at, d.halfLife);
    }
  }

  lemma ScoreFromWeights(half: real -> real, log: Log, id: NodeId, now: int)
    requires HalvingLaw(half)
    ensures 1.0 <= AlphaAt(half, log, id, now) <= 24.0 && 1.0 <= BetaAt(half, log, id, now) <= 64.0
  {
    ScoreBounds(half, WindowEvents(log, id, now), now);
  }

  /** Recording a conclusive failure never raises the score, and lowers it when the failure counts,
      is at most 30 days old and the failure evidence has not reached its cap. */
  lemma FailureLowersScore(half: real -> real, log: Log, e: TestEvent, now: int)
    requires HalvingLaw(half) && OpenAt(log + [e], e.id, now)
    requires e.outcome != Success
    ensures ScoreAt(half, log + [e], e.id, now) <= ScoreAt(half, log, e.id, now)
    ensures CountsAgainst(e) && e.at >= now - 30 * DAY && BetaAt(half, log, e.id, now) < 64.0 ==>
              ScoreAt(half, log + [e], e.id, now) < ScoreAt(half, log, e.id, now)
  {
    hide WindowEvents, Weight, Part, Score, OpenAt;
    WeightOfOneMore(half, true, log, e, now);
    WeightOfOneMore(half, false, log, e, now);
    PartSigns(half, e, now);
    ScoreFromWeights(half, log, e.id, now);
    ScoreFromWeights(half, log + [e], e.id, now);
    RatioMoves(AlphaAt(half, log, e.id, now), BetaAt(half, log, e.id, now),
               AlphaAt(half, log + [e], e.id, now), BetaAt(half, log + [e], e.id, now));
  }

  /** Recording a success never lowers the score, and raises it when the success counts, is at most
      30 days old and the success evidence has not reached its cap. */
  lemma SuccessRaisesScore(half: real -> real, log: Log, e: TestEvent, now: int)
    requires HalvingLaw(half) && OpenAt(log + [e], e.id, now)
    requires e.outcome == Success
    ensures ScoreAt(half, log + [e], e.id, now) >= ScoreAt(half, log, e.id, now)
    ensures CountsFor(e) && e.at >= now - 30 * DAY && AlphaAt(half, log, e.id, now) < 24.0 ==>
              ScoreAt(half, log + [e], e.id, now) > ScoreAt(half, log, e.id, now)
  {
    hide WindowEvents, Weight, Part, Score, OpenAt;
    WeightOfOneMore(half, true, log, e, now);
    WeightOfOneMore(half, false, log, e, now);
    PartSigns(half, e, now);
    ScoreFromWeights(half, log, e.id, now);
    ScoreFromWeights(half, log + [e], e.id, now);
    RatioMoves(AlphaAt(half, log + [e], e.id, now), BetaAt(half, log + [e], e.id, now),
               AlphaAt(half, log, e.id, now), BetaAt(half, log, e.id, now));
  }

  /** What is more than 30 days old does not count. */
  lemma OldEventsDoNotCount(half: real -> real, log: Log, e: TestEvent, now: int)
    requires OpenAt(log + [e], e.id, now) && e.at < now - 30 * DAY
    ensures ScoreAt(half, log + [e], e.id, now) == ScoreAt(half, log, e.id, now)
  {
    hide WindowEvents, Weight, Part, Score, OpenAt;
    WeightOfOneMore(half, true, log, e, now);
    WeightOfOneMore(half, false, log, e, now);
  }

  // ---- Which of two observations counts more ----

  /** Failures by how hard they count: a handshake timeout least, a structural error most. */
  function Severity(stage: TestStage, outcome: FailureClass): nat {
    match outcome
    case TlsTimeout => 1
    case TcpTimeout => 2
    case DnsFailure => 2
    case RelayTimeout => 2
    case DownloadTimeout => 2
    case XrayStartFailed => 3
    case HttpFailure => 3
    case ConnectionRefused => 4
    case DownloadTooSlow => if stage == Download then 5 else 0
    case InvalidConfig => 6
    case _ => 0
  }

  /** Successes by how far the test went. */
  function Credit(stage: TestStage, fast: bool): nat {
    match stage
    case Relay => 1
    case Http => 2
    case Download => if fast then 4 else 3
    case _ => 0
  }

  lemma DecayMonotone(half: real -> real, v: real, w: real, elapsed: int, h: int, g: int)
    requires HalvingLaw(half) && 0.0 <= v <= w && 1 < h <= g
    ensures Decay(half, v, elapsed, h) <= Decay(half, w, elapsed, g)
    ensures elapsed <= 0 && v < w ==> Decay(half, v, elapsed, h) < Decay(half, w, elapsed, g)
  {
    DecayBounds(half, w, elapsed, g);
    if elapsed > 0 && v > 0.0 {
      var r, q := half(Age(elapsed, h)), half(Age(elapsed, g));
      assert Decay(half, v, elapsed, h) == v * r && Decay(half, w, elapsed, g) == w * q;
      assert 0.0 < r <= q by {
        QuotientFalls(elapsed as real, h as real, g as real);
      }
      hide Decay, Age, HalvingLaw;
      Products(v, w, r, q);
    }
  }

  lemma Products(v: real, w: real, x: real, y: real)
    requires 0.0 <= v <= w && 0.0 < x <= y
    ensures v * x <= w * y
  {
    assert v * x <= v * y;
    assert v * y <= w * y;
  }

  lemma QuotientFalls(x: real, h: real, g: real)
    requires x > 0.0 && 0.0 < h <= g
    ensures 0.0 <= x / g <= x / h
  {
    var r, q := x / h, x / g;
    assert r * h == x && q * g == x;
    assert q > r ==> q * g > r * g && r * g >= r * h;
    assert q < 0.0 ==> q * g < 0.0;
  }

  lemma SeverityOrdersWeights(mild: TestEvent, grave: TestEvent)
    requires mild.outcome != Success && grave.outcome != Success
    requires Severity(mild.stage, mild.outcome) <= Severity(grave.stage, grave.outcome)
    ensures var d, g := Delta(mild.stage, mild.outcome, mild.fast), Delta(grave.stage, grave.outcome, grave.fast);
      && 0.0 <= d.beta <= g.beta && 1 < d.halfLife <= g.halfLife
      && (Severity(mild.stage, mild.outcome) < Severity(grave.stage, grave.outcome) ==>
            d.beta < g.beta || (Severity(mild.stage, mild.outcome) == 2 && Severity(grave.stage, grave.outcome) == 3))
  {
  }

  /** Of two failures of one time, the graver leaves the lower score, now and at every later time; strictly
      so at once if it carries more weight and the cap is not reached. */
  lemma GraverFailureCountsMore(half: real -> real, log: Log, mild: TestEvent, grave: TestEvent, now: int)
    requires HalvingLaw(half) && mild.id == grave.id && mild.at == grave.at <= now
    requires OpenAt(log + [mild], mild.id, now) && OpenAt(log + [grave], mild.id, now)
    requires mild.outcome != Success && grave.outcome != Success
    requires Severity(mild.stage, mild.outcome) <= Severity(grave.stage, grave.outcome)
    ensures ScoreAt(half, log + [grave], mild.id, now) <= ScoreAt(half, log + [mild], mild.id, now)
    ensures Severity(mild.stage, mild.outcome) < Severity(grave.stage, grave.outcome) && mild.at == now
            && !(Severity(mild.stage, mild.outcome) == 2 && Severity(grave.stage, grave.outcome) == 3)
            && BetaAt(half, log + [mild], mild.id, now) < 64.0 ==>
              ScoreAt(half, log + [grave], mild.id, now) < ScoreAt(half, log + [mild], mild.id, now)
  {
    var d, g := Delta(mild.stage, mild.outcome, mild.fast), Delta(grave.stage, grave.outcome, grave.fast);
    SeverityOrdersWeights(mild, grave);
    hide Severity, Delta;
    DecayMonotone(half, d.beta, g.beta, now - mild.at, d.halfLife, g.halfLife);
    PartSigns(half, mild, now);
    PartSigns(half, grave, now);
    assert Part(half, false, now, mild) <= Part(half, false, now, grave);
    hide WindowEvents, Weight, Part, Score, OpenAt, Severity, Decay, Delta;
    WeightOfOneMore(half, true, log, mild, now);
    WeightOfOneMore(half, false, log, mild, now);
    WeightOfOneMore(half, true, log, grave, now);
    WeightOfOneMore(half, false, log, grave, now);
    ScoreFromWeights(half, log + [mild], mild.id, now);
    ScoreFromWeights(half, log + [grave], mild.id, now);
    RatioMoves(AlphaAt(half, log + [mild], mild.id, now), BetaAt(half, log + [mild], mild.id, now),
               AlphaAt(half, log + [grave], mild.id, now), BetaAt(half, log + [grave], mild.id, now));
  }

  /** Of two successes of one time, the one that went further leaves the higher score, now and at every
      later time; strictly so at once if the cap is not reached. */
  lemma FurtherSuccessCountsMore(half: real -> real, log: Log, near: TestEvent, far: TestEvent, now: int)
    requires HalvingLaw(half) && near.id == far.id && near.at == far.at <= now
    requires OpenAt(log + [near], near.id, now) && OpenAt(log + [far], near.id, now)
    requires near.outcome == Success && far.outcome == Success
    requires Credit(near.stage, near.fast) <= Credit(far.stage, far.fast)
    ensures ScoreAt(half, log + [near], near.id, now) <= ScoreAt(half, log + [far], near.id, now)
    ensures Credit(near.stage, near.fast) < Credit(far.stage, far.fast) && near.at == now
            && AlphaAt(half, log + [near], near.id, now) < 24.0 ==>
              ScoreAt(half, log + [near], near.id, now) < ScoreAt(half, log + [far], near.id, now)
  {
    var d, g := Delta(near.stage, near.outcome, near.fast), Delta(far.stage, far.outcome, far.fast);
    DecayMonotone(half, d.alpha, g.alpha, now - near.at, d.halfLife, g.halfLife);
    PartSigns(half, near, now);
    PartSigns(half, far, now);
    assert Part(half, true, now, near) <= Part(half, true, now, far);
    hide WindowEvents, Weight, Part, Score, OpenAt, Credit, Decay, Delta;
    WeightOfOneMore(half, true, log, near, now);
    WeightOfOneMore(half, false, log, near, now);
    WeightOfOneMore(half, true, log, far, now);
    WeightOfOneMore(half, false, log, far, now);
    ScoreFromWeights(half, log + [near], near.id, now);
    ScoreFromWeights(half, log + [far], near.id, now);
    RatioMoves(AlphaAt(half, log + [far], near.id, now), BetaAt(half, log + [far], near.id, now),
               AlphaAt(half, log + [near], near.id, now), BetaAt(half, log + [near], near.id, now));
  }

  // ---- The exact weights, read off the scores ----

  lemma WindowOfOne(e: TestEvent, now: int)
    requires e.at >= now - 30 * DAY
    ensures WindowEvents([e], e.id, now) == [e]
  {
    assert Recents([e], e.id, now) == {0};
    assert LaterRecents([e], e.id, now, 0) == {};
    assert 0 in Window([e], e.id, now);
    var w := Window([e], e.id, now);
    assert [e][..0] == [] && Pick([], w) == [];
    assert Pick([e], w) == Pick([e][..0], w) + [e];
  }

  lemma ScoreOfOne(half: real -> real, e: TestEvent, now: int)
    requires HalvingLaw(half) && e.at >= now - 30 * DAY
    ensures var a, b := 1.0 + Part(half, true, now, e), 1.0 + Part(half, false, now, e);
      a <= 24.0 && b <= 64.0 ==> ScoreAt(half, [e], e.id, now) == a / (a + b)
  {
    hide WindowEvents, Part, Score;
    WindowOfOne(e, now);
    WeightSingle(half, true, now, e);
    WeightSingle(half, false, now, e);
    PartNonNegative(half, true, now, e);
    PartNonNegative(half, false, now, e);
    var a, b := 1.0 + Part(half, true, now, e), 1.0 + Part(half, false, now, e);
    InUnit(a, b);
  }

  /** The score of a node right after its first observation. */
  function FirstScore(e: TestEvent): real {
    match e.outcome
    case Success =>
      (match e.stage
       case Download => if e.fast then 9.0 / 10.0 else 6.0 / 7.0
       case Http => 4.0 / 5.0
       case Relay => 2.0 / 3.0
       case _ => 1.0 / 2.0)
    case TlsTimeout => 2.0 / 5.0
    case TcpTimeout => 1.0 / 3.0
    case DnsFailure => 1.0 / 3.0
    case RelayTimeout => 1.0 / 3.0
    case DownloadTimeout => 1.0 / 3.0
    case XrayStartFailed => 1.0 / 3.0
    case HttpFailure => 1.0 / 3.0
    case ConnectionRefused => 1.0 / 4.0
    case DownloadTooSlow => if e.stage == Download then 1.0 / 5.0 else 1.0 / 2.0
    case InvalidConfig => 1.0 / 10.0
    case _ => 1.0 / 2.0
  }

  /** The hours after which an observation counts half. */
  function HalvedAfter(e: TestEvent): int {
    match e.outcome
    case Success => (match e.stage case Download => 24 case Http => 6 case Relay => 6 case _ => 2)
    case ConnectionRefused => 12
    case DownloadTooSlow => if e.stage == Download then 12 else 2
    case XrayStartFailed => 12
    case HttpFailure => 12
    case InvalidConfig => 12
    case _ => 2
  }

  /** The score of the same node when the observation counts half. */
  function HalvedScore(e: TestEvent): real {
    match e.outcome
    case Success =>
      (match e.stage
       case Download => if e.fast then 5.0 / 6.0 else 7.0 / 9.0
       case Http => 5.0 / 7.0
       case Relay => 3.0 / 5.0
       case _ => 1.0 / 2.0)
    case TlsTimeout => 4.0 / 9.0
    case TcpTimeout => 2.0 / 5.0
    case DnsFailure => 2.0 / 5.0
    case RelayTimeout => 2.0 / 5.0
    case DownloadTimeout => 2.0 / 5.0
    case XrayStartFailed => 2.0 / 5.0
    case HttpFailure => 2.0 / 5.0
    case ConnectionRefused => 1.0 / 3.0
    case DownloadTooSlow => if e.stage == Download then 2.0 / 7.0 else 1.0 / 2.0
    case InvalidConfig => 1.0 / 6.0
    case _ => 1.0 / 2.0
  }

  lemma FreshPart(half: real -> real, e: TestEvent)
    ensures var d := Delta(e.stage, e.outcome, e.fast);
      Part(half, true, e.at, e) == d.alpha && Part(half, false, e.at, e) == d.beta
  {
  }

  /** A first observation moves a new node to exactly this score. */
  lemma FirstObservation(half: real -> real, e: TestEvent)
    requires HalvingLaw(half)
    ensures ScoreAt(half, [e], e.id, e.at) == FirstScore(e)
  {
    FreshPart(half, e);
    hide ScoreAt, Part;
    ScoreOfOne(half, e, e.at);
  }

  lemma HalvedPart(half: real -> real, e: TestEvent)
    requires HalvingLaw(half)
    ensures var d, now := Delta(e.stage, e.outcome, e.fast), e.at + HalvedAfter(e) * HOUR;
      Part(half, true, now, e) == d.alpha / 2.0 && Part(half, false, now, e) == d.beta / 2.0
  {
    var d, now := Delta(e.stage, e.outcome, e.fast), e.at + HalvedAfter(e) * HOUR;
    assert d.halfLife == HalvedAfter(e) * HOUR && d.halfLife > 1;
    assert 0.0 <= d.alpha && 0.0 <= d.beta;
    hide Delta, HalvedAfter;
    assert (now - e.at) as real / d.halfLife as real == 1.0;
  }

  lemma HalvedTable(e: TestEvent)
    ensures var d := Delta(e.stage, e.outcome, e.fast);
      var a, b := 1.0 + d.alpha / 2.0, 1.0 + d.beta / 2.0;
      1.0 <= a <= 24.0 && 1.0 <= b <= 64.0 && a / (a + b) == HalvedScore(e)
  {
  }

  /** And after its half-life to exactly this one. */
  lemma FirstObservationHalved(half: real -> real, e: TestEvent)
    requires HalvingLaw(half)
    ensures ScoreAt(half, [e], e.id, e.at + HalvedAfter(e) * HOUR) == HalvedScore(e)
  {
    hide ScoreAt, Part, Delta, HalvedScore;
    HalvedPart(half, e);
    HalvedTable(e);
    ScoreOfOne(half, e, e.at + HalvedAfter(e) * HOUR);
  }

  // ---- Enough fresh failures ----

  /** How many failures of one class sink any score. */
  function SinkingNumber(stage: TestStage, outcome: FailureClass): nat {
    match outcome
    case InvalidConfig => 6
    case ConnectionRefused => 22
    case DownloadTooSlow => if stage == Download then 15 else 0
    case TlsTimeout => 88
    case Success => 0
    case LocalOverload => 0
    case EndpointFailure => 0
    case _ => 44
  }

  /** `fs` are observations of the node at this moment, all alike. */
  ghost predicate FreshAndAlike(fs: Log, id: NodeId, stage: TestStage, outcome: FailureClass, now: int) {
    forall i :: 0 <= i < |fs| ==> fs[i].id == id && fs[i].at == now && fs[i].stage == stage && fs[i].outcome == outcome
  }

  lemma SinkingWeight(stage: TestStage, outcome: FailureClass)
    requires SinkingNumber(stage, outcome) > 0
    ensures SinkingNumber(stage, outcome) as real * Delta(stage, outcome, false).beta >= 44.0
    ensures SinkingNumber(stage, outcome) <= 88
  {
  }

  lemma NoSuccessSinks(stage: TestStage)
    ensures SinkingNumber(stage, Success) == 0
  {
  }

  predicate NotBefore(i: nat, n: nat) {
    i >= n
  }

  /** The last `m` of `n + m` positions. */
  function TailIndices(n: nat, m: nat): set<nat> {
    set i: nat | i < n + m && NotBefore(i, n)
  }

  lemma {:induction false} PickTail(log: Log, fs: Log)
    ensures Pick(log + fs, TailIndices(|log|, |fs|)) == fs
    decreases |fs|
  {
    if |fs| == 0 {
      assert log + fs == log;
      PickNothing(log, TailIndices(|log|, 0));
    } else {
      var n := |fs| - 1;
      PickTail(log, fs[..n]);
      assert (log + fs)[..|log + fs| - 1] == log + fs[..n];
      PickAgrees(log + fs[..n], TailIndices(|log|, |fs|), TailIndices(|log|, n));
    }
  }

  lemma {:induction false} PickNothing(log: Log, w: set<nat>)
    requires forall i: nat :: i < |log| ==> i !in w
    ensures Pick(log, w) == []
  {
    if |log| > 0 {
      PickNothing(log[..|log| - 1], w);
    }
  }

  lemma {:induction false} PickAgrees(log: Log, w: set<nat>, v: set<nat>)
    requires forall i: nat :: i < |log| ==> (i in w <==> i in v)
    ensures Pick(log, w) == Pick(log, v)
  {
    if |log| > 0 {
      PickAgrees(log[..|log| - 1], w, v);
    }
  }

  /** The observations of this moment are in the window, however full it is. */
  lemma FreshInWindow(log: Log, fs: Log, id: NodeId, stage: TestStage, outcome: FailureClass, now: int, i: nat)
    requires FreshAndAlike(fs, id, stage, outcome, now) && |fs| <= 512 && i in TailIndices(|log|, |fs|)
    requires forall k :: 0 <= k < |log| ==> log[k].at <= now
    ensures i in Window(log + fs, id, now)
  {
    var all := log + fs;
    assert all[i] == fs[i - |log|];
    assert forall j: nat :: j < |log| ==> all[j] == log[j];
    assert forall j :: j in LaterRecents(all, id, now, i) ==> j in TailIndices(|log|, |fs|) - {i};
    TailSize(|log|, |fs|);
    SubsetSize(LaterRecents(all, id, now, i), TailIndices(|log|, |fs|) - {i});
  }

  lemma {:induction false} TailSize(n: nat, m: nat)
    ensures |TailIndices(n, m)| == m
  {
    if m > 0 {
      TailSize(n, m - 1);
      assert TailIndices(n, m) == TailIndices(n, m - 1) + {n + m - 1};
    } else {
      assert TailIndices(n, 0) == {};
    }
  }

  /** Speed matters for successes only. */
  lemma SpeedOfFailure(stage: TestStage, outcome: FailureClass, fast: bool, slow: bool)
    requires outcome != Success
    ensures Delta(stage, outcome, fast) == Delta(stage, outcome, slow)
  {
  }

  lemma {:induction false} FreshWeight(half: real -> real, good: bool, fs: Log, id: NodeId, stage: TestStage,
                                       outcome: FailureClass, fast: bool, now: int)
    requires FreshAndAlike(fs, id, stage, outcome, now)
    requires outcome == Success ==> forall i :: 0 <= i < |fs| ==> fs[i].fast == fast
    ensures var d := Delta(stage, outcome, fast);
      Weight(half, good, now, fs) == |fs| as real * (if good then d.alpha else d.beta)
  {
    hide Delta;
    if |fs| == 0 {
      WeightSingle(half, good, now, TestEvent(id, "", stage, outcome, fast, now));
    } else {
      assert fs == [fs[0]] + fs[1..];
      FreshWeight(half, good, fs[1..], id, stage, outcome, fast, now);
      WeightSingle(half, good, now, fs[0]);
      WeightAppend(half, good, now, [fs[0]], fs[1..]);
      FreshPart(half, fs[0]);
      if outcome != Success {
        SpeedOfFailure(stage, outcome, fs[0].fast, fast);
      }
      var d := Delta(stage, outcome, fast);
      var x := if good then d.alpha else d.beta;
      assert |fs| as real == |fs[1..]| as real + 1.0;
      assert (|fs[1..]| as real + 1.0) * x == |fs[1..]| as real * x + x;
    }
  }

  /** That many fresh failures of one class bring the score under 0.35, whatever succeeded before. */
  lemma FreshFailuresSinkScore(half: real -> real, log: Log, fs: Log, id: NodeId, stage: TestStage,
                               outcome: FailureClass, now: int)
    requires HalvingLaw(half) && FreshAndAlike(fs, id, stage, outcome, now)
    requires |fs| == SinkingNumber(stage, outcome) > 0
    requires forall k :: 0 <= k < |log| ==> log[k].at <= now
    ensures ScoreAt(half, log + fs, id, now) < 0.35
  {
    hide Delta, SinkingNumber, Pick, Window, Weight, Score;
    SinkingWeight(stage, outcome);
    NoSuccessSinks(stage);
    var all, tail := log + fs, TailIndices(|log|, |fs|);
    forall i: nat | i < |all| && i in tail
      ensures i in Window(all, id, now)
    {
      FreshInWindow(log, fs, id, stage, outcome, now, i);
    }
    PickTail(log, fs);
    FreshWeight(half, false, fs, id, stage, outcome, false, now);
    WeightMonotone(half, false, now, all, tail, Window(all, id, now));
    FailureWeightForcesLowScore(half, WindowEvents(all, id, now), now);
  }

  // ---- The window and the caps ----

  function LaterFirst(log: Log): (nat, nat) -> bool {
    (i: nat, j: nat) => i < |log| && j < |log| && Later(log, i, j)
  }

  lemma WindowIsTop(log: Log, id: NodeId, now: int) returns (top: seq<nat>)
    ensures TopOf(Recents(log, id, now), LaterFirst(log), top) && Window(log, id, now) == Elements(top)
    ensures |Window(log, id, now)| == Min(512, |Recents(log, id, now)|)
  {
    var rows := Recents(log, id, now);
    assert StrictTotal(rows, LaterFirst(log));
    top := TopK(rows, LaterFirst(log), 512);
    TopKSpec(rows, LaterFirst(log), 512);
    DistinctElements(top);
    hide TopOf, StrictTotal;
    forall i | i in rows
      ensures i in Window(log, id, now) <==> i in top
    {
      InWindowIffTop(log, id, now, top, i);
    }
    assert Elements(top) <= rows by {
      TopIsOfRows(rows, LaterFirst(log), top);
    }
    assert Window(log, id, now) == Elements(top);
  }

  lemma TopIsOfRows(rows: set<nat>, before: (nat, nat) -> bool, top: seq<nat>)
    requires TopOf(rows, before, top)
    ensures Elements(top) <= rows
  {
  }

  /** The window holds the newest 512 of the node's events of the last 30 days, or all of them. */
  lemma WindowHoldsNewest(log: Log, id: NodeId, now: int)
    ensures Window(log, id, now) <= Recents(log, id, now)
    ensures |Window(log, id, now)| == Min(512, |Recents(log, id, now)|)
    ensures forall i, j :: i in Window(log, id, now) && j in Recents(log, id, now) - Window(log, id, now) ==>
              Later(log, i, j)
  {
    var top := WindowIsTop(log, id, now);
    hide Window, Recents;
  }

  lemma InWindowIffTop(log: Log, id: NodeId, now: int, top: seq<nat>, i: nat)
    requires var rows := Recents(log, id, now);
      i in rows && TopOf(rows, LaterFirst(log), top) && |top| == Min(512, |rows|)
    ensures i in Window(log, id, now) <==> i in top
  {
    var rows, later := Recents(log, id, now), LaterRecents(log, id, now, i);
    DistinctElements(top);
    if i in top {
      forall j | j in later
        ensures j in Elements(top) - {i}
      {
        assert j in rows;
      }
      SubsetSize(later, Elements(top) - {i});
    } else {
      assert Elements(top) <= later;
      SubsetSize(Elements(top), later);
      assert Elements(top) <= rows - {i};
      SubsetSize(Elements(top), rows - {i});
    }
  }

  /** The caps are reached: three fast downloads or eight structural errors at once. */
  lemma CapsAreReached(half: real -> real, fs: Log, id: NodeId, now: int)
    requires HalvingLaw(half) && forall i :: 0 <= i < |fs| ==> fs[i].fast
    ensures FreshAndAlike(fs, id, Download, Success, now) && |fs| == 3 ==> ScoreAt(half, fs, id, now) == 24.0 / 25.0
    ensures FreshAndAlike(fs, id, Download, InvalidConfig, now) && |fs| == 8 ==>
              ScoreAt(half, fs, id, now) == 1.0 / 65.0
  {
    hide Weight, Window, Pick;
    if FreshAndAlike(fs, id, Download, Success, now) && |fs| == 3 {
      FreshWindow(fs, id, Download, Success, now);
      FreshWeight(half, true, fs, id, Download, Success, true, now);
      FreshWeight(half, false, fs, id, Download, Success, true, now);
    }
    if FreshAndAlike(fs, id, Download, InvalidConfig, now) && |fs| == 8 {
      FreshWindow(fs, id, Download, InvalidConfig, now);
      FreshWeight(half, true, fs, id, Download, InvalidConfig, true, now);
      FreshWeight(half, false, fs, id, Download, InvalidConfig, true, now);
    }
  }

  lemma FreshWindow(fs: Log, id: NodeId, stage: TestStage, outcome: FailureClass, now: int)
    requires FreshAndAlike(fs, id, stage, outcome, now) && |fs| <= 512
    ensures WindowEvents(fs, id, now) == fs
  {
    forall i: nat | i < |fs|
      ensures i in Window(fs, id, now)
    {
      assert [] + fs == fs;
      FreshInWindow([], fs, id, stage, outcome, now, i);
    }
    PickAgrees(fs, Window(fs, id, now), TailIndices(0, |fs|));
    PickTail([], fs);
    assert [] + fs == fs;
  }
}
