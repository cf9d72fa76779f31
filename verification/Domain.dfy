/** Vocabulary shared by every component: lifecycle states, failure classes,
    probe stages, and the evidence arithmetic attached to them.

    Time is an integer number of milliseconds; floating point is `real`. */
module Domain {
  datatype Option<+T> = None | Some(value: T) {
    function GetOr(default: T): T {
      match this
      case Some(v) => v
      case None => default
    }
  }

  const SECOND: int := 1000
  const MINUTE: int := 60 * SECOND
  const HOUR: int := 60 * MINUTE
  const DAY: int := 24 * HOUR
  const U32_MAX: nat := 0xFFFF_FFFF

  type NodeId = nat
  type Hash = string
  type Source = string
  type RunId = string

  datatype LifecycleState =
    Candidate | Testing | Active | Probation | Dormant | Invalid | Retired | WaitingForPort
  {
    /** One of the four states the scheduler has a queue for. */
    predicate Queue() {
      Candidate? || Probation? || Dormant? || Active?
    }

    predicate Publishable() {
      !Invalid? && !Retired?
    }
  }

  datatype TestStage = Static | DnsTcp | Relay | Http | Download

  datatype FailureClass =
    | InvalidConfig | XrayStartFailed | DnsFailure | TcpTimeout | ConnectionRefused
    | TlsTimeout | RelayTimeout | HttpFailure | DownloadTimeout | DownloadTooSlow
    | LocalOverload | EndpointFailure | Success
  {
    predicate Inconclusive() {
      LocalOverload? || EndpointFailure?
    }

    /** A conclusive observation that is not a success. */
    predicate Failed() {
      !Inconclusive() && !Success?
    }
  }

  datatype EvidenceDelta = EvidenceDelta(alpha: real, beta: real, halfLife: int)

  function Delta(stage: TestStage, outcome: FailureClass, fast: bool): EvidenceDelta {
    if outcome.Inconclusive() then EvidenceDelta(0.0, 0.0, 2 * HOUR)
    else if outcome.InvalidConfig? then EvidenceDelta(0.0, 8.0, 12 * HOUR)
    else if stage.Download? && outcome.Success? then EvidenceDelta(if fast then 8.0 else 5.0, 0.0, 24 * HOUR)
    else if stage.Http? && outcome.Success? then EvidenceDelta(3.0, 0.0, 6 * HOUR)
    else if stage.Relay? && outcome.Success? then EvidenceDelta(1.0, 0.0, 6 * HOUR)
    else if outcome.TlsTimeout? then EvidenceDelta(0.0, 0.5, 2 * HOUR)
    else if outcome.TcpTimeout? || outcome.DnsFailure? || outcome.RelayTimeout? || outcome.DownloadTimeout? then
      EvidenceDelta(0.0, 1.0, 2 * HOUR)
    else if outcome.ConnectionRefused? then EvidenceDelta(0.0, 2.0, 12 * HOUR)
    else if stage.Download? && outcome.DownloadTooSlow? then EvidenceDelta(0.0, 3.0, 12 * HOUR)
    else if outcome.XrayStartFailed? || outcome.HttpFailure? then EvidenceDelta(0.0, 1.0, 12 * HOUR)
    else EvidenceDelta(0.0, 0.0, 2 * HOUR)
  }

  /** How long a success at `stage` keeps a node in the public feed. */
  function LeaseDuration(stage: TestStage, fast: bool): int {
    match stage
    case Download => if fast then 12 * HOUR else 6 * HOUR
    case Http => 2 * HOUR
    case Relay => 30 * MINUTE
    case _ => 0
  }

  /** The laws of `x => 0.5^x` that the evidence model relies on. */
  ghost predicate HalvingLaw(half: real -> real) {
    && half(0.0) == 1.0 && half(1.0) == 0.5
    && (forall x :: x >= 0.0 ==> 0.0 < half(x) <= 1.0)
    && (forall x, y :: 0.0 <= x <= y ==> half(y) <= half(x))
  }

  /** The age of an observation in half-lives. */
  function Age(elapsed: int, halfLife: int): real {
    elapsed as real / (if halfLife > 1 then halfLife else 1) as real
  }

  function Decay(half: real -> real, value: real, elapsed: int, halfLife: int): real {
    if value <= 0.0 || elapsed <= 0 then (if value > 0.0 then value else 0.0)
    else value * half(Age(elapsed, halfLife))
  }

  lemma AgePositive(elapsed: int, halfLife: int)
    requires elapsed > 0
    ensures Age(elapsed, halfLife) > 0.0
  {
    var hours := if halfLife > 1 then halfLife else 1;
    assert Age(elapsed, halfLife) * hours as real == elapsed as real;
  }

  /** Some share of a weight is always left. */
  lemma ShareLeft(half: real -> real, elapsed: int, halfLife: int)
    requires HalvingLaw(half) && elapsed > 0
    ensures 0.0 < half(Age(elapsed, halfLife)) <= 1.0
  {
    AgePositive(elapsed, halfLife);
    hide Age;
  }

  lemma DecayBounds(half: real -> real, value: real, elapsed: int, halfLife: int)
    requires HalvingLaw(half) && value >= 0.0
    ensures 0.0 <= Decay(half, value, elapsed, halfLife) <= value
  {
    if value > 0.0 && elapsed > 0 {
      var share := half(Age(elapsed, halfLife));
      ShareLeft(half, elapsed, halfLife);
      assert Decay(half, value, elapsed, halfLife) == value * share;
      hide Age, HalvingLaw, Decay;
      ShareBounds(value, share);
    }
  }

  lemma ShareBounds(value: real, share: real)
    requires value >= 0.0 && 0.0 < share <= 1.0
    ensures 0.0 <= value * share <= value
  {
    assert value * (1.0 - share) >= 0.0;
  }

  function Score(alpha: real, beta: real): real {
    var total := alpha + beta;
    if total <= 0.0 then 0.5
    else
      var ratio := alpha / total;
      if ratio < 0.0 then 0.0 else if ratio > 1.0 then 1.0 else ratio
  }

  function Pow2(n: nat): nat {
    if n == 0 then 1 else 2 * Pow2(n - 1)
  }

  function Min(a: int, b: int): int { if a <= b then a else b }

  function Max(a: int, b: int): int { if a <= b then b else a }

  function SaturatingSucc(n: nat): nat {
    if n >= U32_MAX then U32_MAX else n + 1
  }

  /** How often the base delay doubles. */
  function Doublings(streak: nat, outcome: FailureClass): nat {
    Min(Min(streak + (if outcome.ConnectionRefused? then 1 else 0), U32_MAX), 20)
  }

  /** Ceiling, in seconds, of the full-jitter retry delay. */
  function JitterCeiling(streak: nat, hadDownload: bool, dormant: bool, outcome: FailureClass): nat {
    var recovery := if streak == 0 then 6 * 3600 else if streak == 1 then 12 * 3600 else 24 * 3600;
    var base := if dormant then recovery else if hadDownload then 5 * 60 else 30 * 60;
    var cap := if dormant then recovery else if hadDownload then 6 * 3600 else 24 * 3600;
    Min(base * Pow2(Doublings(streak, outcome)), cap)
  }

  /** The uniform draw from 0..=ceiling, with the random number as an argument. */
  function JitterDelay(ceiling: nat, draw: nat): (delay: nat)
    ensures delay <= ceiling * SECOND
  {
    draw % (ceiling + 1) * SECOND
  }
}
