/** The pure decision taken for one probe observation of one node. */
module Health {
  import opened Domain

  datatype HealthInput = HealthInput(
    prior: LifecycleState,
    priorLease: Option<int>,
    activatedAt: Option<int>,
    alpha: real,
    beta: real,
    failureStreak: nat,
    independentFailures: nat,
    newIndependentFailure: bool,
    hadDownload: bool,
    stage: TestStage,
    outcome: FailureClass,
    fast: bool,
    now: int,
    relayInterval: int,
    downloadInterval: int,
    minResidence: int)

  datatype HealthDecision = HealthDecision(
    lifecycle: LifecycleState,
    score: real,
    failureStreak: nat,
    independentFailures: nat,
    lease: Option<int>,
    nextTestAt: int)

  function FailureStreak(i: HealthInput): nat {
    if i.outcome.Success? then 0
    else if i.outcome.Inconclusive() then i.failureStreak
    else SaturatingSucc(i.failureStreak)
  }

  function IndependentFailures(i: HealthInput): nat {
    if i.outcome.Success? then 0
    else if i.outcome.Inconclusive() || !i.newIndependentFailure then i.independentFailures
    else SaturatingSucc(i.independentFailures)
  }

  predicate Resident(i: HealthInput) {
    i.activatedAt.Some? && i.now - i.activatedAt.value >= i.minResidence
  }

  function NextLifecycle(i: HealthInput): LifecycleState {
    var score := Score(i.alpha, i.beta);
    if i.outcome.InvalidConfig? || i.prior.Invalid? then Invalid
    else if i.prior.Retired? then Retired
    else if i.outcome.Success? && i.stage.Download? then Active
    else
      match i.prior
      case Active =>
        if !Resident(i) then Active
        else if score < 0.35 && IndependentFailures(i) >= 2 then Probation
        else Active
      case Probation =>
        if score >= 0.70 then Active
        else if score < 0.15 && FailureStreak(i) >= 3 then Dormant
        else Probation
      case Dormant => if score >= 0.70 && i.outcome.Success? then Probation else Dormant
      case other => other
  }

  /** The later of the held lease and the one earned by this observation. */
  function JoinLease(held: Option<int>, earned: Option<int>): Option<int> {
    if held.Some? && earned.Some? then Some(Max(held.value, earned.value))
    else if held.Some? then held
    else earned
  }

  function NextTestAt(i: HealthInput, draw: nat): int {
    var lifecycle := NextLifecycle(i);
    if i.outcome.Success? then
      i.now + (match lifecycle
               case Active => if i.stage.Download? then i.downloadInterval else i.relayInterval
               case Probation => 15 * MINUTE
               case Dormant => 6 * HOUR
               case _ => 5 * MINUTE)
    else if i.outcome.Inconclusive() then i.now + 2 * MINUTE
    else
      i.now + JitterDelay(JitterCeiling(FailureStreak(i), i.hadDownload, lifecycle.Dormant?, i.outcome), draw)
  }

  function Decide(i: HealthInput, draw: nat): HealthDecision {
    HealthDecision(
      NextLifecycle(i),
      Score(i.alpha, i.beta),
      FailureStreak(i),
      IndependentFailures(i),
      JoinLease(i.priorLease,
                if i.outcome.Success? then Some(i.now + LeaseDuration(i.stage, i.fast)) else None),
      NextTestAt(i, draw))
  }

  // ---- Retry delays ----

  lemma {:induction false} Pow2Monotone(a: nat, b: nat)
    requires a <= b
    ensures 1 <= Pow2(a) <= Pow2(b)
  {
    if a > 0 {
      Pow2Monotone(a - 1, b - 1);
    } else if b > 0 {
      Pow2Monotone(a, b - 1);
    }
  }

  lemma CappedGrows(base: nat, cap: nat, p: nat, q: nat)
    requires 1 <= p <= q
    ensures Min(base * p, cap) <= Min(base * q, cap) <= cap
    ensures Min(base * p, base) == base
  {
    assert base * q == base * p + base * (q - p);
    assert base * p == base + base * (p - 1);
  }

  function Recovery(s: nat): nat {
    if s == 0 then 6 * 3600 else if s == 1 then 12 * 3600 else 24 * 3600
  }

  lemma DormantCeiling(s: nat, hadDownload: bool, outcome: FailureClass)
    ensures JitterCeiling(s, hadDownload, true, outcome) == Recovery(s)
  {
    var shift := Doublings(s, outcome);
    Pow2Monotone(shift, shift);
    CappedGrows(Recovery(s), Recovery(s), Pow2(shift), Pow2(shift));
  }

  lemma WorkingCeiling(s: nat, hadDownload: bool, outcome: FailureClass)
    ensures JitterCeiling(s, hadDownload, false, outcome)
         == Min((if hadDownload then 5 * 60 else 30 * 60) * Pow2(Doublings(s, outcome)),
                if hadDownload then 6 * 3600 else 24 * 3600)
  {
    hide Pow2, Doublings;
  }

  lemma WorkingCeilingGrows(s: nat, t: nat, hadDownload: bool, outcome: FailureClass)
    requires s <= t
    ensures JitterCeiling(s, hadDownload, false, outcome) <= JitterCeiling(t, hadDownload, false, outcome)
    ensures JitterCeiling(t, hadDownload, false, outcome) <= (if hadDownload then 6 * 3600 else 24 * 3600)
  {
    hide Pow2, JitterCeiling;
    WorkingCeiling(s, hadDownload, outcome);
    WorkingCeiling(t, hadDownload, outcome);
    Pow2Monotone(Doublings(s, outcome), Doublings(t, outcome));
    CappedGrows(if hadDownload then 5 * 60 else 30 * 60, if hadDownload then 6 * 3600 else 24 * 3600,
                Pow2(Doublings(s, outcome)), Pow2(Doublings(t, outcome)));
  }

  /** The retry ceiling never falls as failures pile up, and stays under its cap;
      a dormant node's ceiling is its recovery step. */
  lemma CeilingGrows(s: nat, t: nat, hadDownload: bool, dormant: bool, outcome: FailureClass)
    requires s <= t
    ensures JitterCeiling(s, hadDownload, dormant, outcome) <= JitterCeiling(t, hadDownload, dormant, outcome)
    ensures JitterCeiling(t, hadDownload, dormant, outcome) <= (if hadDownload && !dormant then 6 * 3600 else 24 * 3600)
    ensures dormant ==> JitterCeiling(s, hadDownload, dormant, outcome) == Recovery(s)
  {
    hide JitterCeiling;
    if dormant {
      DormantCeiling(s, hadDownload, outcome);
      DormantCeiling(t, hadDownload, outcome);
    } else {
      WorkingCeilingGrows(s, t, hadDownload, outcome);
    }
  }

  /** A failed node is retried no later than a day after the failure, six hours after it
      if it has ever completed a download and is not dormant. */
  lemma RetryIsBounded(i: HealthInput, draw: nat)
    requires i.outcome.Failed()
    ensures i.now <= NextTestAt(i, draw) <= i.now + 24 * HOUR
    ensures i.hadDownload && !NextLifecycle(i).Dormant? ==> NextTestAt(i, draw) <= i.now + 6 * HOUR
  {
    hide NextLifecycle, JitterCeiling, FailureStreak;
    CeilingGrows(FailureStreak(i), FailureStreak(i), i.hadDownload, NextLifecycle(i).Dormant?, i.outcome);
  }

  lemma Pow2Doubles(n: nat)
    ensures Pow2(n + 1) == 2 * Pow2(n)
  {
  }

  lemma CappedDoubles(base: nat, cap: nat, p: nat)
    ensures Min(base * (2 * p), cap) == Min(2 * Min(base * p, cap), cap)
  {
    assert base * (2 * p) == 2 * (base * p);
  }

  /** The retry ceiling of a working node starts at five minutes, or half an hour if it never completed a
      download, doubles with every failure up to its cap, and is one failure ahead after a refusal. */
  lemma CeilingDoubles(s: nat, hadDownload: bool, outcome: FailureClass)
    requires s < 20 && outcome != ConnectionRefused
    ensures JitterCeiling(0, hadDownload, false, outcome) == if hadDownload then 5 * 60 else 30 * 60
    ensures JitterCeiling(s + 1, hadDownload, false, outcome)
         == Min(2 * JitterCeiling(s, hadDownload, false, outcome), if hadDownload then 6 * 3600 else 24 * 3600)
    ensures JitterCeiling(s, hadDownload, false, ConnectionRefused) == JitterCeiling(s + 1, hadDownload, false, outcome)
  {
    assert Pow2(0) == 1;
    WorkingCeiling(0, hadDownload, outcome);
    WorkingCeiling(s, hadDownload, outcome);
    WorkingCeiling(s + 1, hadDownload, outcome);
    WorkingCeiling(s, hadDownload, ConnectionRefused);
    Pow2Doubles(s);
    hide Pow2, JitterCeiling;
    CappedDoubles(if hadDownload then 5 * 60 else 30 * 60, if hadDownload then 6 * 3600 else 24 * 3600, Pow2(s));
  }

  /** Full jitter: every whole second from zero to the ceiling may be drawn. */
  lemma EveryDelayIsDrawn(ceiling: nat, delay: nat)
    requires delay <= ceiling
    ensures exists draw :: JitterDelay(ceiling, draw) == delay * SECOND
  {
    assert JitterDelay(ceiling, delay) == delay * SECOND;
  }
}
