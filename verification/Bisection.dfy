/** Testing a cohort through one Xray process, splitting it when the process does not start. */
module Bisection {
  import opened Domain
  import opened Ranking
  import opened Sums
  import opened Ports

  // ---- Wiring of one process ----

  function Digit(n: nat): char
    requires n < 10
  {
    (('0' as int) + n) as char
  }

  function Decimal(n: nat): (s: string)
    ensures |s| > 0
  {
    if n < 10 then [Digit(n)] else Decimal(n / 10) + [Digit(n % 10)]
  }

  lemma {:induction false} DecimalInjective(a: nat, b: nat)
    requires Decimal(a) == Decimal(b)
    ensures a == b
  {
    var s, t := Decimal(a), Decimal(b);
    assert s[|s| - 1] == Digit(a % 10) && t[|t| - 1] == Digit(b % 10);
    if a >= 10 && b >= 10 {
      assert s[..|s| - 1] == Decimal(a / 10) && t[..|t| - 1] == Decimal(b / 10);
      DecimalInjective(a / 10, b / 10);
    }
  }

  datatype Inbound = Inbound(tag: string, port: Port)
  datatype Outbound = Outbound(tag: string, proxy: string)
  datatype Rule = Rule(inboundTag: string, outboundTag: string)
  datatype XrayConfig = XrayConfig(inbounds: seq<Inbound>, outbounds: seq<Outbound>, rules: seq<Rule>)

  function InTag(i: nat): string { "in-" + Decimal(i) }

  function OutTag(i: nat): string { "out-" + Decimal(i) }

  lemma TagsInjective(i: nat, j: nat)
    ensures InTag(i) == InTag(j) ==> i == j
    ensures OutTag(i) == OutTag(j) ==> i == j
  {
    assert InTag(i)[3..] == Decimal(i) && InTag(j)[3..] == Decimal(j);
    assert OutTag(i)[4..] == Decimal(i) && OutTag(j)[4..] == Decimal(j);
    if Decimal(i) == Decimal(j) {
      DecimalInjective(i, j);
    }
  }

  function FirstIndex<K(==)>(keys: seq<K>, key: K): (r: Option<nat>)
    ensures r.Some? ==> r.value < |keys| && keys[r.value] == key
    ensures r.None? ==> key !in keys
  {
    if |keys| == 0 then None
    else if keys[0] == key then Some(0)
    else
      var rest := FirstIndex(keys[1..], key);
      if rest.None? then None else Some(rest.value + 1)
  }

  /** The proxy that traffic into `port` leaves through: inbound, then rule, then outbound. */
  function Reach(c: XrayConfig, port: Port): Option<string> {
    var i := FirstIndex(seq(|c.inbounds|, k requires 0 <= k < |c.inbounds| => c.inbounds[k].port), port);
    if i.None? then None
    else
      var r := FirstIndex(seq(|c.rules|, k requires 0 <= k < |c.rules| => c.rules[k].inboundTag),
                          c.inbounds[i.value].tag);
      if r.None? then None
      else
        var o := FirstIndex(seq(|c.outbounds|, k requires 0 <= k < |c.outbounds| => c.outbounds[k].tag),
                            c.rules[r.value].outboundTag);
        if o.None? then None else Some(c.outbounds[o.value].proxy)
  }

  ghost predicate Wired(c: XrayConfig, proxies: seq<string>, ports: seq<Port>) {
    && |c.inbounds| == |c.outbounds| == |c.rules| == |proxies| == |ports|
    && forall k :: 0 <= k < |proxies| ==>
         c.inbounds[k] == Inbound(InTag(k), ports[k]) && c.outbounds[k] == Outbound(OutTag(k), proxies[k])
         && c.rules[k] == Rule(InTag(k), OutTag(k))
  }

  /** Traffic into the k-th port leaves through the k-th proxy and no other. */
  lemma NoCrossTalk(c: XrayConfig, proxies: seq<string>, ports: seq<Port>, k: nat)
    requires Wired(c, proxies, ports) && Distinct(ports) && k < |ports|
    ensures Reach(c, ports[k]) == Some(proxies[k])
  {
    hide InTag, OutTag, FirstIndex;
    var inPorts := seq(|c.inbounds|, j requires 0 <= j < |c.inbounds| => c.inbounds[j].port);
    var inTags := seq(|c.rules|, j requires 0 <= j < |c.rules| => c.rules[j].inboundTag);
    var outTags := seq(|c.outbounds|, j requires 0 <= j < |c.outbounds| => c.outbounds[j].tag);
    assert inPorts[k] == ports[k] && inTags[k] == InTag(k) && outTags[k] == OutTag(k);
    var i := FirstIndex(inPorts, ports[k]);
    assert i == Some(k);
    var r := FirstIndex(inTags, InTag(k));
    TagsInjective(r.value, k);
    var o := FirstIndex(outTags, OutTag(k));
    TagsInjective(o.value, k);
  }

  method BuildConfig(proxies: seq<string>, ports: seq<Port>) returns (c: XrayConfig)
    requires |proxies| == |ports|
    ensures Wired(c, proxies, ports)
  {
    hide InTag, OutTag;
    var inbounds: seq<Inbound>, outbounds: seq<Outbound>, rules: seq<Rule> := [], [], [];
    for i := 0 to |proxies|
      invariant |inbounds| == |outbounds| == |rules| == i
      invariant forall k :: 0 <= k < i ==>
        inbounds[k] == Inbound(InTag(k), ports[k]) && outbounds[k] == Outbound(OutTag(k), proxies[k])
        && rules[k] == Rule(InTag(k), OutTag(k))
    {
      inbounds := inbounds + [Inbound(InTag(i), ports[i])];
      outbounds := outbounds + [Outbound(OutTag(i), proxies[i])];
      rules := rules + [Rule(InTag(i), OutTag(i))];
    }
    c := XrayConfig(inbounds, outbounds, rules);
  }

  // ---- Group testing ----

  datatype Survivor = Survivor(id: NodeId, proxy: string, downloadDue: bool)

  /** `Tested(proxy, download)`: probed through a port that leads to `proxy`. */
  datatype Outcome = Tested(proxy: string, download: bool) | PortCapacity | StartFailed

  datatype Result = Result(survivor: Survivor, outcome: Outcome)

  function Proxies(survivors: seq<Survivor>): (r: seq<string>)
    ensures |r| == |survivors|
  {
    seq(|survivors|, i requires 0 <= i < |survivors| => survivors[i].proxy)
  }

  function Survivors(results: seq<Result>): (r: seq<Survivor>)
    ensures |r| == |results|
  {
    seq(|results|, i requires 0 <= i < |results| => results[i].survivor)
  }

  lemma SurvivorsAppend(a: seq<Result>, b: seq<Result>)
    ensures Survivors(a + b) == Survivors(a) + Survivors(b)
  {
  }

  function AnyBad(proxies: seq<string>, bad: set<string>): bool {
    exists p | p in proxies :: p in bad
  }

  function BadCount(proxies: seq<string>, bad: set<string>): nat {
    if |proxies| == 0 then 0
    else (if proxies[0] in bad then 1 else 0) + BadCount(proxies[1..], bad)
  }

  /** Xray starts made for a batch when a start fails exactly if a bad proxy is present. */
  function Starts(proxies: seq<string>, bad: set<string>): nat
    decreases |proxies|
  {
    if |proxies| == 0 then 0
    else if |proxies| == 1 || !AnyBad(proxies, bad) then 1
    else
      var mid := |proxies| / 2;
      1 + Starts(proxies[..mid], bad) + Starts(proxies[mid..], bad)
  }

  /** The base-two logarithm, rounded up. */
  function CeilLog2(n: nat): nat {
    if n <= 1 then 0 else 1 + CeilLog2((n + 1) / 2)
  }

  lemma {:induction false} CeilLog2Spec(n: nat)
    requires n > 0
    ensures n <= Pow2(CeilLog2(n)) < 2 * n
  {
    if n > 1 {
      CeilLog2Spec((n + 1) / 2);
    }
  }

  lemma {:induction false} CeilLog2Monotone(a: nat, b: nat)
    requires a <= b
    ensures CeilLog2(a) <= CeilLog2(b)
  {
    if a > 1 {
      CeilLog2Monotone((a + 1) / 2, (b + 1) / 2);
    }
  }

  lemma {:induction false} BadCountSplit(proxies: seq<string>, mid: nat, bad: set<string>)
    requires mid <= |proxies|
    ensures BadCount(proxies, bad) == BadCount(proxies[..mid], bad) + BadCount(proxies[mid..], bad)
  {
    if mid > 0 {
      assert proxies[..mid][1..] == proxies[1..][..mid - 1];
      assert proxies[1..][mid - 1..] == proxies[mid..];
      BadCountSplit(proxies[1..], mid - 1, bad);
    } else {
      assert proxies[..0] == [] && proxies[0..] == proxies;
    }
  }

  lemma {:induction false} BadCountPositive(proxies: seq<string>, bad: set<string>)
    ensures BadCount(proxies, bad) > 0 <==> AnyBad(proxies, bad)
  {
    if |proxies| > 0 {
      BadCountPositive(proxies[1..], bad);
      assert forall p :: p in proxies <==> p == proxies[0] || p in proxies[1..];
    }
  }

  predicate Within(proxies: seq<string>, bad: set<string>, log: nat) {
    Starts(proxies, bad) <= 1 + 2 * BadCount(proxies, bad) * log
  }

  lemma {:induction false} StartsWithin(proxies: seq<string>, bad: set<string>, log: nat)
    requires CeilLog2(|proxies|) <= log
    ensures Within(proxies, bad, log)
    decreases |proxies|
  {
    hide Within, Starts;
    if |proxies| < 2 || !AnyBad(proxies, bad) {
      CleanWithin(proxies, bad, log);
    } else {
      var mid := |proxies| / 2;
      CeilLog2Monotone(mid, (|proxies| + 1) / 2);
      StartsWithin(proxies[..mid], bad, log - 1);
      StartsWithin(proxies[mid..], bad, log - 1);
      WithinSplit(proxies, bad, mid, log - 1);
    }
  }

  lemma CleanWithin(proxies: seq<string>, bad: set<string>, log: nat)
    requires |proxies| < 2 || !AnyBad(proxies, bad)
    ensures Within(proxies, bad, log)
  {
    assert 2 * BadCount(proxies, bad) * log >= 0;
  }

  lemma WithinSplit(proxies: seq<string>, bad: set<string>, mid: nat, log: nat)
    requires |proxies| >= 2 && AnyBad(proxies, bad) && mid == |proxies| / 2
    requires Within(proxies[..mid], bad, log) && Within(proxies[mid..], bad, log)
    ensures Within(proxies, bad, 1 + log)
  {
    var left, right := proxies[..mid], proxies[mid..];
    StartsUnfold(proxies, bad);
    BadCountSplit(proxies, mid, bad);
    BadCountPositive(proxies, bad);
    CleanHalf(left, bad);
    CleanHalf(right, bad);
    hide Starts, BadCount, AnyBad;
    SplitBound(BadCount(left, bad), BadCount(right, bad), log, Starts(left, bad), Starts(right, bad));
  }

  lemma StartsUnfold(proxies: seq<string>, bad: set<string>)
    requires |proxies| >= 2 && AnyBad(proxies, bad)
    ensures Starts(proxies, bad) == 1 + Starts(proxies[..|proxies| / 2], bad) + Starts(proxies[|proxies| / 2..], bad)
  {
  }

  lemma CleanHalf(proxies: seq<string>, bad: set<string>)
    ensures |proxies| < 2 || BadCount(proxies, bad) == 0 ==> Starts(proxies, bad) <= 1
  {
    BadCountPositive(proxies, bad);
  }

  /** Finding `k` bad proxies among `n` takes at most 1 + 2 k ceil(log2 n) process starts. */
  lemma StartsBound(proxies: seq<string>, bad: set<string>)
    ensures Starts(proxies, bad) <= 1 + 2 * BadCount(proxies, bad) * CeilLog2(|proxies|)
  {
    hide Starts, BadCount, CeilLog2;
    StartsWithin(proxies, bad, CeilLog2(|proxies|));
  }

  lemma SplitBound(a: nat, b: nat, log: nat, left: nat, right: nat)
    requires a + b > 0
    requires left <= 1 + 2 * a * log && right <= 1 + 2 * b * log
    requires a == 0 ==> left <= 1
    requires b == 0 ==> right <= 1
    ensures 1 + left + right <= 1 + 2 * (a + b) * (1 + log)
  {
    assert 2 * (a + b) * (1 + log) == 2 * a * log + 2 * b * log + 2 * (a + b);
  }

  /** Never more starts than nodes of the full splitting tree. */
  lemma {:induction false} StartsAtMostTree(proxies: seq<string>, bad: set<string>)
    requires |proxies| > 0
    ensures Starts(proxies, bad) <= 2 * |proxies| - 1
    decreases |proxies|
  {
    if |proxies| >= 2 && AnyBad(proxies, bad) {
      StartsAtMostTree(proxies[..|proxies| / 2], bad);
      StartsAtMostTree(proxies[|proxies| / 2..], bad);
    }
  }

  /** The bound is met: one bad proxy among 2^m costs exactly 1 + 2 m starts. */
  lemma {:induction false} OneBadAmongPowerOfTwo(proxies: seq<string>, bad: set<string>, m: nat)
    requires |proxies| == Pow2(m) && BadCount(proxies, bad) == 1
    ensures Starts(proxies, bad) == 1 + 2 * m
  {
    if m > 0 {
      var mid := |proxies| / 2;
      var left, right := proxies[..mid], proxies[mid..];
      BadCountSplit(proxies, mid, bad);
      BadCountPositive(proxies, bad);
      BadCountPositive(left, bad);
      BadCountPositive(right, bad);
      assert |left| == |right| == Pow2(m - 1);
      PowPositive(m - 1);
      if BadCount(left, bad) == 1 {
        OneBadAmongPowerOfTwo(left, bad, m - 1);
      } else {
        OneBadAmongPowerOfTwo(right, bad, m - 1);
      }
    }
  }

  lemma {:induction false} PowPositive(m: nat)
    ensures Pow2(m) >= 1
  {
    if m > 0 {
      PowPositive(m - 1);
    }
  }

  // ---- The recursive test ----

  class Prober {
    const pool: PortPool
    /** Whether the `t`-th start of an Xray process, for these proxies, comes up. */
    const comesUp: (nat, seq<string>) -> bool
    var starts: nat

    constructor (pool: PortPool, comesUp: (nat, seq<string>) -> bool)
      ensures this.pool == pool && this.comesUp == comesUp && starts == 0
    {
      this.pool, this.comesUp, starts := pool, comesUp, 0;
    }

    /** A start fails exactly when a bad proxy is in the batch. */
    ghost predicate FailsOnBad(bad: set<string>) {
      forall t, proxies :: comesUp(t, proxies) <==> !AnyBad(proxies, bad)
    }

    /** At least `n` ports of the range are unreserved and can always be bound. */
    ghost predicate PortsSuffice(n: nat)
      reads pool
    {
      |ReliablyFree(pool.first, pool.last, pool.binds, pool.reserved)| >= n
    }

    /** The tokens live as long as the session; a failed start drops them. */
    method Start(proxies: seq<string>, ports: seq<Port>) returns (session: Option<XrayConfig>)
      requires |proxies| == |ports| > 0
      modifies this, pool
      ensures starts == old(starts) + 1
      ensures session.Some? <==> comesUp(old(starts), proxies)
      ensures session.Some? ==> Wired(session.value, proxies, ports) && pool.reserved == old(pool.reserved)
      ensures session.None? ==> pool.reserved == old(pool.reserved) - Elements(ports)
    {
      var config := BuildConfig(proxies, ports);
      var up := comesUp(starts, proxies);
      starts := starts + 1;
      if up {
        session := Some(config);
      } else {
        session := None;
        pool.Drop(ports);
      }
    }

    /** Each survivor is tested through its own port; reports complete in any order. */
    method TestAll(survivors: seq<Survivor>, config: XrayConfig, ports: seq<Port>) returns (results: seq<Result>)
      requires |survivors| == |ports| && Distinct(ports) && Wired(config, Proxies(survivors), ports)
      ensures multiset(Survivors(results)) == multiset(survivors)
      ensures forall r :: r in results ==> r.outcome == Tested(r.survivor.proxy, r.survivor.downloadDue)
    {
      hide Wired, Reach, Survivors, Travellers, Legs, Without;
      results := [];
      var pending := Legs(survivors, ports);
      AllLegs(survivors, ports);
      while |pending| > 0
        invariant multiset(Survivors(results)) + multiset(Travellers(pending)) == multiset(survivors)
        invariant forall leg :: leg in pending ==> leg in Legs(survivors, ports)
        invariant forall r :: r in results ==> r.outcome == Tested(r.survivor.proxy, r.survivor.downloadDue)
        decreases |pending|
      {
        var k :| 0 <= k < |pending|;
        var leg := pending[k];
        LegReaches(config, survivors, ports, leg);
        var result := Result(leg.survivor, Tested(Reach(config, leg.port).value, leg.survivor.downloadDue));
        LegDone(results, result, pending, k);
        results := results + [result];
        pending := Without(pending, k);
      }
    }

    method TestSurvivorBatch(survivors: seq<Survivor>, ghost bad: set<string>) returns (results: seq<Result>)
      modifies this, pool
      ensures pool.reserved == old(pool.reserved)
      ensures multiset(Survivors(results)) == multiset(survivors)
      ensures forall r :: r in results && r.outcome.Tested? ==>
                r.outcome == Tested(r.survivor.proxy, r.survivor.downloadDue)
      ensures starts <= old(starts) + (if |survivors| == 0 then 0 else 2 * |survivors| - 1)
      ensures FailsOnBad(bad) ==> starts <= old(starts) + Starts(Proxies(survivors), bad)
      ensures FailsOnBad(bad) ==>
                starts <= old(starts) + 1 + 2 * BadCount(Proxies(survivors), bad) * CeilLog2(|survivors|)
      ensures FailsOnBad(bad) ==> forall r :: r in results ==> Blames(r, bad)
      ensures FailsOnBad(bad) && old(PortsSuffice(|survivors|)) ==>
                starts == old(starts) + Starts(Proxies(survivors), bad)
      ensures old(PortsSuffice(|survivors|)) ==> forall r :: r in results ==> !r.outcome.PortCapacity?
      decreases |survivors|
    {
      hide Survivors, Proxies, Starts, BadCount, CeilLog2, AnyBad, ReliablyFree, Blames, AllOf, Wired;
      StartsBound(Proxies(survivors), bad);
      if |survivors| == 0 {
        NothingToTest(survivors, bad);
        return [];
      }
      var ports := pool.AllocatePorts(|survivors|);
      if ports.None? {
        AllReported(survivors, PortCapacity, bad);
        return AllOf(survivors, PortCapacity);
      }
      var session := Start(Proxies(survivors), ports.value);
      OneStart(Proxies(survivors), bad);
      if session.Some? {
        results := TestAll(survivors, session.value, ports.value);
        pool.Drop(ports.value);
        NoneBlamed(survivors, results, bad);
      } else if |survivors| == 1 {
        AllReported(survivors, StartFailed, bad);
        results := AllOf(survivors, StartFailed);
      } else {
        var mid := |survivors| / 2;
        HalvesTogether(survivors, mid, bad);
        var left := TestSurvivorBatch(survivors[..mid], bad);
        var right := TestSurvivorBatch(survivors[mid..], bad);
        SurvivorsAppend(left, right);
        results := left + right;
      }
    }
  }

  lemma NothingToTest(survivors: seq<Survivor>, bad: set<string>)
    requires survivors == []
    ensures Survivors([]) == [] && Starts(Proxies(survivors), bad) == 0
  {
  }

  /** A lone failed start is blamed on its proxy, lack of ports on nobody. */
  lemma AllReported(survivors: seq<Survivor>, outcome: Outcome, bad: set<string>)
    requires outcome.PortCapacity? || (outcome.StartFailed? && |survivors| == 1)
    ensures Survivors(AllOf(survivors, outcome)) == survivors
    ensures forall r :: r in AllOf(survivors, outcome) ==> r.outcome == outcome
    ensures outcome.PortCapacity? || AnyBad(Proxies(survivors), bad) ==>
              forall r :: r in AllOf(survivors, outcome) ==> Blames(r, bad)
  {
  }

  lemma OneStart(proxies: seq<string>, bad: set<string>)
    requires |proxies| > 0
    ensures Starts(proxies, bad) >= 1
    ensures |proxies| == 1 || !AnyBad(proxies, bad) ==> Starts(proxies, bad) == 1
  {
  }

  lemma NoneBlamed(survivors: seq<Survivor>, results: seq<Result>, bad: set<string>)
    requires multiset(Survivors(results)) == multiset(survivors)
    requires forall r :: r in results ==> r.outcome.Tested?
    ensures !AnyBad(Proxies(survivors), bad) ==> forall r :: r in results ==> Blames(r, bad)
  {
    if !AnyBad(Proxies(survivors), bad) {
      forall r | r in results
        ensures Blames(r, bad)
      {
        var k :| 0 <= k < |results| && results[k] == r;
        assert Survivors(results)[k] in multiset(survivors);
        var i :| 0 <= i < |survivors| && survivors[i] == r.survivor;
        assert Proxies(survivors)[i] == r.survivor.proxy;
      }
    }
  }

  lemma HalvesTogether(survivors: seq<Survivor>, mid: nat, bad: set<string>)
    requires |survivors| >= 2 && mid == |survivors| / 2
    ensures multiset(survivors[..mid]) + multiset(survivors[mid..]) == multiset(survivors)
    ensures AnyBad(Proxies(survivors), bad) ==>
              Starts(Proxies(survivors), bad)
              == 1 + Starts(Proxies(survivors[..mid]), bad) + Starts(Proxies(survivors[mid..]), bad)
  {
    hide AnyBad;
    assert survivors[..mid] + survivors[mid..] == survivors;
    assert Proxies(survivors[..mid]) == Proxies(survivors)[..mid];
    assert Proxies(survivors[mid..]) == Proxies(survivors)[mid..];
    if AnyBad(Proxies(survivors), bad) {
      StartsUnfold(Proxies(survivors), bad);
    }
  }

  datatype Leg = Leg(survivor: Survivor, port: Port)

  function Legs(survivors: seq<Survivor>, ports: seq<Port>): (r: seq<Leg>)
    requires |survivors| == |ports|
    ensures |r| == |survivors|
  {
    seq(|survivors|, i requires 0 <= i < |survivors| => Leg(survivors[i], ports[i]))
  }

  function Travellers(legs: seq<Leg>): (r: seq<Survivor>)
    ensures |r| == |legs|
  {
    seq(|legs|, i requires 0 <= i < |legs| => legs[i].survivor)
  }

  lemma AllLegs(survivors: seq<Survivor>, ports: seq<Port>)
    requires |survivors| == |ports|
    ensures Travellers(Legs(survivors, ports)) == survivors
    ensures Survivors([]) == []
  {
  }

  lemma LegDone(results: seq<Result>, result: Result, pending: seq<Leg>, k: nat)
    requires k < |pending| && result.survivor == pending[k].survivor
    ensures multiset(Survivors(results + [result])) + multiset(Travellers(Without(pending, k)))
         == multiset(Survivors(results)) + multiset(Travellers(pending))
    ensures |Without(pending, k)| == |pending| - 1
    ensures forall leg :: leg in Without(pending, k) ==> leg in pending
  {
    var s := result.survivor;
    SurvivorsAppend(results, [result]);
    assert Survivors([result]) == [s];
    var tail := Travellers(Without(pending, k));
    assert tail == Without(Travellers(pending), k);
    WithoutOne(Travellers(pending), k);
    hide Survivors, Travellers;
    assert multiset(Survivors(results) + [s]) == multiset(Survivors(results)) + multiset{s};
  }

  lemma LegReaches(config: XrayConfig, survivors: seq<Survivor>, ports: seq<Port>, leg: Leg)
    requires |survivors| == |ports| && Distinct(ports) && Wired(config, Proxies(survivors), ports)
    requires leg in Legs(survivors, ports)
    ensures Reach(config, leg.port) == Some(leg.survivor.proxy)
  {
    hide Wired, Reach;
    var i :| 0 <= i < |ports| && Legs(survivors, ports)[i] == leg;
    NoCrossTalk(config, Proxies(survivors), ports, i);
  }

  function AllOf(survivors: seq<Survivor>, outcome: Outcome): (r: seq<Result>)
    ensures |r| == |survivors|
  {
    seq(|survivors|, i requires 0 <= i < |survivors| => Result(survivors[i], outcome))
  }

  /** A survivor that was tested is not bad, and one whose start failed is. */
  predicate Blames(r: Result, bad: set<string>) {
    && (r.outcome.Tested? ==> r.survivor.proxy !in bad)
    && (r.outcome.StartFailed? ==> r.survivor.proxy in bad)
  }
}
