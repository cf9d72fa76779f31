/** Telling a local or shared incident from ordinary per-proxy failures. */
module Incident {
  import opened Domain
  import opened Sets
  import opened Sums

  datatype ProbeEvent = ProbeEvent(
    stage: TestStage, outcome: FailureClass, fast: bool, portCapacity: bool, at: int, draw: nat)

  datatype Transport = Transport(source: string, protocol: string, address: string)

  datatype Report = Report(id: NodeId, proxy: Option<Transport>, events: seq<ProbeEvent>, doneAt: int)

  /** A report without transport metadata counts as its own server. */
  datatype Server = Address(address: string) | Unnamed(id: NodeId)

  datatype Reason = DnsCluster | EndpointCluster | CrossSourceCluster

  /** No success, no structural error, and at least one conclusive failure. */
  predicate Failing(r: Report) {
    && |r.events| > 0
    && (forall e | e in r.events :: !e.outcome.Success? && !e.outcome.InvalidConfig?)
    && (exists e | e in r.events :: !e.outcome.Inconclusive())
  }

  function CountOf(outcome: FailureClass, events: seq<ProbeEvent>): nat {
    if |events| == 0 then 0
    else CountOf(outcome, events[..|events| - 1]) + (if events[|events| - 1].outcome == outcome then 1 else 0)
  }

  function One(r: Report): real {
    if Failing(r) then 1.0 else 0.0
  }

  function Count(outcome: FailureClass, r: Report): real {
    if Failing(r) then CountOf(outcome, r.events) as real else 0.0
  }

  function FailedCount(reports: seq<Report>): real {
    Total((r: Report) => One(r), reports)
  }

  function ClassCount(outcome: FailureClass, reports: seq<Report>): real {
    Total((r: Report) => Count(outcome, r), reports)
  }

  function Sources(reports: seq<Report>): set<string> {
    set r | r in reports && Failing(r) && r.proxy.Some? :: r.proxy.value.source
  }

  function Protocols(reports: seq<Report>): set<string> {
    set r | r in reports && Failing(r) && r.proxy.Some? :: r.proxy.value.protocol
  }

  function ServerOf(r: Report): Server {
    if r.proxy.Some? then Address(r.proxy.value.address) else Unnamed(r.id)
  }

  function Servers(reports: seq<Report>): set<Server> {
    set r | r in reports && Failing(r) :: ServerOf(r)
  }

  predicate Independent(reports: seq<Report>) {
    |Sources(reports)| >= 2 || |Protocols(reports)| >= 2 || |Servers(reports)| >= 2
  }

  /** The verdict, from counts and sets over the failing reports. */
  function Verdict(reports: seq<Report>, threshold: nat): Option<Reason> {
    if |reports| < 3 then None
    else if FailedCount(reports) * 100.0 < (|reports| * threshold) as real then None
    else if !Independent(reports) then None
    else if ClassCount(DnsFailure, reports) * 2.0 >= FailedCount(reports) then Some(DnsCluster)
    else if ClassCount(EndpointFailure, reports) * 2.0 >= FailedCount(reports) then Some(EndpointCluster)
    else Some(CrossSourceCluster)
  }

  // ---- The verdict in numbers of reports and events ----

  /** Tested conclusively without success: a report that speaks of its node or of something its node shares. */
  predicate SpeaksOfFailure(r: Report) {
    && !(exists e :: e in r.events && (e.outcome.Success? || e.outcome.InvalidConfig?))
    && (exists e :: e in r.events && !e.outcome.LocalOverload? && !e.outcome.EndpointFailure?)
  }

  /** The positions of the failing reports. */
  function FailedReports(reports: seq<Report>): set<nat> {
    set i: nat | i < |reports| && SpeaksOfFailure(reports[i])
  }

  /** The places of one class among the events of one report. */
  function Places(outcome: FailureClass, events: seq<ProbeEvent>): set<nat> {
    set k: nat | k < |events| && events[k].outcome == outcome
  }

  /** Every event of one class in a failing report, by position of the report and of the event. */
  function EventsOf(outcome: FailureClass, reports: seq<Report>): set<(nat, nat)> {
    set i: nat, k: nat | i < |reports| && k in Places(outcome, reports[i].events) &&
        SpeaksOfFailure(reports[i]) :: (i, k)
  }

  /** Two reports whose proxies differ in some dimension; one without a proxy stands for a server of its own node. */
  predicate Unlike(a: Report, b: Report) {
    if a.proxy.Some? && b.proxy.Some? then
      || a.proxy.value.source != b.proxy.value.source
      || a.proxy.value.protocol != b.proxy.value.protocol
      || a.proxy.value.address != b.proxy.value.address
    else a.proxy.Some? || b.proxy.Some? || a.id != b.id
  }

  predicate UnlikeFailures(reports: seq<Report>) {
    exists i: nat, j: nat :: i in FailedReports(reports) && j in FailedReports(reports) &&
        Unlike(reports[i], reports[j])
  }

  /** An incident is at least three reports, the threshold share of them failing, two of the failing ones unlike. */
  lemma VerdictIff(reports: seq<Report>, threshold: nat)
    ensures Verdict(reports, threshold).Some? <==>
              && |reports| >= 3
              && |FailedReports(reports)| * 100 >= |reports| * threshold
              && UnlikeFailures(reports)
  {
    FailedIsCount(reports);
    IndependentIff(reports);
    hide FailedCount, ClassCount, FailedReports, UnlikeFailures, Independent;
  }

  /** Its reason is DNS when there is one DNS failure to two failing reports, else the endpoint by the same rule. */
  lemma ReasonIff(reports: seq<Report>, threshold: nat)
    requires Verdict(reports, threshold).Some?
    ensures var reason, failed := Verdict(reports, threshold).value, |FailedReports(reports)|;
      && (reason == DnsCluster <==> 2 * |EventsOf(DnsFailure, reports)| >= failed)
      && (reason == EndpointCluster <==>
            2 * |EventsOf(DnsFailure, reports)| < failed <= 2 * |EventsOf(EndpointFailure, reports)|)
  {
    FailedIsCount(reports);
    ClassIsCount(DnsFailure, reports);
    ClassIsCount(EndpointFailure, reports);
    hide FailedCount, ClassCount, FailedReports, EventsOf, Independent;
  }

  lemma FailingIff(r: Report)
    ensures Failing(r) <==> SpeaksOfFailure(r)
  {
  }

  lemma FailedReportsOneMore(before: seq<Report>, r: Report)
    ensures FailedReports(before + [r]) ==
            FailedReports(before) + (if SpeaksOfFailure(r) then {|before|} else {})
    ensures |before| !in FailedReports(before)
  {
    hide SpeaksOfFailure;
    var reports := before + [r];
    assert forall i :: 0 <= i < |before| ==> reports[i] == before[i];
  }

  lemma {:induction false} FailedIsCount(reports: seq<Report>)
    ensures FailedCount(reports) == |FailedReports(reports)| as real
  {
    if |reports| > 0 {
      var before, r := reports[..|reports| - 1], reports[|reports| - 1];
      FailedIsCount(before);
      assert reports == before + [r];
      TotalSnoc((x: Report) => One(x), before, r);
      FailingIff(r);
      FailedReportsOneMore(before, r);
      hide Failing, SpeaksOfFailure, FailedReports;
    }
  }

  lemma PlacesOneMore(outcome: FailureClass, events: seq<ProbeEvent>)
    requires |events| > 0
    ensures var m: nat := |events| - 1;
      && Places(outcome, events) == Places(outcome, events[..m]) + (if events[m].outcome == outcome then {m} else {})
      && m !in Places(outcome, events[..m])
  {
    var m := |events| - 1;
    assert forall k :: 0 <= k < m ==> events[..m][k] == events[k];
  }

  lemma {:induction false} CountIsPlaces(outcome: FailureClass, events: seq<ProbeEvent>)
    ensures CountOf(outcome, events) == |Places(outcome, events)|
  {
    if |events| > 0 {
      CountIsPlaces(outcome, events[..|events| - 1]);
      PlacesOneMore(outcome, events);
      hide Places;
    }
  }

  /** The pairs with first member `m` and second member in `s`. */
  function Beside(m: nat, s: set<nat>): set<(nat, nat)> {
    set k | k in s :: (m, k)
  }

  lemma {:induction false} BesideSize(m: nat, s: set<nat>)
    ensures |Beside(m, s)| == |s|
    decreases |s|
  {
    if s != {} {
      var k0 :| k0 in s;
      BesideSize(m, s - {k0});
      assert Beside(m, s) == Beside(m, s - {k0}) + {(m, k0)};
    }
  }

  lemma EventsOfOneMore(outcome: FailureClass, before: seq<Report>, r: Report)
    ensures var m, all := |before|, EventsOf(outcome, before + [r]);
      && all == EventsOf(outcome, before) + (if SpeaksOfFailure(r) then Beside(m, Places(outcome, r.events)) else {})
      && EventsOf(outcome, before) !! Beside(m, Places(outcome, r.events))
  {
    hide SpeaksOfFailure, Places;
    var reports := before + [r];
    assert forall i :: 0 <= i < |before| ==> reports[i] == before[i];
  }

  lemma {:induction false} ClassIsCount(outcome: FailureClass, reports: seq<Report>)
    ensures ClassCount(outcome, reports) == |EventsOf(outcome, reports)| as real
  {
    if |reports| == 0 {
      assert EventsOf(outcome, reports) == {};
    } else {
      var before, r := reports[..|reports| - 1], reports[|reports| - 1];
      ClassIsCount(outcome, before);
      assert reports == before + [r];
      TotalSnoc((x: Report) => Count(outcome, x), before, r);
      FailingIff(r);
      CountIsPlaces(outcome, r.events);
      EventsOfOneMore(outcome, before, r);
      BesideSize(|before|, Places(outcome, r.events));
      hide Failing, SpeaksOfFailure, Places, Beside, EventsOf;
    }
  }

  lemma IndependentIff(reports: seq<Report>)
    ensures Independent(reports) <==> UnlikeFailures(reports)
  {
    forall r
      ensures Failing(r) <==> SpeaksOfFailure(r)
    {
      FailingIff(r);
    }
    hide Failing, SpeaksOfFailure;
    TwoOf(Sources(reports));
    TwoOf(Protocols(reports));
    TwoOf(Servers(reports));
    if UnlikeFailures(reports) {
      var i: nat, j: nat :|
        i in FailedReports(reports) && j in FailedReports(reports) && Unlike(reports[i], reports[j]);
      UnlikeIsIndependent(reports, reports[i], reports[j]);
    }
    if Independent(reports) {
      IndependentIsUnlike(reports);
    }
  }

  lemma UnlikeIsIndependent(reports: seq<Report>, a: Report, b: Report)
    requires a in reports && b in reports && Failing(a) && Failing(b) && Unlike(a, b)
    ensures Independent(reports)
  {
    hide Failing;
    TwoOf(Sources(reports));
    TwoOf(Protocols(reports));
    TwoOf(Servers(reports));
    assert ServerOf(a) in Servers(reports) && ServerOf(b) in Servers(reports);
    if a.proxy.Some? && b.proxy.Some? {
      assert a.proxy.value.source in Sources(reports) && b.proxy.value.source in Sources(reports);
      assert a.proxy.value.protocol in Protocols(reports) && b.proxy.value.protocol in Protocols(reports);
    }
  }

  lemma UnlikePair(reports: seq<Report>, a: Report, b: Report)
    requires a in reports && b in reports && Failing(a) && Failing(b) && Unlike(a, b)
    ensures UnlikeFailures(reports)
  {
    FailingIff(a);
    FailingIff(b);
    hide Failing, SpeaksOfFailure, Unlike;
    var i: nat :| i < |reports| && reports[i] == a;
    var j: nat :| j < |reports| && reports[j] == b;
    assert i in FailedReports(reports) && j in FailedReports(reports);
  }

  lemma IndependentIsUnlike(reports: seq<Report>)
    requires Independent(reports)
    ensures UnlikeFailures(reports)
  {
    hide Failing, UnlikeFailures;
    TwoOf(Sources(reports));
    TwoOf(Protocols(reports));
    TwoOf(Servers(reports));
    if |Sources(reports)| >= 2 {
      var x, y :| x in Sources(reports) && y in Sources(reports) && x != y;
      var a :| a in reports && Failing(a) && a.proxy.Some? && a.proxy.value.source == x;
      var b :| b in reports && Failing(b) && b.proxy.Some? && b.proxy.value.source == y;
      UnlikePair(reports, a, b);
    } else if |Protocols(reports)| >= 2 {
      var x, y :| x in Protocols(reports) && y in Protocols(reports) && x != y;
      var a :| a in reports && Failing(a) && a.proxy.Some? && a.proxy.value.protocol == x;
      var b :| b in reports && Failing(b) && b.proxy.Some? && b.proxy.value.protocol == y;
      UnlikePair(reports, a, b);
    } else {
      var x, y :| x in Servers(reports) && y in Servers(reports) && x != y;
      var a :| a in reports && Failing(a) && ServerOf(a) == x;
      var b :| b in reports && Failing(b) && ServerOf(b) == y;
      UnlikePair(reports, a, b);
    }
  }

  /** The verdict does not depend on the order in which the reports arrive. */
  lemma VerdictOrderFree(a: seq<Report>, b: seq<Report>, threshold: nat)
    requires multiset(a) == multiset(b)
    ensures Verdict(a, threshold) == Verdict(b, threshold)
  {
    TotalPermutation((r: Report) => One(r), a, b);
    TotalPermutation((r: Report) => Count(DnsFailure, r), a, b);
    TotalPermutation((r: Report) => Count(EndpointFailure, r), a, b);
    assert |multiset(a)| == |a| && |multiset(b)| == |b|;
    forall r
      ensures r in a <==> r in b
    {
      assert r in a <==> r in multiset(a);
      assert r in b <==> r in multiset(b);
    }
    assert Sources(a) == Sources(b) && Protocols(a) == Protocols(b) && Servers(a) == Servers(b);
  }

  lemma {:induction false} TotalSnoc(f: Report -> real, s: seq<Report>, r: Report)
    ensures Total(f, s + [r]) == Total(f, s) + f(r)
  {
    if |s| == 0 {
      assert s + [r] == [r] && [r][1..] == [];
    } else {
      assert (s + [r])[1..] == s[1..] + [r];
      TotalSnoc(f, s[1..], r);
    }
  }

  lemma {:induction false} FailedCountBound(reports: seq<Report>)
    ensures 0.0 <= FailedCount(reports) <= |reports| as real
  {
    if |reports| > 0 {
      FailedCountBound(reports[1..]);
    }
  }

  /** One more failing report never withdraws an incident. */
  lemma VerdictSurvivesFailure(reports: seq<Report>, r: Report, threshold: nat)
    requires Verdict(reports, threshold).Some? && Failing(r)
    ensures Verdict(reports + [r], threshold).Some?
  {
    var more := reports + [r];
    TotalSnoc((x: Report) => One(x), reports, r);
    FailedCountBound(reports);
    assert threshold <= 100 by {
      if threshold > 100 {
        ProductGrows(|reports|, threshold);
      }
    }
    assert |more| * threshold == |reports| * threshold + threshold;
    assert Sources(reports) <= Sources(more) && Protocols(reports) <= Protocols(more);
    assert Servers(reports) <= Servers(more);
    SubsetSize(Sources(reports), Sources(more));
    SubsetSize(Protocols(reports), Protocols(more));
    SubsetSize(Servers(reports), Servers(more));
  }

  lemma ProductGrows(n: nat, threshold: nat)
    requires n > 0 && threshold > 100
    ensures n * threshold > n * 100
  {
    assert n * (threshold - 100) > 0;
  }

  // ---- The classifier as the scheduler runs it ----

  /** One pass over the reports, accumulating sets and counters. */
  method CorrelatedIncident(reports: seq<Report>, threshold: nat) returns (verdict: Option<Reason>)
    ensures verdict == Verdict(reports, threshold)
  {
    hide FailedCount, ClassCount, Sources, Protocols, Servers, Failing, CountOf;
    if |reports| < 3 {
      return None;
    }
    hide Verdict;
    NoReports(reports);
    var failed, dns, endpoint := 0, 0, 0;
    var sources: set<string>, protocols: set<string>, servers: set<Server> := {}, {}, {};
    for i := 0 to |reports|
      invariant failed as real == FailedCount(reports[..i])
      invariant dns as real == ClassCount(DnsFailure, reports[..i])
      invariant endpoint as real == ClassCount(EndpointFailure, reports[..i])
      invariant sources == Sources(reports[..i]) && protocols == Protocols(reports[..i])
      invariant servers == Servers(reports[..i])
    {
      var r := reports[i];
      OneMoreReport(reports, i);
      if Failing(r) {
        failed := failed + 1;
        if r.proxy.Some? {
          sources := sources + {r.proxy.value.source};
          protocols := protocols + {r.proxy.value.protocol};
          servers := servers + {Address(r.proxy.value.address)};
        } else {
          servers := servers + {Unnamed(r.id)};
        }
        dns := dns + CountOf(DnsFailure, r.events);
        endpoint := endpoint + CountOf(EndpointFailure, r.events);
      }
    }
    assert reports[..|reports|] == reports;
    VerdictInNumbers(reports, threshold, failed, dns, endpoint);
    if failed * 100 < |reports| * threshold {
      return None;
    }
    if !(|sources| >= 2 || |protocols| >= 2 || |servers| >= 2) {
      return None;
    }
    if dns * 2 >= failed {
      return Some(DnsCluster);
    }
    if endpoint * 2 >= failed {
      return Some(EndpointCluster);
    }
    return Some(CrossSourceCluster);
  }

  lemma VerdictInNumbers(reports: seq<Report>, threshold: nat, failed: int, dns: int, endpoint: int)
    requires failed as real == FailedCount(reports) && dns as real == ClassCount(DnsFailure, reports)
    requires endpoint as real == ClassCount(EndpointFailure, reports)
    ensures Verdict(reports, threshold) ==
            if |reports| < 3 || failed * 100 < |reports| * threshold || !Independent(reports) then None
            else if dns * 2 >= failed then Some(DnsCluster)
            else if endpoint * 2 >= failed then Some(EndpointCluster)
            else Some(CrossSourceCluster)
  {
    hide FailedCount, ClassCount, Independent;
  }

  lemma NoReports(reports: seq<Report>)
    ensures FailedCount(reports[..0]) == 0.0
    ensures ClassCount(DnsFailure, reports[..0]) == ClassCount(EndpointFailure, reports[..0]) == 0.0
    ensures Sources(reports[..0]) == Protocols(reports[..0]) == {} && Servers(reports[..0]) == {}
  {
  }

  lemma OneMoreReport(reports: seq<Report>, i: nat)
    requires i < |reports|
    ensures var r, before, after := reports[i], reports[..i], reports[..i + 1];
      && FailedCount(after) == FailedCount(before) + One(r)
      && ClassCount(DnsFailure, after) == ClassCount(DnsFailure, before) + Count(DnsFailure, r)
      && ClassCount(EndpointFailure, after) == ClassCount(EndpointFailure, before) + Count(EndpointFailure, r)
      && Sources(after) == Sources(before) + (if Failing(r) && r.proxy.Some? then {r.proxy.value.source} else {})
      && Protocols(after) == Protocols(before) + (if Failing(r) && r.proxy.Some? then {r.proxy.value.protocol} else {})
      && Servers(after) == Servers(before) + (if Failing(r) then {ServerOf(r)} else {})
  {
    hide Failing, ServerOf;
    var r, before, after := reports[i], reports[..i], reports[..i + 1];
    assert after == before + [r];
    TotalSnoc((x: Report) => One(x), before, r);
    TotalSnoc((x: Report) => Count(DnsFailure, x), before, r);
    TotalSnoc((x: Report) => Count(EndpointFailure, x), before, r);
    assert forall x :: x in after <==> x in before || x == r;
  }
}
