/** Testing one scheduler cohort: cheap preflight per proxy, then one shared process for the rest. */
module Cohort {
  import opened Domain
  import opened Bisection

  /** What parsing and the DNS/TCP preflight say about one configuration. */
  datatype Preflight = Rejected | Blocked(failure: FailureClass) | Passed(proxy: string)

  datatype Entry = Entry(id: NodeId, preflight: Preflight, downloadDue: bool)

  datatype Finding = Malformed | Unreached(failure: FailureClass) | Pending | Ran(outcome: Outcome)

  function Initial(e: Entry): Finding {
    match e.preflight
    case Rejected => Malformed
    case Blocked(failure) => Unreached(failure)
    case Passed(_) => Pending
  }

  predicate DistinctIds(entries: seq<Entry>) {
    forall i, j | 0 <= i < j < |entries| :: entries[i].id != entries[j].id
  }

  function SurvivorOf(e: Entry): Survivor
    requires e.preflight.Passed?
  {
    Survivor(e.id, e.preflight.proxy, e.downloadDue)
  }

  /** The entries that reach the shared process, in order. */
  function Reaching(entries: seq<Entry>): seq<Survivor> {
    if |entries| == 0 then []
    else
      var n := |entries| - 1;
      Reaching(entries[..n]) + (if entries[n].preflight.Passed? then [SurvivorOf(entries[n])] else [])
  }

  lemma {:induction false} ReachingSpec(entries: seq<Entry>, s: Survivor)
    ensures s in Reaching(entries) <==> exists e :: e in entries && e.preflight.Passed? && SurvivorOf(e) == s
  {
    if |entries| > 0 {
      var n := |entries| - 1;
      ReachingSpec(entries[..n], s);
      assert entries == entries[..n] + [entries[n]];
    }
  }

  /** What the result of the shared process says about one entry's finding. */
  ghost predicate Settled(e: Entry, f: Finding, results: seq<Result>) {
    if e.preflight.Passed? then
      f.Ran? && Result(SurvivorOf(e), f.outcome) in results
    else f == Initial(e)
  }

  lemma EverySurvivorReported(results: seq<Result>, survivors: seq<Survivor>, s: Survivor)
    requires multiset(Survivors(results)) == multiset(survivors)
    ensures s in survivors <==> exists r :: r in results && r.survivor == s
  {
    assert s in survivors <==> s in multiset(survivors);
    assert s in Survivors(results) <==> s in multiset(Survivors(results));
    if s in Survivors(results) {
      var k :| 0 <= k < |results| && Survivors(results)[k] == s;
      assert results[k] in results && results[k].survivor == s;
    }
    forall r | r in results && r.survivor == s
      ensures s in Survivors(results)
    {
      var k :| 0 <= k < |results| && results[k] == r;
      assert Survivors(results)[k] == s;
    }
  }

  /** Reports arrive in any order; each replaces the pending finding of its own entry. */
  method Merge(initial: map<NodeId, Finding>, results: seq<Result>,
               ghost entries: seq<Entry>)
    returns (findings: map<NodeId, Finding>)
    requires forall e :: e in entries ==> e.id in initial
    requires multiset(Survivors(results)) == multiset(Reaching(entries))
    requires DistinctIds(entries) ==> forall e :: e in entries ==> initial[e.id] == Initial(e)
    ensures findings.Keys == initial.Keys
    ensures DistinctIds(entries) ==> forall e :: e in entries ==> Settled(e, findings[e.id], results)
  {
    hide Reaching, Survivors;
    findings := initial;
    for i := 0 to |results|
      invariant findings.Keys == initial.Keys
      invariant DistinctIds(entries) ==> forall e :: e in entries ==>
        Settled(e, findings[e.id], results[..i])
        || (findings[e.id] == Initial(e) && forall r :: r in results[..i] ==> r.survivor.id != e.id)
    {
      var r := results[i];
      assert results[..i + 1] == results[..i] + [r];
      ghost var before := findings;
      if r.survivor.id in findings {
        findings := findings[r.survivor.id := Ran(r.outcome)];
      }
      if DistinctIds(entries) {
        forall e | e in entries
          ensures Settled(e, findings[e.id], results[..i + 1])
                  || (findings[e.id] == Initial(e) && forall x :: x in results[..i + 1] ==> x.survivor.id != e.id)
        {
          OneMoreResult(entries, results, i, e);
          if e.id != r.survivor.id {
            assert findings[e.id] == before[e.id];
          }
        }
      }
    }
    assert results[..|results|] == results;
    if DistinctIds(entries) {
      forall e | e in entries
        ensures Settled(e, findings[e.id], results)
      {
        if e.preflight.Passed? {
          ReachingSpec(entries, SurvivorOf(e));
          EverySurvivorReported(results, Reaching(entries), SurvivorOf(e));
        }
      }
    }
  }

  /** A report that carries an entry's id is the report of that entry. */
  lemma OneMoreResult(entries: seq<Entry>, results: seq<Result>, i: nat, e: Entry)
    requires DistinctIds(entries) && e in entries && i < |results|
    requires multiset(Survivors(results)) == multiset(Reaching(entries))
    ensures results[i].survivor.id == e.id ==> e.preflight.Passed? && results[i].survivor == SurvivorOf(e)
  {
    hide Reaching, Survivors;
    var s := results[i].survivor;
    EverySurvivorReported(results, Reaching(entries), s);
    ReachingSpec(entries, s);
  }

  /** The outcome of the whole cohort, when a start fails exactly on a bad proxy and ports suffice. */
  ghost predicate Blamed(e: Entry, f: Finding, bad: set<string>) {
    e.preflight.Passed? && f.Ran? ==>
      if e.preflight.proxy in bad then f.outcome == StartFailed
      else f.outcome == Tested(e.preflight.proxy, e.downloadDue)
  }

  /** `entries` are the preflight results in the order in which they complete. */
  method TestBatch(prober: Prober, entries: seq<Entry>, ghost bad: set<string>) returns (findings: map<NodeId, Finding>)
    modifies prober, prober.pool
    ensures prober.pool.reserved == old(prober.pool.reserved)
    ensures findings.Keys == set e | e in entries :: e.id
    ensures DistinctIds(entries) ==> forall e :: e in entries ==> !findings[e.id].Pending?
    ensures DistinctIds(entries) ==> forall e :: e in entries ==>
              match e.preflight
              case Rejected => findings[e.id] == Malformed
              case Blocked(failure) => findings[e.id] == Unreached(failure)
              case Passed(proxy) =>
                && findings[e.id].Ran?
                && (findings[e.id].outcome.Tested? ==> findings[e.id].outcome == Tested(proxy, e.downloadDue))
    ensures DistinctIds(entries) && prober.FailsOnBad(bad) && old(prober.PortsSuffice(|Reaching(entries)|)) ==>
              forall e :: e in entries ==> Blamed(e, findings[e.id], bad)
  {
    hide Reaching;
    var initial: map<NodeId, Finding> := map[];
    var survivors: seq<Survivor> := [];
    Nobody(entries);
    for i := 0 to |entries|
      invariant prober.pool.reserved == old(prober.pool.reserved)
      invariant survivors == Reaching(entries[..i])
      invariant initial.Keys == set e | e in entries[..i] :: e.id
      invariant DistinctIds(entries) ==> forall k :: 0 <= k < i ==> initial[entries[k].id] == Initial(entries[k])
    {
      var e := entries[i];
      OneMoreEntry(entries, i);
      if e.preflight.Passed? {
        survivors := survivors + [SurvivorOf(e)];
      }
      initial := initial[e.id := Initial(e)];
    }
    assert entries[..|entries|] == entries;
    var results := prober.TestSurvivorBatch(survivors, bad);
    findings := Merge(initial, results, entries);
  }

  lemma Nobody(entries: seq<Entry>)
    ensures Reaching(entries[..0]) == []
  {
  }

  lemma OneMoreEntry(entries: seq<Entry>, i: nat)
    requires i < |entries|
    ensures Reaching(entries[..i + 1])
         == Reaching(entries[..i]) + (if entries[i].preflight.Passed? then [SurvivorOf(entries[i])] else [])
    ensures (set e | e in entries[..i + 1] :: e.id) == (set e | e in entries[..i] :: e.id) + {entries[i].id}
  {
    assert entries[..i + 1][..i] == entries[..i];
    assert entries[..i + 1] == entries[..i] + [entries[i]];
  }
}
