/** Largest-remainder apportionment of one scheduler batch over the four queues. */
module Quota {
  import opened Ranking

  /** The percentage of the queue with this priority. */
  function Percent(i: nat): nat {
    match i
    case 0 => 40
    case 1 => 30
    case 2 => 20
    case _ => 10
  }

  datatype Slot = Slot(whole: nat, remainder: nat, priority: nat)

  datatype QueueQuota = QueueQuota(candidate: nat, probation: nat, dormant: nat, exploration: nat) {
    function At(i: nat): nat
      requires i < 4
    {
      [candidate, probation, dormant, exploration][i]
    }
  }

  function SlotAt(capacity: nat, i: nat): Slot
    requires i < 4
  {
    Slot(capacity * Percent(i) / 100, capacity * Percent(i) % 100, i)
  }

  predicate ByRemainder(a: Slot, b: Slot) {
    a.remainder > b.remainder || (a.remainder == b.remainder && a.priority < b.priority)
  }

  predicate ByPriority(a: Slot, b: Slot) {
    a.priority < b.priority
  }

  /** How many queues have a larger remainder, ties going to the higher priority. */
  function Rank(capacity: nat, i: nat): nat
    requires i < 4
  {
    var s := SlotAt(capacity, i);
    (if ByRemainder(SlotAt(capacity, 0), s) then 1 else 0) + (if ByRemainder(SlotAt(capacity, 1), s) then 1 else 0)
    + (if ByRemainder(SlotAt(capacity, 2), s) then 1 else 0) + (if ByRemainder(SlotAt(capacity, 3), s) then 1 else 0)
  }

  function Allocated(capacity: nat): nat {
    SlotAt(capacity, 0).whole + SlotAt(capacity, 1).whole + SlotAt(capacity, 2).whole + SlotAt(capacity, 3).whole
  }

  /** The share of queue `i`: its exact share rounded down, plus one if its remainder is among the largest. */
  function Share(capacity: nat, i: nat): nat
    requires i < 4
  {
    SlotAt(capacity, i).whole + (if Rank(capacity, i) < capacity - Allocated(capacity) then 1 else 0)
  }

  // ---- The algorithm ----

  predicate Sorted(s: seq<Slot>, before: (Slot, Slot) -> bool) {
    forall i, j | 0 <= i < j < |s| :: before(s[i], s[j])
  }

  /** `to` holds the rows of `from`, which has pairwise different priorities. */
  predicate Shuffled(from: seq<Slot>, to: seq<Slot>) {
    && |from| == |to|
    && (forall i | 0 <= i < |to| :: to[i] in from)
    && (forall i, j | 0 <= i < j < |to| :: to[i].priority != to[j].priority)
  }

  function Swapped(s: seq<Slot>, k: nat): seq<Slot>
    requires 0 < k < |s|
  {
    s[k - 1 := s[k]][k := s[k - 1]]
  }

  /** `s` is sorted up to `i`, not counting position `k`. */
  predicate SortedBut(s: seq<Slot>, before: (Slot, Slot) -> bool, i: nat, k: nat)
    requires i < |s|
  {
    forall j, m | 0 <= j < m <= i && m != k :: before(s[j], s[m])
  }

  lemma SwapKeeps(from: seq<Slot>, s: seq<Slot>, before: (Slot, Slot) -> bool, i: nat, k: nat)
    requires Shuffled(from, s) && 0 < k <= i < |s| && SortedBut(s, before, i, k) && before(s[k], s[k - 1])
    ensures Shuffled(from, Swapped(s, k)) && SortedBut(Swapped(s, k), before, i, k - 1)
  {
  }

  lemma InPlace(from: seq<Slot>, s: seq<Slot>, before: (Slot, Slot) -> bool, i: nat, k: nat)
    requires StrictTotal(Elements(from), before) && Shuffled(from, s) && k <= i < |s|
    requires SortedBut(s, before, i, k) && (k > 0 ==> !before(s[k], s[k - 1]))
    ensures Sorted(s[..i + 1], before)
  {
    forall j, m | 0 <= j < m <= i
      ensures before(s[j], s[m])
    {
      if m == k {
        assert s[k - 1] in Elements(from) && s[k] in Elements(from) && s[j] in Elements(from);
      }
    }
  }

  /** `sort_by_key` on the four slots; the priorities make every key different. */
  method SortBy(a: array<Slot>, before: (Slot, Slot) -> bool)
    requires StrictTotal(Elements(a[..]), before)
    requires forall i, j :: 0 <= i < j < a.Length ==> a[i].priority != a[j].priority
    modifies a
    ensures Shuffled(old(a[..]), a[..]) && Sorted(a[..], before)
  {
    hide StrictTotal;
    ghost var from := a[..];
    for i := 0 to a.Length
      invariant Shuffled(from, a[..]) && Sorted(a[..i], before)
    {
      var k := i;
      while k > 0 && before(a[k], a[k - 1])
        invariant 0 <= k <= i
        invariant Shuffled(from, a[..]) && SortedBut(a[..], before, i, k)
      {
        SwapKeeps(from, a[..], before, i, k);
        ghost var s := a[..];
        a[k - 1], a[k] := a[k], a[k - 1];
        assert a[..] == Swapped(s, k);
        k := k - 1;
      }
      InPlace(from, a[..], before, i, k);
      assert a[..][..i + 1] == a[..i + 1];
    }
    assert a[..a.Length] == a[..];
  }

  function Slots(capacity: nat): seq<Slot> {
    [SlotAt(capacity, 0), SlotAt(capacity, 1), SlotAt(capacity, 2), SlotAt(capacity, 3)]
  }

  lemma SlotOrders(rows: set<Slot>)
    requires forall a, b :: a in rows && b in rows && a != b ==> a.priority != b.priority
    ensures StrictTotal(rows, ByRemainder) && StrictTotal(rows, ByPriority)
  {
  }

  lemma FourSlots(capacity: nat, s: Slot)
    requires s in Slots(capacity)
    ensures s.priority < 4 && s == SlotAt(capacity, s.priority)
  {
    hide SlotAt;
    SlotPriorities(capacity);
  }

  function Ahead(a: Slot, b: Slot): nat {
    if ByRemainder(a, b) then 1 else 0
  }

  ghost predicate OfCapacity(capacity: nat, slots: seq<Slot>) {
    && |slots| == 4
    && (forall k | 0 <= k < 4 :: slots[k].priority < 4 && slots[k] == SlotAt(capacity, slots[k].priority))
    && (forall i, j | 0 <= i < j < 4 :: slots[i].priority != slots[j].priority)
  }

  lemma ShuffledSlots(capacity: nat, slots: seq<Slot>)
    requires Shuffled(Slots(capacity), slots)
    ensures OfCapacity(capacity, slots)
  {
    hide SlotAt;
    forall k | 0 <= k < 4
      ensures slots[k].priority < 4 && slots[k] == SlotAt(capacity, slots[k].priority)
    {
      FourSlots(capacity, slots[k]);
    }
  }

  /** In a sorted sequence of the four slots, each stands at its rank. */
  lemma StandsAtRank(capacity: nat, sorted: seq<Slot>, k: nat)
    requires OfCapacity(capacity, sorted) && Sorted(sorted, ByRemainder) && k < 4
    ensures Rank(capacity, sorted[k].priority) == k
  {
    hide SlotAt;
    var s := sorted[k];
    CountByPosition(capacity, sorted, s);
    assert Ahead(sorted[0], s) == (if 0 < k then 1 else 0);
    assert Ahead(sorted[1], s) == (if 1 < k then 1 else 0);
    assert Ahead(sorted[2], s) == (if 2 < k then 1 else 0);
    assert Ahead(sorted[3], s) == 0;
  }

  /** Counting over the sorted sequence is counting over the slots. */
  lemma CountByPosition(capacity: nat, sorted: seq<Slot>, s: Slot)
    requires OfCapacity(capacity, sorted)
    ensures Ahead(SlotAt(capacity, 0), s) + Ahead(SlotAt(capacity, 1), s)
            + Ahead(SlotAt(capacity, 2), s) + Ahead(SlotAt(capacity, 3), s)
         == Ahead(sorted[0], s) + Ahead(sorted[1], s) + Ahead(sorted[2], s) + Ahead(sorted[3], s)
  {
    hide SlotAt, Ahead;
    var p := [sorted[0].priority, sorted[1].priority, sorted[2].priority, sorted[3].priority];
    assert sorted[0] == SlotAt(capacity, p[0]) && sorted[1] == SlotAt(capacity, p[1])
        && sorted[2] == SlotAt(capacity, p[2]) && sorted[3] == SlotAt(capacity, p[3]);
    assert p[0] != p[1] && p[0] != p[2] && p[0] != p[3] && p[1] != p[2] && p[1] != p[3] && p[2] != p[3];
    var f := (i: nat) requires i < 4 => Ahead(SlotAt(capacity, i), s);
    assert f(0) + f(1) + f(2) + f(3) == f(p[0]) + f(p[1]) + f(p[2]) + f(p[3]);
  }

  function Bumped(s: Slot, extra: bool): Slot {
    if extra then s.(whole := s.whole + 1) else s
  }

  /** Giving the first slots one more leaves every slot with its queue's share. */
  lemma BumpedSlots(capacity: nat, sorted: seq<Slot>, bumped: seq<Slot>)
    requires OfCapacity(capacity, sorted) && Sorted(sorted, ByRemainder) && |bumped| == 4
    requires forall k | 0 <= k < 4 :: bumped[k] == Bumped(sorted[k], k < capacity - Allocated(capacity))
    ensures AllShares(capacity, bumped)
  {
    hide SlotAt, Rank, Allocated, Sorted;
    forall k | 0 <= k < 4
      ensures bumped[k].priority == sorted[k].priority && bumped[k].whole == Share(capacity, bumped[k].priority)
    {
      StandsAtRank(capacity, sorted, k);
    }
  }

  /** One slot a queue, each holding that queue's share. */
  ghost predicate AllShares(capacity: nat, slots: seq<Slot>) {
    && |slots| == 4
    && (forall k | 0 <= k < 4 :: slots[k].priority < 4 && slots[k].whole == Share(capacity, slots[k].priority))
    && (forall i, j | 0 <= i < j < 4 :: slots[i].priority != slots[j].priority)
  }

  lemma InQueueOrder(capacity: nat, slots: seq<Slot>, sorted: seq<Slot>)
    requires AllShares(capacity, slots) && Shuffled(slots, sorted) && Sorted(sorted, ByPriority)
    ensures forall k | 0 <= k < 4 :: sorted[k].whole == Share(capacity, k)
  {
    hide Share;
    forall k | 0 <= k < 4
      ensures sorted[k].priority < 4 && sorted[k].whole == Share(capacity, sorted[k].priority)
    {
    }
    assert sorted[0].priority < sorted[1].priority < sorted[2].priority < sorted[3].priority;
  }

  method RoundedDown(capacity: nat) returns (quotas: array<Slot>, whole: nat)
    ensures fresh(quotas) && quotas.Length == 4
    ensures quotas[..] == Slots(capacity) && whole == Allocated(capacity)
  {
    quotas := new Slot[4] [
      Slot(capacity * 40 / 100, capacity * 40 % 100, 0),
      Slot(capacity * 30 / 100, capacity * 30 % 100, 1),
      Slot(capacity * 20 / 100, capacity * 20 % 100, 2),
      Slot(capacity * 10 / 100, capacity * 10 % 100, 3)];
    whole := quotas[0].whole + quotas[1].whole + quotas[2].whole + quotas[3].whole;
  }

  method ForCapacity(capacity: nat) returns (q: QueueQuota)
    ensures forall i | 0 <= i < 4 :: q.At(i) == Share(capacity, i)
  {
    hide Share, Shuffled, Sorted, StrictTotal, AllShares, Rank;
    hide SlotAt, Slots, Allocated;
    var quotas, whole := RoundedDown(capacity);
    DistinctPriorities(capacity);
    SortBy(quotas, ByRemainder);
    ghost var sorted := quotas[..];
    ShuffledSlots(capacity, sorted);
    var extra := if capacity > whole then capacity - whole else 0;
    for i := 0 to if extra < 4 then extra else 4
      invariant forall k :: 0 <= k < 4 ==> quotas[k] == Bumped(sorted[k], k < i)
    {
      quotas[i] := quotas[i].(whole := quotas[i].whole + 1);
    }
    ghost var bumped := quotas[..];
    BumpedSlots(capacity, sorted, bumped);
    SharesAreSortable(capacity, bumped);
    SortBy(quotas, ByPriority);
    InQueueOrder(capacity, bumped, quotas[..]);
    assert forall k | 0 <= k < 4 :: quotas[..][k].whole == Share(capacity, k);
    q := QueueQuota(quotas[0].whole, quotas[1].whole, quotas[2].whole, quotas[3].whole);
  }

  lemma DistinctPriorities(capacity: nat)
    ensures StrictTotal(Elements(Slots(capacity)), ByRemainder)
    ensures forall i, j :: 0 <= i < j < 4 ==> Slots(capacity)[i].priority != Slots(capacity)[j].priority
  {
    hide SlotAt;
    SlotPriorities(capacity);
    SlotOrders(Elements(Slots(capacity)));
  }

  lemma SharesAreSortable(capacity: nat, slots: seq<Slot>)
    requires AllShares(capacity, slots)
    ensures StrictTotal(Elements(slots), ByPriority)
    ensures forall i, j :: 0 <= i < j < 4 ==> slots[i].priority != slots[j].priority
  {
    hide Share;
    SlotOrders(Elements(slots));
  }

  // ---- What the apportionment guarantees ----

  lemma Hundreds(x: nat, k: nat, y: nat)
    requires x == 100 * k + y
    ensures x / 100 == k + y / 100 && x % 100 == y % 100
  {
  }

  /** Ten more units of capacity change no remainder and give the queues 4, 3, 2 and 1 more. */
  lemma SlotPeriod(q: nat, d: nat, i: nat)
    requires i < 4
    ensures SlotAt(10 * q + d, i) == SlotAt(d, i).(whole := (4 - i) * q + SlotAt(d, i).whole)
  {
    Hundreds((10 * q + d) * Percent(i), (4 - i) * q, d * Percent(i));
  }

  lemma SharePeriod(q: nat, d: nat)
    ensures Share(10 * q + d, 0) == 4 * q + Share(d, 0) && Share(10 * q + d, 1) == 3 * q + Share(d, 1)
    ensures Share(10 * q + d, 2) == 2 * q + Share(d, 2) && Share(10 * q + d, 3) == q + Share(d, 3)
  {
    hide SlotAt, Rank;
    SlotPeriod(q, d, 0);
    SlotPeriod(q, d, 1);
    SlotPeriod(q, d, 2);
    SlotPeriod(q, d, 3);
    SameRanks(10 * q + d, d);
  }

  /** Ranks look at the remainders alone. */
  lemma SameRanks(a: nat, b: nat)
    requires SlotAt(a, 0).remainder == SlotAt(b, 0).remainder && SlotAt(a, 1).remainder == SlotAt(b, 1).remainder
    requires SlotAt(a, 2).remainder == SlotAt(b, 2).remainder && SlotAt(a, 3).remainder == SlotAt(b, 3).remainder
    ensures Rank(a, 0) == Rank(b, 0) && Rank(a, 1) == Rank(b, 1) && Rank(a, 2) == Rank(b, 2) && Rank(a, 3) == Rank(b, 3)
  {
    hide SlotAt;
    SlotPriorities(a);
    SlotPriorities(b);
  }

  lemma SlotPriorities(capacity: nat)
    ensures SlotAt(capacity, 0).priority == 0 && SlotAt(capacity, 1).priority == 1
    ensures SlotAt(capacity, 2).priority == 2 && SlotAt(capacity, 3).priority == 3
  {
  }

  /** The shares of a batch smaller than ten. */
  function SmallShare(d: nat): seq<nat>
    requires d < 10
  {
    [[0, 0, 0, 0], [1, 0, 0, 0], [1, 1, 0, 0], [1, 1, 1, 0], [2, 1, 1, 0],
     [2, 2, 1, 0], [2, 2, 1, 1], [3, 2, 1, 1], [3, 2, 2, 1], [3, 3, 2, 1]][d]
  }

  lemma SmallSlots(d: nat)
    requires d < 10
    ensures SlotAt(d, 0) == Slot([0, 0, 0, 1, 1, 2, 2, 2, 3, 3][d], [0, 40, 80, 20, 60, 0, 40, 80, 20, 60][d], 0)
    ensures SlotAt(d, 1) == Slot([0, 0, 0, 0, 1, 1, 1, 2, 2, 2][d], [0, 30, 60, 90, 20, 50, 80, 10, 40, 70][d], 1)
    ensures SlotAt(d, 2) == Slot([0, 0, 0, 0, 0, 1, 1, 1, 1, 1][d], [0, 20, 40, 60, 80, 0, 20, 40, 60, 80][d], 2)
    ensures SlotAt(d, 3) == Slot(0, [0, 10, 20, 30, 40, 50, 60, 70, 80, 90][d], 3)
  {
  }

  lemma SmallShares(d: nat)
    requires d < 10
    ensures SmallShare(d) == [Share(d, 0), Share(d, 1), Share(d, 2), Share(d, 3)]
  {
    hide SlotAt;
    SmallSlots(d);
    if d < 3 {
    } else if d < 6 {
    } else {
    }
  }

  /** Shares by the tens and the last digit of the capacity. */
  lemma SharesByDigit(capacity: nat)
    ensures var q, s := capacity / 10, SmallShare(capacity % 10);
      && |s| == 4
      && Share(capacity, 0) == 4 * q + s[0] && Share(capacity, 1) == 3 * q + s[1]
      && Share(capacity, 2) == 2 * q + s[2] && Share(capacity, 3) == q + s[3]
  {
    hide Share, SmallShare;
    SharePeriod(capacity / 10, capacity % 10);
    SmallShares(capacity % 10);
  }

  /** Small batches: the shares add up, fall with the priority, are rounded exact shares,
      and are a minimum of the distance with slope `Slope(d)`. */
  lemma SmallSharesAreFair(d: nat)
    requires d < 10
    ensures var s := SmallShare(d);
      && s[0] + s[1] + s[2] + s[3] == d && s[0] >= s[1] >= s[2] >= s[3]
      && Abs(100 * s[0] - 40 * d) < 100 && Abs(100 * s[1] - 30 * d) < 100
      && Abs(100 * s[2] - 20 * d) < 100 && Abs(100 * s[3] - 10 * d) < 100
  {
  }

  /** The shares use the capacity exactly, each is its exact share rounded up or down,
      and no queue gets less than a queue after it. */
  lemma SharesAreFair(capacity: nat)
    ensures Share(capacity, 0) + Share(capacity, 1) + Share(capacity, 2) + Share(capacity, 3) == capacity
    ensures Share(capacity, 0) >= Share(capacity, 1) >= Share(capacity, 2) >= Share(capacity, 3)
    ensures Abs(100 * Share(capacity, 0) - 40 * capacity) < 100 && Abs(100 * Share(capacity, 1) - 30 * capacity) < 100
    ensures Abs(100 * Share(capacity, 2) - 20 * capacity) < 100 && Abs(100 * Share(capacity, 3) - 10 * capacity) < 100
  {
    hide Share, SmallShare;
    SharesByDigit(capacity);
    SmallSharesAreFair(capacity % 10);
  }

  predicate OneMoreAt(capacity: nat, i: nat) {
    && Share(capacity + 1, 0) == Share(capacity, 0) + (if i == 0 then 1 else 0)
    && Share(capacity + 1, 1) == Share(capacity, 1) + (if i == 1 then 1 else 0)
    && Share(capacity + 1, 2) == Share(capacity, 2) + (if i == 2 then 1 else 0)
    && Share(capacity + 1, 3) == Share(capacity, 3) + (if i == 3 then 1 else 0)
  }

  function Winner(d: nat): (i: nat)
    requires d < 10
    ensures i < 4
  {
    [0, 1, 2, 0, 1, 3, 0, 2, 1, 0][d]
  }

  lemma SmallOneMore(d: nat)
    requires d < 10
    ensures var s, s', w := SmallShare(d), SmallShare((d + 1) % 10), Winner(d);
      var carry := if d == 9 then 1 else 0;
      && 4 * carry + s'[0] == s[0] + (if w == 0 then 1 else 0)
      && 3 * carry + s'[1] == s[1] + (if w == 1 then 1 else 0)
      && 2 * carry + s'[2] == s[2] + (if w == 2 then 1 else 0)
      && carry + s'[3] == s[3] + (if w == 3 then 1 else 0)
  {
    if d < 5 {
    } else {
    }
  }

  /** One more unit of capacity goes to exactly one queue and is taken from none. */
  lemma OneMoreSlot(capacity: nat)
    ensures exists i: nat | i < 4 :: OneMoreAt(capacity, i)
  {
    hide Share, SmallShare, Winner;
    var d := capacity % 10;
    SharesByDigit(capacity);
    SharesByDigit(capacity + 1);
    SmallOneMore(d);
    assert (capacity + 1) / 10 == capacity / 10 + (if d == 9 then 1 else 0);
    var w := Winner(d);
    assert OneMoreAt(capacity, w);
  }

  function Abs(x: int): nat {
    if x < 0 then -x else x
  }

  /** Distance, in hundredths of a slot, from the exact shares. */
  function Distance(capacity: nat, a: int, b: int, c: int, d: int): nat {
    Abs(100 * a - 40 * capacity) + Abs(100 * b - 30 * capacity)
    + Abs(100 * c - 20 * capacity) + Abs(100 * d - 10 * capacity)
  }

  function Slope(d: nat): int {
    if d == 1 then 30 else if d == 9 then -30 else 0
  }

  /** `Distance` lies above its supporting line at the chosen shares, coordinate by coordinate. */
  lemma AboveTheLine(d: nat, i: nat, x: int)
    requires d < 10 && i < 4
    ensures Abs(100 * x - Percent(i) * d)
         >= Abs(100 * SmallShare(d)[i] - Percent(i) * d) + Slope(d) * (x - SmallShare(d)[i])
  {
  }

  lemma ClosestByDigit(d: nat, a: int, b: int, c: int, e: int)
    requires d < 10 && a + b + c + e == d
    ensures var s := SmallShare(d); Distance(d, s[0], s[1], s[2], s[3]) <= Distance(d, a, b, c, e)
  {
    hide SmallShare, Abs;
    SmallSharesAreFair(d);
    AboveTheLine(d, 0, a);
    AboveTheLine(d, 1, b);
    AboveTheLine(d, 2, c);
    AboveTheLine(d, 3, e);
  }

  /** No other way to split the capacity comes closer to the exact shares. */
  lemma SharesAreClosest(capacity: nat, a: int, b: int, c: int, d: int)
    requires a + b + c + d == capacity
    ensures Distance(capacity, Share(capacity, 0), Share(capacity, 1), Share(capacity, 2), Share(capacity, 3))
         <= Distance(capacity, a, b, c, d)
  {
    hide Share, SmallShare, Abs;
    var q := capacity / 10;
    SharesByDigit(capacity);
    ClosestByDigit(capacity % 10, a - 4 * q, b - 3 * q, c - 2 * q, d - q);
  }
}
