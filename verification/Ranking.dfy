/** `ORDER BY ... LIMIT k` over a finite set with a strict total order. */
module Ranking {
  ghost predicate StrictTotal<T(!new)>(rows: set<T>, before: (T, T) -> bool) {
    && (forall a :: a in rows ==> !before(a, a))
    && (forall a, b :: a in rows && b in rows && a != b ==> before(a, b) || before(b, a))
    && (forall a, b, c :: a in rows && b in rows && c in rows && before(a, b) && before(b, c) ==> before(a, c))
  }

  ghost predicate First<T(!new)>(rows: set<T>, before: (T, T) -> bool, b: T) {
    b in rows && forall r :: r in rows && r != b ==> before(b, r)
  }

  lemma {:induction false} FirstExists<T(!new)>(rows: set<T>, before: (T, T) -> bool)
    requires rows != {} && StrictTotal(rows, before)
    ensures exists b :: First(rows, before, b)
  {
    var a :| a in rows;
    var rest := rows - {a};
    assert forall r :: r in rows ==> r == a || r in rest;
    if rest == {} {
      assert First(rows, before, a);
    } else {
      FirstExists(rest, before);
      var b :| First(rest, before, b);
      if before(a, b) {
        assert First(rows, before, a);
      } else {
        assert First(rows, before, b);
      }
    }
  }

  /** The row the query returns first. */
  function Best<T(!new)>(rows: set<T>, before: (T, T) -> bool): (b: T)
    requires rows != {} && StrictTotal(rows, before)
    ensures First(rows, before, b)
  {
    FirstExists(rows, before);
    var b :| b in rows && forall r | r in rows && r != b :: before(b, r);
    b
  }

  /** The first `k` rows in order, or all of them. */
  function TopK<T(!new)>(rows: set<T>, before: (T, T) -> bool, k: nat): (r: seq<T>)
    requires StrictTotal(rows, before)
  {
    if k == 0 || rows == {} then []
    else
      var b := Best(rows, before);
      [b] + TopK(rows - {b}, before, k - 1)
  }

  function Elements<T>(s: seq<T>): set<T> {
    set x | x in s
  }

  ghost predicate Distinct<T>(s: seq<T>) {
    forall i, j :: 0 <= i < j < |s| ==> s[i] != s[j]
  }

  lemma TotalOnSubset<T(!new)>(rows: set<T>, sub: set<T>, before: (T, T) -> bool)
    requires StrictTotal(rows, before) && sub <= rows
    ensures StrictTotal(sub, before)
  {
  }

  lemma TopKUnfold<T(!new)>(rows: set<T>, before: (T, T) -> bool, k: nat, best: T)
    requires StrictTotal(rows, before) && k > 0 && rows != {} && best == Best(rows, before)
    ensures StrictTotal(rows - {best}, before)
    ensures TopK(rows, before, k) == [best] + TopK(rows - {best}, before, k - 1)
  {
    TotalOnSubset(rows, rows - {best}, before);
  }

  ghost predicate InOrder<T(!new)>(s: seq<T>, before: (T, T) -> bool) {
    forall i, j :: 0 <= i < j < |s| ==> before(s[i], s[j])
  }

  /** No row outside `s` outranks one in it. */
  ghost predicate Unbeaten<T(!new)>(rows: set<T>, s: seq<T>, before: (T, T) -> bool) {
    forall a, b :: a in s && b in rows && b !in s ==> before(a, b)
  }

  ghost predicate TopOf<T(!new)>(rows: set<T>, before: (T, T) -> bool, r: seq<T>) {
    && (forall x :: x in r ==> x in rows)
    && Distinct(r)
    && InOrder(r, before)
    && Unbeaten(rows, r, before)
  }

  lemma PrependFirst<T(!new)>(rows: set<T>, before: (T, T) -> bool, best: T, rest: seq<T>)
    requires First(rows, before, best) && TopOf(rows - {best}, before, rest)
    ensures TopOf(rows, before, [best] + rest)
  {
    var r := [best] + rest;
    assert forall i :: 0 < i < |r| ==> r[i] == rest[i - 1] && r[i] in rest;
    forall a, b | a in r && b in rows && b !in r
      ensures before(a, b)
    {
      assert b in rows - {best} && b !in rest;
    }
  }

  /** The query returns min(k, n) distinct rows, in order, none of which is outranked by a row left behind. */
  lemma {:induction false} TopKSpec<T(!new)>(rows: set<T>, before: (T, T) -> bool, k: nat)
    requires StrictTotal(rows, before)
    ensures |TopK(rows, before, k)| == (if k <= |rows| then k else |rows|)
    ensures TopOf(rows, before, TopK(rows, before, k))
  {
    if k != 0 && rows != {} {
      var best := Best(rows, before);
      TopKUnfold(rows, before, k, best);
      hide TopK, StrictTotal, TopOf;
      TopKSpec(rows - {best}, before, k - 1);
      PrependFirst(rows, before, best, TopK(rows - {best}, before, k - 1));
    }
  }

  lemma LeftBehind<T(!new)>(rows: set<T>, best: T, head: seq<T>)
    ensures rows - Elements([best] + head) == (rows - {best}) - Elements(head)
  {
    assert Elements([best] + head) == {best} + Elements(head);
  }

  /** Two passes over what is left return the same rows as one pass with the summed limit. */
  lemma {:induction false} TwoPasses<T(!new)>(rows: set<T>, before: (T, T) -> bool, a: nat, b: nat)
    requires StrictTotal(rows, before)
    ensures StrictTotal(rows - Elements(TopK(rows, before, a)), before)
    ensures TopK(rows, before, a) + TopK(rows - Elements(TopK(rows, before, a)), before, b) == TopK(rows, before, a + b)
    decreases rows, a, 1
  {
    TotalOnSubset(rows, rows - Elements(TopK(rows, before, a)), before);
    if a == 0 || rows == {} {
      assert TopK(rows, before, a) == [];
      assert rows - Elements([]) == rows;
    } else {
      TwoPassesStep(rows, before, a, b, Best(rows, before));
    }
  }

  lemma {:induction false} TwoPassesStep<T(!new)>(rows: set<T>, before: (T, T) -> bool, a: nat, b: nat, best: T)
    requires StrictTotal(rows, before) && a > 0 && rows != {} && best == Best(rows, before)
    ensures StrictTotal(rows - Elements(TopK(rows, before, a)), before)
    ensures TopK(rows, before, a) + TopK(rows - Elements(TopK(rows, before, a)), before, b) == TopK(rows, before, a + b)
    decreases rows, a, 0
  {
    hide TopK, StrictTotal, Elements;
    var rest := rows - {best};
    TopKUnfold(rows, before, a, best);
    TopKUnfold(rows, before, a + b, best);
    var head := TopK(rest, before, a - 1);
    TwoPasses(rest, before, a - 1, b);
    LeftBehind(rows, best, head);
    var tail := TopK(rest - Elements(head), before, b);
    assert ([best] + head) + tail == [best] + (head + tail);
  }

  lemma DistinctElements<T>(s: seq<T>)
    requires Distinct(s)
    ensures |Elements(s)| == |s|
  {
    if |s| == 0 {
    } else {
      var n := |s| - 1;
      DistinctElements(s[..n]);
      assert Elements(s) == Elements(s[..n]) + {s[n]};
      assert s[n] !in Elements(s[..n]);
    }
  }

  function SetMax(s: set<int>): (x: int)
    requires s != {}
    ensures x in s && forall y :: y in s ==> y <= x
  {
    Best(s, (a: int, b: int) => a > b)
  }

  // ---- Text order ----

  function LexLess(a: string, b: string): bool {
    if |b| == 0 then false
    else if |a| == 0 then true
    else a[0] < b[0] || (a[0] == b[0] && LexLess(a[1..], b[1..]))
  }

  lemma {:induction false} LexIrreflexive(a: string)
    ensures !LexLess(a, a)
  {
    if |a| > 0 {
      LexIrreflexive(a[1..]);
    }
  }

  lemma {:induction false} LexTotal(a: string, b: string)
    requires a != b
    ensures LexLess(a, b) || LexLess(b, a)
  {
    if |a| > 0 && |b| > 0 && a[0] == b[0] {
      assert a == [a[0]] + a[1..] && b == [b[0]] + b[1..];
      LexTotal(a[1..], b[1..]);
    }
  }

  lemma {:induction false} LexTransitive(a: string, b: string, c: string)
    requires LexLess(a, b) && LexLess(b, c)
    ensures LexLess(a, c)
  {
    if |a| > 0 && a[0] == b[0] == c[0] {
      LexTransitive(a[1..], b[1..], c[1..]);
    }
  }
}
