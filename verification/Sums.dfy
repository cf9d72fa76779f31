/** Sums over sequences do not depend on the order of the summands. */
module Sums {
  function Total<T>(f: T -> real, s: seq<T>): real {
    if |s| == 0 then 0.0 else f(s[0]) + Total(f, s[1..])
  }

  function Without<T>(s: seq<T>, k: nat): (r: seq<T>)
    requires k < |s|
    ensures |r| == |s| - 1
  {
    s[..k] + s[k + 1..]
  }

  lemma WithoutOne<T>(s: seq<T>, k: nat)
    requires k < |s|
    ensures multiset(Without(s, k)) == multiset(s) - multiset{s[k]}
    ensures s[k] in multiset(s)
  {
    assert s == s[..k] + [s[k]] + s[k + 1..];
  }

  lemma {:induction false} TotalWithout<T>(f: T -> real, s: seq<T>, k: nat)
    requires k < |s|
    ensures Total(f, s) == f(s[k]) + Total(f, Without(s, k))
  {
    if k == 0 {
      assert Without(s, 0) == s[1..];
    } else {
      TotalWithout(f, s[1..], k - 1);
      assert s[1..][k - 1] == s[k];
      assert Without(s, k)[0] == s[0];
      assert Without(s, k)[1..] == Without(s[1..], k - 1);
      hide Without;
    }
  }

  lemma {:induction false} TotalPermutation<T>(f: T -> real, a: seq<T>, b: seq<T>)
    requires multiset(a) == multiset(b)
    ensures Total(f, a) == Total(f, b)
  {
    if |a| == 0 {
      assert |multiset(b)| == |b|;
    } else {
      assert a[0] in multiset(b);
      var k :| 0 <= k < |b| && b[k] == a[0];
      assert Without(a, 0) == a[1..];
      WithoutOne(a, 0);
      WithoutOne(b, k);
      TotalPermutation(f, a[1..], Without(b, k));
      TotalWithout(f, b, k);
    }
  }
}
