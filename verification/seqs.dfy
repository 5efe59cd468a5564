/** Order-preserving filtering of sequences, the one collection primitive the
    table builder needs (pandas' boolean masks and `dropna`). */
module Seqs {

  /** The elements of `s` that satisfy `p`, in their original order. */
  function Filter<T(!new)>(s: seq<T>, p: T -> bool): (r: seq<T>)
    ensures |r| <= |s|
    ensures forall x :: x in r <==> x in s && p(x)
    ensures (exists i :: 0 <= i < |s| && !p(s[i])) ==> |r| < |s|
  {
    if |s| == 0 then []
    else if p(s[0]) then [s[0]] + Filter(s[1..], p)
    else Filter(s[1..], p)
  }

  /** Keys strictly increase from left to right. */
  ghost predicate IncreasingBy<T>(s: seq<T>, key: T -> int)
  {
    forall i, j :: 0 <= i < j < |s| ==> key(s[i]) < key(s[j])
  }

  /** Filtering twice is filtering once by the narrower predicate. */
  lemma {:induction false} FilterFilter<T(!new)>(s: seq<T>, p: T -> bool, q: T -> bool)
    requires forall x :: q(x) ==> p(x)
    ensures Filter(Filter(s, p), q) == Filter(s, q)
  {
    if |s| > 0 {
      FilterFilter(s[1..], p, q);
      if p(s[0]) {
        assert Filter(s, p) == [s[0]] + Filter(s[1..], p);
        assert (Filter(s, p))[1..] == Filter(s[1..], p);
      }
    }
  }

  /** Filtering keeps the relative order of the survivors. */
  lemma {:induction false} FilterIncreasing<T(!new)>(s: seq<T>, p: T -> bool, key: T -> int)
    requires IncreasingBy(s, key)
    ensures IncreasingBy(Filter(s, p), key)
  {
    if |s| > 0 {
      assert IncreasingBy(s[1..], key) by {
        forall i, j | 0 <= i < j < |s[1..]|
          ensures key(s[1..][i]) < key(s[1..][j])
        {
          assert s[1..][i] == s[i + 1] && s[1..][j] == s[j + 1];
        }
      }
      FilterIncreasing(s[1..], p, key);
      var rest := Filter(s[1..], p);
      if p(s[0]) {
        var r := [s[0]] + rest;
        forall i, j | 0 <= i < j < |r|
          ensures key(r[i]) < key(r[j])
        {
          if i == 0 {
            assert r[j] in s[1..];
            var k :| 0 <= k < |s[1..]| && s[1..][k] == r[j];
            assert s[1..][k] == s[k + 1];
          } else {
            assert r[i] == rest[i - 1] && r[j] == rest[j - 1];
          }
        }
      }
    }
  }

  /** In a strictly increasing sequence the first element has the least key
      and the last element the greatest. */
  lemma EndsAreExtremes<T>(s: seq<T>, key: T -> int, x: T)
    requires IncreasingBy(s, key)
    requires x in s
    ensures key(s[0]) <= key(x) <= key(s[|s| - 1])
  {
    var k :| 0 <= k < |s| && s[k] == x;
  }

  /** Integer keys that strictly increase along a sequence spread out by at
      least one per step. */
  lemma {:induction false} IncreasingSpread<T>(s: seq<T>, key: T -> int)
    requires IncreasingBy(s, key) && |s| > 0
    ensures key(s[|s| - 1]) - key(s[0]) >= |s| - 1
  {
    if |s| > 1 {
      IncreasingSpread(s[1..], key);
      assert s[1..][0] == s[1] && s[1..][|s| - 2] == s[|s| - 1];
      assert key(s[0]) < key(s[1]);
    }
  }
}
