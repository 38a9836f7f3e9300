/** The value a capture commits for one channel (`captureVital` in
    `lib/store.ts`): the samples sorted in ascending numeric order and the
    element at index `floor(n / 2)` taken — the upper median, so for an even
    number of samples the larger of the two middle values, never their mean. */
module Median {

  predicate Sorted(s: seq<real>) {
    forall i, j :: 0 <= i < j < |s| ==> s[i] <= s[j]
  }

  /** Inserts `x` into a sorted sequence at its place. */
  function Insert(x: real, s: seq<real>): (r: seq<real>)
    requires Sorted(s)
    ensures Sorted(r) && multiset(r) == multiset(s) + multiset{x}
    ensures |r| == |s| + 1
  {
    if |s| == 0 || x <= s[0] then [x] + s
    else
      var t := Insert(x, s[1..]);
      assert s == [s[0]] + s[1..];
      BelowAll(s[0], x, s[1..], t);
      [s[0]] + t
  }

  /** A value at or below `x` and every element of `s` is at or below every
      element of a rearrangement of `s` with `x` added. */
  lemma BelowAll(y: real, x: real, s: seq<real>, t: seq<real>)
    requires y <= x && forall i :: 0 <= i < |s| ==> y <= s[i]
    requires multiset(t) == multiset(s) + multiset{x}
    ensures forall k :: 0 <= k < |t| ==> y <= t[k]
  {
    forall k | 0 <= k < |t|
      ensures y <= t[k]
    {
      assert t[k] in multiset(t);
      if t[k] != x {
        assert t[k] in s;
      }
    }
  }

  /** `[...samples].sort((a, b) => a - b)`: the samples in ascending order. */
  function Sort(s: seq<real>): (r: seq<real>)
    ensures Sorted(r) && multiset(r) == multiset(s)
    ensures |r| == |s|
  {
    if |s| == 0 then []
    else
      assert s == [s[0]] + s[1..];
      Insert(s[0], Sort(s[1..]))
  }

  /** The committed value: the sorted samples' element at `floor(n / 2)`. */
  function UpperMedian(s: seq<real>): (m: real)
    requires |s| > 0
    ensures m in s
  {
    var r := Sort(s);
    assert r[|s| / 2] in multiset(r);
    r[|s| / 2]
  }

  /** `e < x` when `strict`, `e <= x` otherwise. */
  predicate Under(e: real, x: real, strict: bool) {
    if strict then e < x else e <= x
  }

  /** How many elements of `s` lie strictly below `x` (`strict`) or at or below it. */
  function Count(s: seq<real>, x: real, strict: bool): (n: nat)
    ensures n <= |s|
  {
    if |s| == 0 then 0
    else (if Under(s[0], x, strict) then 1 else 0) + Count(s[1..], x, strict)
  }

  lemma {:induction false} CountAppend(a: seq<real>, b: seq<real>, x: real, strict: bool)
    ensures Count(a + b, x, strict) == Count(a, x, strict) + Count(b, x, strict)
    decreases |a|
  {
    if |a| > 0 {
      assert (a + b)[1..] == a[1..] + b;
      CountAppend(a[1..], b, x, strict);
    } else {
      assert a + b == b;
    }
  }

  /** Counts see only the multiset of the samples, not their order. */
  lemma {:induction false} CountPermutation(s: seq<real>, t: seq<real>, x: real, strict: bool)
    requires multiset(s) == multiset(t)
    ensures Count(s, x, strict) == Count(t, x, strict)
    decreases |s|
  {
    if |s| == 0 {
      assert |t| == |multiset(t)| == 0;
    } else {
      assert s[0] in multiset(t);
      var i :| 0 <= i < |t| && t[i] == s[0];
      var t' := t[..i] + t[i + 1..];
      assert t == t[..i] + [t[i]] + t[i + 1..];
      assert s == [s[0]] + s[1..];
      assert multiset(t) == multiset(t[..i]) + multiset{t[i]} + multiset(t[i + 1..]);
      assert multiset(s) == multiset{s[0]} + multiset(s[1..]);
      assert multiset(t') == multiset(t[..i]) + multiset(t[i + 1..]);
      assert multiset(t) == multiset{s[0]} + multiset(t');
      Cancel(s[0], multiset(s[1..]), multiset(t'));
      CountPermutation(s[1..], t', x, strict);
      CountAppend(t[..i] + [t[i]], t[i + 1..], x, strict);
      CountAppend(t[..i], [t[i]], x, strict);
      CountAppend(t[..i], t[i + 1..], x, strict);
    }
  }

  /** If no element from index `k` on is under `x`, at most `k` elements are. */
  lemma {:induction false} CountAtMostIndex(r: seq<real>, k: nat, x: real, strict: bool)
    requires k <= |r|
    requires forall j :: k <= j < |r| ==> !Under(r[j], x, strict)
    ensures Count(r, x, strict) <= k
    decreases |r|
  {
    if |r| > 0 {
      if k == 0 {
        CountAtMostIndex(r[1..], 0, x, strict);
      } else {
        CountAtMostIndex(r[1..], k - 1, x, strict);
      }
    }
  }

  /** If every element before index `k` is under `x`, at least `k` elements are. */
  lemma {:induction false} CountAtLeastIndex(r: seq<real>, k: nat, x: real, strict: bool)
    requires k <= |r|
    requires forall j :: 0 <= j < k ==> Under(r[j], x, strict)
    ensures Count(r, x, strict) >= k
    decreases |r|
  {
    if k > 0 {
      CountAtLeastIndex(r[1..], k - 1, x, strict);
    }
  }

  /** In a sorted sequence, an element at index `k` that is not under `x`
      leaves at most `k` elements under it. */
  lemma SortedCountAtMost(r: seq<real>, k: nat, x: real, strict: bool)
    requires Sorted(r) && k < |r| && !Under(r[k], x, strict)
    ensures Count(r, x, strict) <= k
  {
    forall j | k <= j < |r|
      ensures !Under(r[j], x, strict)
    {
      assert r[k] <= r[j];
    }
    CountAtMostIndex(r, k, x, strict);
  }

  /** In a sorted sequence, an element at index `k` that is under `x` puts at
      least `k + 1` elements under it. */
  lemma SortedCountAtLeast(r: seq<real>, k: nat, x: real, strict: bool)
    requires Sorted(r) && k < |r| && Under(r[k], x, strict)
    ensures Count(r, x, strict) >= k + 1
  {
    forall j | 0 <= j < k + 1
      ensures Under(r[j], x, strict)
    {
      assert r[j] <= r[k];
    }
    CountAtLeastIndex(r, k + 1, x, strict);
  }

  /** The rank of the committed value: fewer than half-plus-one samples lie
      strictly below it, and more than half lie at or below it. */
  lemma MedianRank(s: seq<real>)
    requires |s| > 0
    ensures Count(s, UpperMedian(s), true) <= |s| / 2 < Count(s, UpperMedian(s), false)
  {
    var r, h := Sort(s), |s| / 2;
    var m := r[h];
    SortedCountAtMost(r, h, m, true);
    SortedCountAtLeast(r, h, m, false);
    CountPermutation(s, r, m, true);
    CountPermutation(s, r, m, false);
  }

  /** The rank condition singles the committed value out: no other number has it. */
  lemma MedianUnique(s: seq<real>, x: real)
    requires |s| > 0
    requires Count(s, x, true) <= |s| / 2 < Count(s, x, false)
    ensures x == UpperMedian(s)
  {
    var r, h := Sort(s), |s| / 2;
    var m := r[h];
    CountPermutation(s, r, x, true);
    CountPermutation(s, r, x, false);
    if x < m {
      SortedCountAtMost(r, h, x, false);
    } else if m < x {
      SortedCountAtLeast(r, h, x, true);
    }
  }

  /** The committed value, characterised without sorting: it is the one number
      with at most `floor(n / 2)` samples strictly below it and more than
      `floor(n / 2)` at or below it. */
  lemma MedianCharacterised(s: seq<real>, x: real)
    requires |s| > 0
    ensures x == UpperMedian(s) <==> Count(s, x, true) <= |s| / 2 < Count(s, x, false)
  {
    MedianRank(s);
    if Count(s, x, true) <= |s| / 2 < Count(s, x, false) {
      MedianUnique(s, x);
    }
  }

  /** Two sorted arrangements of the same samples are the same sequence. */
  lemma {:induction false} SortedUnique(a: seq<real>, b: seq<real>)
    requires Sorted(a) && Sorted(b) && multiset(a) == multiset(b)
    ensures a == b
    decreases |a|
  {
    if |a| == 0 {
      assert |b| == |multiset(b)| == 0;
    } else {
      assert |b| == |multiset(b)| == |a|;
      assert a[0] in multiset(b) && b[0] in multiset(a);
      var i :| 0 <= i < |b| && b[i] == a[0];
      var j :| 0 <= j < |a| && a[j] == b[0];
      assert b[0] <= b[i] && a[0] <= a[j];
      DropHead(a, b);
      SortedUnique(a[1..], b[1..]);
    }
  }

  lemma DropHead(a: seq<real>, b: seq<real>)
    requires |a| > 0 && |b| > 0 && a[0] == b[0] && multiset(a) == multiset(b)
    ensures multiset(a[1..]) == multiset(b[1..])
  {
    assert a == [a[0]] + a[1..] && b == [b[0]] + b[1..];
    assert multiset(a) == multiset{a[0]} + multiset(a[1..]);
    assert multiset(b) == multiset{a[0]} + multiset(b[1..]);
    Cancel(a[0], multiset(a[1..]), multiset(b[1..]));
  }

  lemma Cancel(x: real, p: multiset<real>, q: multiset<real>)
    requires multiset{x} + p == multiset{x} + q
    ensures p == q
  {
    forall y
      ensures p[y] == q[y]
    {
      assert (multiset{x} + p)[y] == multiset{x}[y] + p[y];
      assert (multiset{x} + q)[y] == multiset{x}[y] + q[y];
    }
  }

  /** The committed value does not depend on the order the samples arrived in. */
  lemma MedianOrderFree(s: seq<real>, t: seq<real>)
    requires |s| > 0 && multiset(s) == multiset(t)
    ensures |t| > 0 && UpperMedian(s) == UpperMedian(t)
  {
    assert |t| == |multiset(t)| == |s|;
    SortedUnique(Sort(s), Sort(t));
  }

  /** The committed value lies between the smallest and the largest sample. */
  lemma MedianBounds(s: seq<real>)
    requires |s| > 0
    ensures exists i :: 0 <= i < |s| && s[i] <= UpperMedian(s)
    ensures exists j :: 0 <= j < |s| && UpperMedian(s) <= s[j]
  {
    var m := UpperMedian(s);
    var i :| 0 <= i < |s| && s[i] == m;
  }

  /** Four readings 120, 118, 122, 121 commit 121, the upper of the two middle values. */
  lemma MedianOfFour()
    ensures UpperMedian([120.0, 118.0, 122.0, 121.0]) == 121.0
  {
    var s := [120.0, 118.0, 122.0, 121.0];
    assert s[1..] == [118.0, 122.0, 121.0] && s[2..] == [122.0, 121.0] && s[3..] == [121.0];
    assert Count(s[3..], 121.0, true) == 0 && Count(s[3..], 121.0, false) == 1;
    assert Count(s, 121.0, true) == 2;
    assert Count(s, 121.0, false) == 3;
    MedianUnique(s, 121.0);
  }

  /** Two readings commit the larger one, not their mean. */
  lemma MedianOfTwo(a: real, b: real)
    requires a < b
    ensures UpperMedian([a, b]) == b
  {
    var p := [a, b];
    assert p[1..] == [b];
    MedianUnique(p, b);
  }
}
