// The numeric helpers the controller takes from numpy and collections:
// sum, mean, extremes, numpy's default ("linear") percentile, boolean-mask
// filters, np.min/np.max over np.where, and a deque with maxlen.
// All arithmetic is over exact reals.

module Stats {
  import opened Values

  function Sum(s: seq<real>): real
  {
    if s == [] then 0.0 else s[0] + Sum(s[1..])
  }

  /** np.mean */
  function Mean(s: seq<real>): real
    requires |s| > 0
  {
    Sum(s) / |s| as real
  }

  /** np.min: the smallest element. */
  function Min(s: seq<real>): (m: real)
    requires |s| > 0
    ensures m in s
    ensures forall x :: x in s ==> m <= x
  {
    if |s| == 1 then s[0]
    else
      var rest := Min(s[1..]);
      assert forall x :: x in s ==> x == s[0] || x in s[1..];
      if s[0] <= rest then s[0] else rest
  }

  /** np.max: the largest element. */
  function Max(s: seq<real>): (m: real)
    requires |s| > 0
    ensures m in s
    ensures forall x :: x in s ==> x <= m
  {
    if |s| == 1 then s[0]
    else
      var rest := Max(s[1..]);
      assert forall x :: x in s ==> x == s[0] || x in s[1..];
      if s[0] >= rest then s[0] else rest
  }

  lemma MulNonneg(a: real, b: real)
    requires 0.0 <= a && 0.0 <= b
    ensures 0.0 <= a * b
  {
  }

  lemma MulMono(a: real, b: real, c: real)
    requires a <= b && 0.0 <= c
    ensures a * c <= b * c
  {
    MulNonneg(b - a, c);
    assert b * c - a * c == (b - a) * c;
  }

  lemma DivBounds(s: real, n: real, lo: real, hi: real)
    requires 0.0 < n && n * lo <= s <= n * hi
    ensures lo <= s / n <= hi
  {
    var m := s / n;
    assert m * n == s;
    if m < lo { MulMono(m, lo, n); }
    if m > hi { MulMono(hi, m, n); }
  }

  lemma AddBounds(n: real, lo: real, hi: real, x: real, rest: real)
    requires lo <= x <= hi && n * lo <= rest <= n * hi
    ensures (n + 1.0) * lo <= x + rest <= (n + 1.0) * hi
  {
  }

  lemma {:induction false} SumBounds(s: seq<real>, lo: real, hi: real)
    requires forall x :: x in s ==> lo <= x <= hi
    ensures |s| as real * lo <= Sum(s) <= |s| as real * hi
  {
    if s != [] {
      assert forall x :: x in s[1..] ==> x in s;
      SumBounds(s[1..], lo, hi);
      assert s[0] in s;
      AddBounds(|s[1..]| as real, lo, hi, s[0], Sum(s[1..]));
    }
  }

  /** Bounds on every sample bound the mean. */
  lemma MeanWithin(s: seq<real>, lo: real, hi: real)
    requires |s| > 0
    requires forall x :: x in s ==> lo <= x <= hi
    ensures lo <= Mean(s) <= hi
  {
    SumBounds(s, lo, hi);
    DivBounds(Sum(s), |s| as real, lo, hi);
  }

  /** The mean lies between the smallest and the largest sample. */
  lemma MeanBounds(s: seq<real>)
    requires |s| > 0
    ensures Min(s) <= Mean(s) <= Max(s)
  {
    MeanWithin(s, Min(s), Max(s));
  }

  ghost predicate Sorted(s: seq<real>)
  {
    forall i, j :: 0 <= i < j < |s| ==> s[i] <= s[j]
  }

  /** x inserted into a sorted sequence at its place. */
  function Insert(x: real, s: seq<real>): (r: seq<real>)
    requires Sorted(s)
    ensures Sorted(r)
    ensures multiset(r) == multiset(s) + multiset{x}
    ensures |r| == |s| + 1
  {
    if s == [] then [x]
    else if x <= s[0] then
      SortedCons(x, s);
      [x] + s
    else
      var tail := Insert(x, s[1..]);
      assert s == [s[0]] + s[1..];
      LowerBoundAll(tail, s[1..], x, s[0]);
      SortedCons(s[0], tail);
      [s[0]] + tail
  }

  /** A bound below every element of a sorted sequence can go in front. */
  lemma SortedCons(b: real, t: seq<real>)
    requires Sorted(t) && forall k :: 0 <= k < |t| ==> b <= t[k]
    ensures Sorted([b] + t)
  {
  }

  /** A bound below every element of s and below x is below every element of
      any t with the multiset of s + [x]. */
  lemma LowerBoundAll(t: seq<real>, s: seq<real>, x: real, b: real)
    requires multiset(t) == multiset(s) + multiset{x}
    requires b <= x && forall k :: 0 <= k < |s| ==> b <= s[k]
    ensures forall k :: 0 <= k < |t| ==> b <= t[k]
  {
    forall k | 0 <= k < |t|
      ensures b <= t[k]
    {
      assert t[k] in multiset(t);
      if t[k] != x {
        assert t[k] in multiset(s);
        var i :| 0 <= i < |s| && s[i] == t[k];
      }
    }
  }

  /** Insertion sort: a sorted permutation of s. */
  function Sort(s: seq<real>): (r: seq<real>)
    ensures Sorted(r)
    ensures multiset(r) == multiset(s)
    ensures |r| == |s|
  {
    if s == [] then []
    else
      assert s == [s[0]] + s[1..];
      Insert(s[0], Sort(s[1..]))
  }

  /** numpy's default percentile: linear interpolation between the two order
      statistics around the fractional rank p/100 * (n - 1). */
  function Percentile(s: seq<real>, p: real): real
    requires |s| > 0 && 0.0 <= p <= 100.0
  {
    Interpolated(Sort(s), Rank(p, |s|))
  }

  /** The fractional rank of percentile p among n order statistics. */
  function Rank(p: real, n: nat): (r: real)
    requires n > 0 && 0.0 <= p <= 100.0
    ensures 0.0 <= r <= (n - 1) as real
  {
    var m := (n - 1) as real;
    MulNonneg(p, m);
    MulMono(p, 100.0, m);
    p * m / 100.0
  }

  /** A higher percentile has a rank no lower. */
  lemma RankMonotone(p1: real, p2: real, n: nat)
    requires n > 0 && 0.0 <= p1 <= p2 <= 100.0
    ensures Rank(p1, n) <= Rank(p2, n)
  {
    MulMono(p1, p2, (n - 1) as real);
  }

  /** The value at a fractional rank of a sorted sequence: the order statistic
      below it, moved towards the next one by the fractional part. */
  function Interpolated(t: seq<real>, rank: real): real
    requires |t| > 0 && 0.0 <= rank <= (|t| - 1) as real
  {
    var lo := RankFloor(rank, |t|);
    if lo + 1 < |t| then Lerp(t[lo], t[lo + 1], rank - lo as real) else t[lo]
  }

  /** The order statistic below a rank in [0, n - 1]. */
  function RankFloor(rank: real, n: nat): (k: nat)
    requires n > 0 && 0.0 <= rank <= (n - 1) as real
    ensures k < n
    ensures k as real <= rank < k as real + 1.0
  {
    rank.Floor
  }

  /** A point a fraction f of the way from a to b. */
  function Lerp(a: real, b: real, f: real): real
  {
    a + f * (b - a)
  }

  /** A linear interpolation between a <= b stays between them. */
  lemma LerpBounds(a: real, b: real, f: real)
    requires a <= b && 0.0 <= f < 1.0
    ensures a <= Lerp(a, b, f) <= b
  {
    MulNonneg(f, b - a);
    MulMono(f, 1.0, b - a);
  }

  /** Moving further along the same segment never goes down. */
  lemma LerpMonotone(a: real, b: real, f1: real, f2: real)
    requires a <= b && f1 <= f2
    ensures Lerp(a, b, f1) <= Lerp(a, b, f2)
  {
    MulMono(f1, f2, b - a);
  }

  /** An element of the sorted copy is an element of the input. */
  lemma SortedElementIn(s: seq<real>, k: nat)
    requires k < |s|
    ensures Sort(s)[k] in s
  {
    var t := Sort(s);
    assert t[k] in multiset(t);
  }

  /** The interpolated value lies between two elements of the sorted input. */
  lemma InterpolatedBounds(t: seq<real>, rank: real)
    requires |t| > 0 && Sorted(t) && 0.0 <= rank <= (|t| - 1) as real
    ensures var lo := RankFloor(rank, |t|);
      t[lo] <= Interpolated(t, rank) <= t[if lo + 1 < |t| then lo + 1 else lo]
  {
    var lo := RankFloor(rank, |t|);
    if lo + 1 < |t| {
      LerpBounds(t[lo], t[lo + 1], rank - lo as real);
    }
  }

  /** A percentile lies between two elements of the input. */
  lemma PercentileBetween(s: seq<real>, p: real) returns (lo: real, hi: real)
    requires |s| > 0 && 0.0 <= p <= 100.0
    ensures lo in s && hi in s && lo <= Percentile(s, p) <= hi
  {
    var t := Sort(s);
    var k, k' := InterpolatedBetween(t, Rank(p, |s|));
    SortedElementIn(s, k);
    SortedElementIn(s, k');
    lo, hi := t[k], t[k'];
  }

  /** The same, naming the two positions. */
  lemma InterpolatedBetween(t: seq<real>, rank: real) returns (k: nat, k': nat)
    requires |t| > 0 && Sorted(t) && 0.0 <= rank <= (|t| - 1) as real
    ensures k < |t| && k' < |t| && t[k] <= Interpolated(t, rank) <= t[k']
  {
    InterpolatedBounds(t, rank);
    k := RankFloor(rank, |t|);
    k' := if k + 1 < |t| then k + 1 else k;
  }

  /** Every percentile lies between the input's minimum and maximum. */
  lemma PercentileBounds(s: seq<real>, p: real)
    requires |s| > 0 && 0.0 <= p <= 100.0
    ensures Min(s) <= Percentile(s, p) <= Max(s)
  {
    var lo, hi := PercentileBetween(s, p);
    assert Min(s) <= lo && hi <= Max(s);
  }

  /** On a sorted sequence the interpolated value grows with the rank. */
  lemma InterpolatedMonotone(t: seq<real>, r1: real, r2: real)
    requires |t| > 0 && Sorted(t)
    requires 0.0 <= r1 <= r2 <= (|t| - 1) as real
    ensures Interpolated(t, r1) <= Interpolated(t, r2)
  {
    var k1 := RankFloor(r1, |t|);
    var k2 := RankFloor(r2, |t|);
    if k1 == k2 {
      if k1 + 1 < |t| {
        LerpMonotone(t[k1], t[k1 + 1], r1 - k1 as real, r2 - k1 as real);
      }
    } else {
      InterpolatedBounds(t, r1);
      InterpolatedBounds(t, r2);
      assert t[k1 + 1] <= t[k2];
    }
  }

  /** A higher percentile is never below a lower one. */
  lemma PercentileMonotone(s: seq<real>, p1: real, p2: real)
    requires |s| > 0 && 0.0 <= p1 <= p2 <= 100.0
    ensures Percentile(s, p1) <= Percentile(s, p2)
  {
    RankMonotone(p1, p2, |s|);
    InterpolatedMonotone(Sort(s), Rank(p1, |s|), Rank(p2, |s|));
  }

  /** A percentile function as the controller calls it: sample values and
      a percentage in [0, 100] to a value. The controller takes numpy's as a
      parameter and relies only on PercentileLike. */
  type PercentileFn = (seq<real>, real) -> real

  /** What the controller relies on of a percentile function: on a
      non-empty input it lies between the smallest and the largest sample,
      and a higher percentage never gives a lower value. */
  ghost predicate PercentileLike(pct: PercentileFn)
  {
    (forall s, p :: |s| > 0 && 0.0 <= p <= 100.0 ==> Min(s) <= pct(s, p) <= Max(s))
    && (forall s, p1, p2 :: |s| > 0 && 0.0 <= p1 <= p2 <= 100.0 ==> pct(s, p1) <= pct(s, p2))
  }

  /** numpy's default percentile as a total function (the value off its
      domain is never used: the controller raises before asking for it). */
  function NumpyPercentile(s: seq<real>, p: real): real
  {
    if |s| > 0 && 0.0 <= p <= 100.0 then Percentile(s, p) else 0.0
  }

  /** numpy's linear-interpolation percentile has both properties the
      controller relies on. */
  lemma NumpyPercentileIsPercentileLike()
    ensures PercentileLike(NumpyPercentile)
  {
    forall s, p | |s| > 0 && 0.0 <= p <= 100.0
      ensures Min(s) <= NumpyPercentile(s, p) <= Max(s)
    {
      PercentileBounds(s, p);
    }
    forall s, p1, p2 | |s| > 0 && 0.0 <= p1 <= p2 <= 100.0
      ensures NumpyPercentile(s, p1) <= NumpyPercentile(s, p2)
    {
      PercentileMonotone(s, p1, p2);
    }
  }

  /** A percentile of samples that are all equal is that value. */
  lemma PercentileOfConstant(pct: PercentileFn, s: seq<real>, p: real, c: real)
    requires PercentileLike(pct)
    requires |s| > 0 && 0.0 <= p <= 100.0
    requires forall x :: x in s ==> x == c
    ensures pct(s, p) == c
  {
    assert Min(s) in s && Max(s) in s;
  }

  /** s[s < m]: the elements strictly below m, in order. */
  function Below(s: seq<real>, m: real): (r: seq<real>)
    ensures forall x :: x in r <==> x in s && x < m
    ensures forall x :: multiset(r)[x] == if x < m then multiset(s)[x] else 0
  {
    if s == [] then []
    else
      assert s == [s[0]] + s[1..];
      assert forall x :: x in s <==> x == s[0] || x in s[1..];
      (if s[0] < m then [s[0]] else []) + Below(s[1..], m)
  }

  /** s[s > m]: the elements strictly above m, in order. */
  function Above(s: seq<real>, m: real): (r: seq<real>)
    ensures forall x :: x in r <==> x in s && x > m
    ensures forall x :: multiset(r)[x] == if x > m then multiset(s)[x] else 0
  {
    if s == [] then []
    else
      assert s == [s[0]] + s[1..];
      assert forall x :: x in s <==> x == s[0] || x in s[1..];
      (if s[0] > m then [s[0]] else []) + Above(s[1..], m)
  }

  /** np.min(np.where(s > x)): the earliest index whose element exceeds x,
      None where np.min would raise on the empty index set. */
  function FirstAbove(s: seq<real>, x: real): (r: Option<nat>)
    ensures r.Some? ==> r.value < |s| && s[r.value] > x
    ensures r.Some? ==> forall j :: 0 <= j < r.value ==> s[j] <= x
    ensures r.None? ==> forall j :: 0 <= j < |s| ==> s[j] <= x
  {
    if s == [] then None
    else if s[0] > x then Some(0)
    else
      match FirstAbove(s[1..], x)
      case None => None
      case Some(i) => Some(i + 1)
  }

  /** np.max(np.where(s > x)): the latest index whose element exceeds x. */
  function LastAbove(s: seq<real>, x: real): (r: Option<nat>)
    ensures r.Some? ==> r.value < |s| && s[r.value] > x
    ensures r.Some? ==> forall j :: r.value < j < |s| ==> s[j] <= x
    ensures r.None? ==> forall j :: 0 <= j < |s| ==> s[j] <= x
  {
    if s == [] then None
    else if s[|s| - 1] > x then Some(|s| - 1)
    else LastAbove(s[..|s| - 1], x)
  }

  /** np.min(np.where(s < x)): the earliest index whose element is below x. */
  function FirstBelow(s: seq<real>, x: real): (r: Option<nat>)
    ensures r.Some? ==> r.value < |s| && s[r.value] < x
    ensures r.Some? ==> forall j :: 0 <= j < r.value ==> s[j] >= x
    ensures r.None? ==> forall j :: 0 <= j < |s| ==> s[j] >= x
  {
    if s == [] then None
    else if s[0] < x then Some(0)
    else
      match FirstBelow(s[1..], x)
      case None => None
      case Some(i) => Some(i + 1)
  }

  /** The earliest and the latest index over a threshold exist together, and
      the earliest is not after the latest. */
  lemma FirstNotAfterLast(s: seq<real>, x: real)
    ensures FirstAbove(s, x).Some? <==> LastAbove(s, x).Some?
    ensures FirstAbove(s, x).Some? ==> FirstAbove(s, x).value <= LastAbove(s, x).value
  {
  }

  /** collections.deque(maxlen = cap).append(x): the newest min(|s| + 1, cap)
      elements of s + [x]; the oldest are evicted. */
  function BoundedAppend<T>(s: seq<T>, x: T, cap: nat): (r: seq<T>)
    ensures |r| == if |s| + 1 <= cap then |s| + 1 else cap
  {
    var t := s + [x];
    if |t| <= cap then t else t[|t| - cap..]
  }

  /** The deque keeps the newest elements: it is a suffix of s + [x] that
      ends with x. */
  lemma BoundedAppendSuffix<T>(s: seq<T>, x: T, cap: nat)
    ensures var r := BoundedAppend(s, x, cap);
      r == (s + [x])[|s| + 1 - |r|..] && (cap > 0 ==> r[|r| - 1] == x)
  {
  }

  /** Appending to a deque that is not full keeps every element. */
  lemma BoundedAppendRoom<T>(s: seq<T>, x: T, cap: nat)
    requires |s| < cap
    ensures BoundedAppend(s, x, cap) == s + [x]
  {
  }

  /** Appending to a full deque evicts exactly the oldest element. */
  lemma BoundedAppendFull<T>(s: seq<T>, x: T, cap: nat)
    requires |s| == cap > 0
    ensures BoundedAppend(s, x, cap) == s[1..] + [x]
  {
    assert (s + [x])[1..] == s[1..] + [x];
  }

  /** list.append(x) followed by pop(0) when the list has grown past cap is
      a deque of length cap. */
  lemma AppendThenTrim<T>(s: seq<T>, x: T, cap: nat)
    requires |s| <= cap
    ensures BoundedAppend(s, x, cap) == if |s| + 1 > cap then (s + [x])[1..] else s + [x]
  {
  }
}
