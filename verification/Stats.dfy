/** The report's robust statistics: median and median absolute deviation, over the reals. */
module Stats {
  import opened Seqs

  ghost predicate Sorted(s: seq<real>) {
    forall i, j :: 0 <= i < j < |s| ==> s[i] <= s[j]
  }

  function Insert(x: real, s: seq<real>): (t: seq<real>)
    ensures multiset(t) == multiset(s) + multiset{x}
    ensures |t| == |s| + 1
  {
    if s == [] || x <= s[0] then [x] + s
    else
      assert s == [s[0]] + s[1..];
      [s[0]] + Insert(x, s[1..])
  }

  /** The samples in order. */
  function Sort(s: seq<real>): (t: seq<real>)
    ensures multiset(t) == multiset(s) && |t| == |s|
  {
    if s == [] then []
    else
      assert s == [s[0]] + s[1..];
      Insert(s[0], Sort(s[1..]))
  }

  lemma InsertMembers(x: real, s: seq<real>, lo: real)
    requires lo <= x && forall i :: 0 <= i < |s| ==> lo <= s[i]
    ensures forall i :: 0 <= i < |Insert(x, s)| ==> lo <= Insert(x, s)[i]
  {
    var t := Insert(x, s);
    forall i | 0 <= i < |t|
      ensures lo <= t[i]
    {
      assert t[i] in multiset(t);
      assert t[i] in multiset(s) + multiset{x};
    }
  }

  lemma {:induction false} InsertSorted(x: real, s: seq<real>)
    requires Sorted(s)
    ensures Sorted(Insert(x, s))
  {
    if s != [] && s[0] < x {
      InsertSorted(x, s[1..]);
      InsertMembers(x, s[1..], s[0]);
    }
  }

  lemma {:induction false} SortSorted(s: seq<real>)
    ensures Sorted(Sort(s))
  {
    if s != [] {
      SortSorted(s[1..]);
      InsertSorted(s[0], Sort(s[1..]));
    }
  }

  lemma HeadIsLeast(s: seq<real>, x: real)
    requires Sorted(s) && x in multiset(s)
    ensures s[0] <= x
  {
    assert x in s;
  }

  lemma Cancel(a: multiset<real>, b: multiset<real>, x: real)
    requires a + multiset{x} == b + multiset{x}
    ensures a == b
  {
    assert a == (a + multiset{x}) - multiset{x};
    assert b == (b + multiset{x}) - multiset{x};
  }

  /** Equal bags with one equal sample taken from each are equal. */
  lemma SameWithout(a: seq<real>, i: nat, b: seq<real>, j: nat)
    requires i < |a| && j < |b| && a[i] == b[j] && multiset(a) == multiset(b)
    ensures multiset(Without(a, i)) == multiset(Without(b, j))
  {
    WithoutBag(a, i);
    WithoutBag(b, j);
    Cancel(multiset(Without(a, i)), multiset(Without(b, j)), a[i]);
  }

  /** And adding one equal sample to each keeps them equal. */
  lemma SameWith(a: seq<real>, i: nat, b: seq<real>, j: nat)
    requires i < |a| && j < |b| && a[i] == b[j] && multiset(Without(a, i)) == multiset(Without(b, j))
    ensures multiset(a) == multiset(b)
  {
    WithoutBag(a, i);
    WithoutBag(b, j);
  }

  lemma SameBag(a: seq<real>, b: seq<real>)
    requires multiset(a) == multiset(b)
    ensures |a| == |b|
  {
    assert |multiset(a)| == |a| && |multiset(b)| == |b|;
  }

  lemma SameCons(a: seq<real>, b: seq<real>)
    requires a != [] && b != [] && a[0] == b[0] && a[1..] == b[1..]
    ensures a == b
  {
    assert a == [a[0]] + a[1..] && b == [b[0]] + b[1..];
  }

  /** Samples have one order. */
  lemma {:induction false} SortedUnique(a: seq<real>, b: seq<real>)
    requires Sorted(a) && Sorted(b) && multiset(a) == multiset(b)
    ensures a == b
  {
    SameBag(a, b);
    if a != [] {
      SameHead(a, b);
      SameWithout(a, 0, b, 0);
      assert Without(a, 0) == a[1..] && Without(b, 0) == b[1..];
      SortedUnique(a[1..], b[1..]);
      SameCons(a, b);
    }
  }

  lemma SameHead(a: seq<real>, b: seq<real>)
    requires Sorted(a) && Sorted(b) && multiset(a) == multiset(b) && |a| == |b| > 0
    ensures a[0] == b[0]
  {
    assert a[0] in multiset(a) && b[0] in multiset(b);
    HeadIsLeast(a, b[0]);
    HeadIsLeast(b, a[0]);
  }

  function MedianOfSorted(s: seq<real>): real
    requires s != []
  {
    var mid := |s| / 2;
    if |s| % 2 == 1 then s[mid] else (s[mid - 1] + s[mid]) / 2.0
  }

  function Median(s: seq<real>): real
    requires s != []
  {
    MedianOfSorted(Sort(s))
  }

  /** However the samples are put in order, the median is halfway between the two in the middle, or the middle one. */
  lemma MedianIsMiddle(s: seq<real>, t: seq<real>)
    requires s != [] && Sorted(t) && multiset(t) == multiset(s)
    ensures |t| == |s| && Median(s) + Median(s) == t[(|s| - 1) / 2] + t[|s| / 2]
  {
    SortSorted(s);
    SameBag(s, t);
    SortedUnique(Sort(s), t);
  }

  function Abs(x: real): (a: real)
    ensures a >= 0.0 && (a == x || a == -x)
  {
    if x < 0.0 then -x else x
  }

  function Deviations(s: seq<real>, median: real): (d: seq<real>)
    ensures |d| == |s| && forall i :: 0 <= i < |s| ==> d[i] == Abs(s[i] - median)
  {
    if s == [] then [] else Deviations(s[..|s| - 1], median) + [Abs(s[|s| - 1] - median)]
  }

  function Mad(s: seq<real>): real
    requires s != []
  {
    Median(Deviations(s, Median(s)))
  }

  /** Sorts the first `n` values in place and returns their median. */
  method MedianInPlace(values: array<real>, n: nat) returns (m: real)
    requires 0 < n <= values.Length
    modifies values
    ensures Sorted(values[..n]) && multiset(values[..n]) == multiset(old(values[..n]))
    ensures values[n..] == old(values[n..])
    ensures m == Median(old(values[..n]))
  {
    var sorted := Sort(values[..n]);
    SortSorted(values[..n]);
    for i := 0 to n
      invariant values[..i] == sorted[..i] && values[n..] == old(values[n..])
    {
      values[i] := sorted[i];
    }
    assert values[..n] == sorted;
    m := MedianOfSorted(values[..n]);
  }

  /** The deviation, by way of a scratch array whose front is overwritten. */
  method MedianAbsoluteDeviation(values: array<real>, median: real, scratch: array<real>) returns (m: real)
    requires 0 < values.Length <= scratch.Length && scratch != values
    modifies scratch
    ensures m == Median(Deviations(values[..], median))
    ensures median == Median(values[..]) ==> m == Mad(values[..])
    ensures scratch[values.Length..] == old(scratch[values.Length..])
  {
    for i := 0 to values.Length
      invariant forall k :: 0 <= k < i ==> scratch[k] == Abs(values[k] - median)
      invariant scratch[values.Length..] == old(scratch[values.Length..])
    {
      scratch[i] := Abs(values[i] - median);
    }
    assert scratch[..values.Length] == Deviations(values[..], median);
    m := MedianInPlace(scratch, values.Length);
  }

  // -- the order of the samples does not matter --

  lemma SamePermuted(s: seq<real>, t: seq<real>)
    requires multiset(s) == multiset(t)
    ensures Sort(s) == Sort(t)
  {
    SortSorted(s);
    SortSorted(t);
    SortedUnique(Sort(s), Sort(t));
  }

  lemma Find(s: seq<real>, t: seq<real>) returns (i: nat)
    requires s != [] && multiset(s) == multiset(t)
    ensures i < |t| && t[i] == s[0]
  {
    assert s[0] in multiset(t);
    i :| 0 <= i < |t| && t[i] == s[0];
  }

  /** Taking a sample out takes its deviation out. */
  lemma DeviationsWithout(s: seq<real>, i: nat, median: real)
    requires i < |s|
    ensures Deviations(Without(s, i), median) == Without(Deviations(s, median), i)
  {
  }

  /** The deviations, as a bag, depend on the samples as a bag. */
  lemma {:induction false} DeviationsPermuted(s: seq<real>, t: seq<real>, median: real)
    requires multiset(s) == multiset(t)
    ensures multiset(Deviations(s, median)) == multiset(Deviations(t, median))
    decreases |s|
  {
    SameBag(s, t);
    if s != [] {
      var i := Find(s, t);
      SameWithout(s, 0, t, i);
      DeviationsPermuted(Without(s, 0), Without(t, i), median);
      DeviationsWithout(s, 0, median);
      DeviationsWithout(t, i, median);
      SameWith(Deviations(s, median), 0, Deviations(t, median), i);
    }
  }

  /** Neither statistic depends on the order of the samples. */
  lemma OrderDoesNotMatter(s: seq<real>, t: seq<real>)
    requires s != [] && multiset(s) == multiset(t)
    ensures t != [] && Median(s) == Median(t) && Mad(s) == Mad(t)
  {
    assert s[0] in multiset(t);
    SamePermuted(s, t);
    DeviationsPermuted(s, t, Median(s));
    SamePermuted(Deviations(s, Median(s)), Deviations(t, Median(t)));
  }

  // -- breakdown --

  /** How many samples lie in `[lo, hi]`. */
  ghost function Within(s: seq<real>, lo: real, hi: real): (n: nat)
    ensures n <= |s|
  {
    if s == [] then 0 else Within(s[1..], lo, hi) + if lo <= s[0] <= hi then 1 else 0
  }

  lemma {:induction false} InsertWithin(x: real, s: seq<real>, lo: real, hi: real)
    ensures Within(Insert(x, s), lo, hi) == Within(s, lo, hi) + if lo <= x <= hi then 1 else 0
  {
    if s == [] || x <= s[0] {
      assert Insert(x, s)[1..] == s;
    } else {
      InsertWithin(x, s[1..], lo, hi);
      assert Insert(x, s)[1..] == Insert(x, s[1..]);
    }
  }

  lemma {:induction false} SortWithin(s: seq<real>, lo: real, hi: real)
    ensures Within(Sort(s), lo, hi) == Within(s, lo, hi)
  {
    if s != [] {
      SortWithin(s[1..], lo, hi);
      InsertWithin(s[0], Sort(s[1..]), lo, hi);
    }
  }

  /** In a sorted list what lies below the range comes first, and what lies above it last. */
  lemma {:induction false} SortedOutside(s: seq<real>, i: nat, lo: real, hi: real)
    requires Sorted(s) && i < |s|
    ensures s[i] < lo ==> Within(s, lo, hi) <= |s| - 1 - i
    ensures hi < s[i] ==> Within(s, lo, hi) <= i
  {
    if i == 0 {
      if hi < s[0] {
        AllAbove(s, lo, hi);
      }
    } else {
      SortedOutside(s[1..], i - 1, lo, hi);
    }
  }

  lemma {:induction false} AllAbove(s: seq<real>, lo: real, hi: real)
    requires forall i :: 0 <= i < |s| ==> hi < s[i]
    ensures Within(s, lo, hi) == 0
  {
    if s != [] {
      AllAbove(s[1..], lo, hi);
    }
  }

  /** So in a sorted list a majority in the range reaches over the middle. */
  lemma MajorityInMiddle(t: seq<real>, lo: real, hi: real)
    requires Sorted(t) && 2 * Within(t, lo, hi) > |t|
    ensures lo <= t[|t| / 2] <= hi
    ensures |t| % 2 == 0 ==> lo <= t[|t| / 2 - 1] <= hi
  {
    SortedOutside(t, |t| / 2, lo, hi);
    if |t| % 2 == 0 {
      SortedOutside(t, |t| / 2 - 1, lo, hi);
    }
  }

  /** A range that holds more than half of the samples holds the median. */
  lemma MajorityHoldsMedian(s: seq<real>, lo: real, hi: real)
    requires s != [] && 2 * Within(s, lo, hi) > |s|
    ensures lo <= Median(s) <= hi
  {
    SortSorted(s);
    SortWithin(s, lo, hi);
    MajorityInMiddle(Sort(s), lo, hi);
  }

  lemma {:induction false} DeviationsWithin(s: seq<real>, median: real, lo: real, hi: real)
    requires lo <= median <= hi
    ensures Within(Deviations(s, median), 0.0, hi - lo) >= Within(s, lo, hi)
  {
    if s != [] {
      DeviationsWithin(s[1..], median, lo, hi);
      assert Deviations(s, median)[1..] == Deviations(s[1..], median);
    }
  }

  lemma MajorityBoundsMad(s: seq<real>, median: real, lo: real, hi: real)
    requires s != [] && 2 * Within(s, lo, hi) > |s| && lo <= median <= hi
    ensures 0.0 <= Median(Deviations(s, median)) <= hi - lo
  {
    DeviationsWithin(s, median, lo, hi);
    MajorityHoldsMedian(Deviations(s, median), 0.0, hi - lo);
  }

  /** How many samples were replaced. */
  ghost function Replaced(s: seq<real>, t: seq<real>): nat
    requires |s| == |t|
  {
    if s == [] then 0 else Replaced(s[1..], t[1..]) + if s[0] == t[0] then 0 else 1
  }

  lemma {:induction false} UntouchedWithin(s: seq<real>, t: seq<real>, lo: real, hi: real)
    requires |s| == |t| && forall i :: 0 <= i < |s| && s[i] == t[i] ==> lo <= s[i] <= hi
    ensures Within(t, lo, hi) + Replaced(s, t) >= |s|
  {
    if s != [] {
      UntouchedWithin(s[1..], t[1..], lo, hi);
    }
  }

  /**
   Replace fewer than half of the samples by anything at all: the median stays between the least and the greatest of the
   others, and the deviation stays at most their spread.
   */
  lemma Breakdown(s: seq<real>, t: seq<real>, lo: real, hi: real)
    requires |s| == |t| > 0 && 2 * Replaced(s, t) < |s|
    requires forall i :: 0 <= i < |s| && s[i] == t[i] ==> lo <= s[i] <= hi
    ensures lo <= Median(t) <= hi && 0.0 <= Mad(t) <= hi - lo
  {
    UntouchedWithin(s, t, lo, hi);
    MajorityHoldsMedian(t, lo, hi);
    MajorityBoundsMad(t, Median(t), lo, hi);
  }

  function Repeat(x: real, n: nat): (s: seq<real>)
    ensures |s| == n && forall i :: 0 <= i < n ==> s[i] == x
  {
    if n == 0 then [] else [x] + Repeat(x, n - 1)
  }

  lemma {:induction false} ReplacedFrom(s: seq<real>, t: seq<real>, k: nat)
    requires |s| == |t| && k <= |s|
    requires forall i :: 0 <= i < |s| ==> (s[i] == t[i] <==> i < k)
    ensures Replaced(s, t) == |s| - k
  {
    if s != [] {
      ReplacedFrom(s[1..], t[1..], if k == 0 then 0 else k - 1);
    }
  }

  lemma {:induction false} WithinAllBut(s: seq<real>, skip: nat, lo: real, hi: real)
    requires forall i :: 0 <= i < |s| && i != skip ==> lo <= s[i] <= hi
    ensures Within(s, lo, hi) + (if skip < |s| then 1 else 0) >= |s|
  {
    if s != [] {
      WithinAllBut(s[1..], if skip == 0 then |s| else skip - 1, lo, hi);
    }
  }

  /** Half of the samples as they were, the others moved up to `x` and `2x`. */
  function Moved(n: nat, x: real): (t: seq<real>)
    requires n > 0
    ensures |t| == n
    ensures forall i :: 0 <= i < n ==> t[i] == if i < n / 2 then 0.0 else if i == n / 2 then x else 2.0 * x
  {
    Repeat(0.0, n / 2) + ([x] + Repeat(2.0 * x, n - n / 2 - 1))
  }

  lemma MovedReplaced(n: nat, x: real)
    requires n > 0 && x > 0.0
    ensures Replaced(Repeat(0.0, n), Moved(n, x)) == n - n / 2
  {
    ReplacedFrom(Repeat(0.0, n), Moved(n, x), n / 2);
  }

  lemma MovedMedian(n: nat, x: real)
    requires n > 0 && x > 0.0
    ensures Median(Moved(n, x)) == if n % 2 == 1 then x else x / 2.0
  {
    var t := Moved(n, x);
    SortSorted(t);
    SortedUnique(Sort(t), t);
  }

  /** No deviation of a moved sample is small, but for the middle one's when their number is odd. */
  lemma MovedFar(n: nat, x: real, i: nat)
    requires i < n && x > 0.0 && (n % 2 == 1 ==> i != n / 2)
    ensures x / 2.0 <= Abs(Moved(n, x)[i] - if n % 2 == 1 then x else x / 2.0) <= 2.0 * x
  {
  }

  lemma MovedMad(n: nat, x: real)
    requires n > 1 && x > 0.0
    ensures Mad(Moved(n, x)) >= x / 2.0
  {
    var t, skip := Moved(n, x), if n % 2 == 1 then n / 2 else n;
    MovedMedian(n, x);
    var d := Deviations(t, Median(t));
    forall i | 0 <= i < n && i != skip
      ensures x / 2.0 <= d[i] <= 2.0 * x
    {
      MovedFar(n, x, i);
    }
    WithinAllBut(d, skip, x / 2.0, 2.0 * x);
    MajorityHoldsMedian(d, x / 2.0, 2.0 * x);
  }

  /**
   One sample more than that is enough to move both statistics anywhere, for every number of samples: the bound is
   exact. Only the deviation of a single sample never moves.
   */
  lemma HalfBreaks(n: nat, bound: real) returns (s: seq<real>, t: seq<real>)
    requires n > 0 && bound > 0.0
    ensures |s| == |t| == n && n <= 2 * Replaced(s, t) <= n + 1 && forall i :: 0 <= i < n ==> s[i] == 0.0
    ensures Median(t) > bound && (n > 1 ==> Mad(t) > bound)
  {
    var x := 2.0 * bound + 1.0;
    s, t := Repeat(0.0, n), Moved(n, x);
    MovedReplaced(n, x);
    MovedMedian(n, x);
    if n > 1 {
      MovedMad(n, x);
    }
  }

  lemma OneSampleHasNoDeviation(x: real)
    ensures Mad([x]) == 0.0
  {
    assert Sort([x]) == [x];
    var d := Deviations([x], x);
    assert d == [0.0] && Sort([0.0]) == [0.0];
  }
}
