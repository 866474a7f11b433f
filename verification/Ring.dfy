/** A sequence read as a ring: `n` elements from index `head` on, wrapping at the end. */
module Ring {

  /** Where logical index `i` lies. */
  function Phys(head: nat, cap: nat, i: nat): (p: nat)
    requires head < cap && i < cap
    ensures p < cap
  {
    if head + i < cap then head + i else head + i - cap
  }

  /** The branch is the remainder the code takes. */
  lemma PhysIsRemainder(head: nat, cap: nat, i: nat)
    requires head < cap && i < cap
    ensures Phys(head, cap, i) == (head + i) % cap
  {
    var x := head + i;
    var q, r := x / cap, x % cap;
    assert x == cap * q + r;
    if q >= 2 {
      MulAtLeast(cap, q, 2);
    } else if q == 1 {
      assert cap * q == cap;
    } else {
      assert q == 0 && cap * q == 0;
    }
  }

  lemma MulAtLeast(c: nat, q: nat, k: nat)
    requires q >= k
    ensures c * q >= c * k
  {
  }

  predicate PowerOfTwo(n: nat) {
    n == 1 || (n > 1 && n % 2 == 0 && PowerOfTwo(n / 2))
  }

  lemma Doubled(n: nat)
    requires PowerOfTwo(n)
    ensures PowerOfTwo(n * 2)
  {
    assert n * 2 / 2 == n;
  }

  /** The bits set in both numbers. */
  function And(a: nat, b: nat): nat {
    if b == 0 then 0 else a % 2 * (b % 2) + 2 * And(a / 2, b / 2)
  }

  /** For a power of two the mask of the lower bits is the remainder. */
  lemma {:induction false} MaskIsRemainder(x: nat, cap: nat)
    requires PowerOfTwo(cap)
    ensures And(x, cap - 1) == x % cap
  {
    if cap > 1 {
      var c := cap / 2;
      MaskIsRemainder(x / 2, c);
      assert (cap - 1) % 2 == 1 && (cap - 1) / 2 == c - 1;
      Halved(x, c);
    }
  }

  lemma Halved(x: nat, c: nat)
    requires c > 0
    ensures x % (2 * c) == x % 2 + 2 * (x / 2 % c)
  {
    var q, r := x / 2 / c, x / 2 % c;
    assert x / 2 == c * q + r;
    assert x == 2 * c * q + (2 * r + x % 2) by {
      assert 2 * (c * q) == 2 * c * q;
    }
    Remainder(x, 2 * c, q, 2 * r + x % 2);
  }

  lemma Remainder(x: nat, d: nat, q: nat, r: nat)
    requires x == d * q + r && r < d
    ensures x % d == r
  {
    var p, s := x / d, x % d;
    assert x == d * p + s && d * (p + 1) == d * p + d && d * (q + 1) == d * q + d;
    if p < q {
      MulAtLeast(d, q, p + 1);
    } else if q < p {
      MulAtLeast(d, p, q + 1);
    }
  }

  /** In a ring whose size is a power of two, an element lies where the mask says. */
  lemma PhysIsMasked(head: nat, cap: nat, i: nat)
    requires head < cap && i < cap && PowerOfTwo(cap)
    ensures Phys(head, cap, i) == And(head + i, cap - 1)
  {
    PhysIsRemainder(head, cap, i);
    MaskIsRemainder(head + i, cap);
  }

  ghost predicate Fits(cap: nat, head: nat, n: nat) {
    n <= cap && (cap == 0 || head < cap)
  }

  ghost function Unrolled<T>(s: seq<T>, head: nat, n: nat): (u: seq<T>)
    requires Fits(|s|, head, n)
    ensures |u| == n && forall i :: 0 <= i < n ==> u[i] == s[Phys(head, |s|, i)]
  {
    if n == 0 then [] else Unrolled(s, head, n - 1) + [s[Phys(head, |s|, n - 1)]]
  }

  /** A write at logical index `i` changes that element only. */
  lemma Write<T>(s: seq<T>, head: nat, n: nat, i: nat, x: T)
    requires Fits(|s|, head, n) && i < n
    ensures Unrolled(s[Phys(head, |s|, i) := x], head, n) == Unrolled(s, head, n)[i := x]
  {
  }

  /** A write just past the end, taken in, is an append. */
  lemma Extend<T>(s: seq<T>, head: nat, n: nat, x: T)
    requires Fits(|s|, head, n) && n < |s|
    ensures Unrolled(s[Phys(head, |s|, n) := x], head, n + 1) == Unrolled(s, head, n) + [x]
  {
  }

  /** Advancing the head drops the first element. */
  lemma Advance<T>(s: seq<T>, head: nat, n: nat)
    requires Fits(|s|, head, n) && n > 0
    ensures var h := if head + 1 < |s| then head + 1 else 0;
      Fits(|s|, h, n - 1) && Unrolled(s, h, n - 1) == Unrolled(s, head, n)[1..]
  {
  }

  lemma Shorten<T>(s: seq<T>, head: nat, n: nat, m: nat)
    requires Fits(|s|, head, n) && m <= n
    ensures Unrolled(s, head, m) == Unrolled(s, head, n)[..m]
  {
  }

  /** A ring whose head is at the start is its own front. */
  lemma FromStart<T>(s: seq<T>, n: nat)
    requires n <= |s|
    ensures Fits(|s|, 0, n) && Unrolled(s, 0, n) == s[..n]
  {
  }
}
