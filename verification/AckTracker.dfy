/** The packet numbers received in one space, kept as a bounded list of disjoint intervals. */
module AckTracker {
  import opened Wrappers
  import opened Varint
  import opened AckRange
  import opened RangeList

  /** Ranges held without, and with, a heap block. */
  const INLINE_RANGES: nat := 8
  const MAX_RANGES: nat := 255

  datatype BuildError = Empty | TooSmall

  ghost function AsRange(r: Interval): Range { Range(r.smallest, r.largest + 1) }

  ghost function AsRanges(s: seq<Interval>): (list: seq<Range>)
    ensures |list| == |s|
    ensures forall i :: 0 <= i < |s| ==> list[i] == AsRange(s[i])
  {
    seq(|s|, i requires 0 <= i < |s| => AsRange(s[i]))
  }

  /** The packet numbers a list of intervals stands for. */
  ghost function Numbers(s: seq<Interval>): set<nat> { Points(AsRanges(s)) }

  /** Lowest first, non-empty, and never touching. */
  ghost predicate WellFormed(s: seq<Interval>) { Canonical(AsRanges(s)) }

  /** `i` is the first interval that reaches up to `pn`. */
  ghost predicate Position(s: seq<Interval>, pn: nat, i: nat) {
    && i <= |s|
    && (forall k :: 0 <= k < i ==> s[k].largest < pn)
    && (forall k :: i <= k < |s| ==> pn <= s[k].largest)
  }

  /** The interval just below position `i` ends next to `pn`. */
  predicate ExtendsBelow(s: seq<Interval>, pn: nat, i: nat)
    requires i <= |s|
  {
    i > 0 && s[i - 1].largest + 1 == pn
  }

  /** The interval at position `i` starts next to `pn`. */
  predicate ExtendsAbove(s: seq<Interval>, pn: nat, i: nat)
    requires i <= |s|
  {
    i < |s| && s[i].smallest == pn + 1
  }

  function From(s: seq<Interval>, pn: nat, i: nat): (r: nat)
    requires i <= |s|
    ensures r <= i
  {
    if ExtendsBelow(s, pn, i) then i - 1 else i
  }

  function To(s: seq<Interval>, pn: nat, i: nat): (r: nat)
    requires i <= |s|
    ensures i <= r <= |s|
  {
    if ExtendsAbove(s, pn, i) then i + 1 else i
  }

  /** `pn` together with the intervals it touches. */
  function Merged(s: seq<Interval>, pn: nat, i: nat): Interval
    requires i <= |s|
  {
    Interval(
      if ExtendsBelow(s, pn, i) then s[i - 1].smallest else pn,
      if ExtendsAbove(s, pn, i) then s[i].largest else pn)
  }

  /** The list with `pn`, which no interval holds, added at its position. */
  function Added(s: seq<Interval>, pn: nat, i: nat): seq<Interval>
    requires i <= |s|
  {
    s[..From(s, pn, i)] + [Merged(s, pn, i)] + s[To(s, pn, i)..]
  }

  /** The three ways a number next to an interval is taken in. */
  lemma AddedIs(s: seq<Interval>, pn: nat, i: nat)
    requires i <= |s| && (ExtendsBelow(s, pn, i) || ExtendsAbove(s, pn, i))
    ensures ExtendsBelow(s, pn, i) && ExtendsAbove(s, pn, i) ==>
      var t := s[i - 1 := Interval(s[i - 1].smallest, s[i].largest)]; Added(s, pn, i) == t[..i] + t[i + 1..]
    ensures ExtendsBelow(s, pn, i) && !ExtendsAbove(s, pn, i) ==>
      Added(s, pn, i) == s[i - 1 := Interval(s[i - 1].smallest, pn)]
    ensures !ExtendsBelow(s, pn, i) && ExtendsAbove(s, pn, i) ==> Added(s, pn, i) == s[i := Interval(pn, s[i].largest)]
  {
  }

  lemma SplicedRanges(s: seq<Interval>, from: nat, m: Interval, to: nat)
    requires from <= to <= |s|
    ensures AsRanges(s[..from] + [m] + s[to..]) == AsRanges(s)[..from] + [AsRange(m)] + AsRanges(s)[to..]
  {
    var a, b := AsRanges(s[..from] + [m] + s[to..]), AsRanges(s)[..from] + [AsRange(m)] + AsRanges(s)[to..];
    assert |a| == |b|;
    forall k | 0 <= k < |a| ensures a[k] == b[k] {
      if k > from {
        assert (s[..from] + [m] + s[to..])[k] == s[to..][k - from - 1] == s[to + k - from - 1];
      }
    }
  }

  lemma Holds(s: seq<Interval>, pn: nat, i: nat)
    requires WellFormed(s) && Position(s, pn, i)
    ensures pn in Numbers(s) <==> i < |s| && s[i].smallest <= pn
  {
    var list := AsRanges(s);
    assert list == list[..i] + list[i..];
    PointsConcat(list[..i], list[i..]);
    PointsBelow(list[..i], pn);
    if i < |s| {
      FirstRun(list[i..]);
      assert list[i..][0] == AsRange(s[i]);
    }
  }

  lemma NumbersJustBelow(s: seq<Interval>, pn: nat, i: nat)
    requires WellFormed(s) && i <= |s|
    ensures Points(AsRanges(s)[From(s, pn, i)..i]) == Span(Merged(s, pn, i).smallest, pn)
  {
    if ExtendsBelow(s, pn, i) {
      assert AsRanges(s)[i - 1..i] == [AsRange(s[i - 1])] && Points([AsRange(s[i - 1])][1..]) == {};
    }
  }

  lemma NumbersJustAbove(s: seq<Interval>, pn: nat, i: nat)
    requires WellFormed(s) && i <= |s|
    ensures Points(AsRanges(s)[i..To(s, pn, i)]) == Span(pn + 1, Merged(s, pn, i).largest + 1)
  {
    if ExtendsAbove(s, pn, i) {
      assert AsRanges(s)[i..i + 1] == [AsRange(s[i])] && Points([AsRange(s[i])][1..]) == {};
    }
  }

  /** The intervals next to `pn`, together with it, are one interval. */
  lemma MergedNumbers(s: seq<Interval>, pn: nat, i: nat)
    requires WellFormed(s) && i <= |s|
    ensures SpanOf(AsRange(Merged(s, pn, i))) == Points(AsRanges(s)[From(s, pn, i)..To(s, pn, i)]) + {pn}
  {
    var list, from, to := AsRanges(s), From(s, pn, i), To(s, pn, i);
    assert list[from..to] == list[from..i] + list[i..to];
    PointsConcat(list[from..i], list[i..to]);
    NumbersJustBelow(s, pn, i);
    NumbersJustAbove(s, pn, i);
    var m := Merged(s, pn, i);
    assert m.smallest <= pn <= m.largest by {
      assert ExtendsBelow(s, pn, i) ==> AsRanges(s)[i - 1].offset < AsRanges(s)[i - 1].end;
      assert ExtendsAbove(s, pn, i) ==> AsRanges(s)[i].offset < AsRanges(s)[i].end;
    }
  }

  lemma MergedApart(s: seq<Interval>, pn: nat, i: nat)
    requires WellFormed(s) && Position(s, pn, i) && (i < |s| ==> pn < s[i].smallest)
    ensures var list, m := AsRanges(s), AsRange(Merged(s, pn, i));
      && m.offset < m.end
      && (forall k :: 0 <= k < From(s, pn, i) ==> list[k].end < m.offset)
      && (forall k :: To(s, pn, i) <= k < |list| ==> m.end < list[k].offset)
  {
  }

  lemma ReplaceAdding(list: seq<Range>, from: nat, m: Range, to: nat, pn: nat)
    requires Canonical(list) && from <= to <= |list| && m.offset < m.end
    requires forall k :: 0 <= k < from ==> list[k].end < m.offset
    requires forall k :: to <= k < |list| ==> m.end < list[k].offset
    requires SpanOf(m) == Points(list[from..to]) + {pn}
    ensures Canonical(list[..from] + [m] + list[to..])
    ensures Points(list[..from] + [m] + list[to..]) == Points(list) + {pn}
  {
    Replace(list, from, m, to);
  }

  /** Adding a number keeps the list well formed and adds exactly that number. */
  lemma AddedNumbers(s: seq<Interval>, pn: nat, i: nat)
    requires WellFormed(s) && Position(s, pn, i) && (i < |s| ==> pn < s[i].smallest)
    ensures WellFormed(Added(s, pn, i)) && Numbers(Added(s, pn, i)) == Numbers(s) + {pn}
  {
    MergedNumbers(s, pn, i);
    MergedApart(s, pn, i);
    ReplaceAdding(AsRanges(s), From(s, pn, i), AsRange(Merged(s, pn, i)), To(s, pn, i), pn);
    SplicedRanges(s, From(s, pn, i), Merged(s, pn, i), To(s, pn, i));
  }

  lemma DropLowest(s: seq<Interval>)
    requires WellFormed(s) && s != []
    ensures WellFormed(s[1..]) && Numbers(s[1..]) == Numbers(s) - SpanOf(AsRange(s[0]))
  {
    assert AsRanges(s[1..]) == AsRanges(s)[1..];
    FirstRun(AsRanges(s));
  }

  /** Dropping the lowest interval moves a number's position down with it. */
  lemma EvictPosition(s: seq<Interval>, pn: nat, i: nat)
    requires WellFormed(s) && s != [] && Position(s, pn, i)
    requires !ExtendsBelow(s, pn, i) && !ExtendsAbove(s, pn, i)
    ensures var j := if i > 0 then i - 1 else 0;
      Position(s[1..], pn, j) && !ExtendsBelow(s[1..], pn, j) && !ExtendsAbove(s[1..], pn, j)
  {
    assert forall k :: 0 <= k < |s[1..]| ==> s[1..][k] == s[k + 1];
    assert |s| > 1 ==> AsRanges(s)[0].end < AsRanges(s)[1].offset;
  }

  /** No interval holds or is next to `pn`, so it needs one of its own. */
  ghost predicate Isolated(s: seq<Interval>, pn: nat) {
    forall k :: 0 <= k < |s| ==> s[k].largest + 1 < pn || pn + 1 < s[k].smallest
  }

  /** What is left of the numbers held when `pn` is recorded: a full list gives up its lowest interval. */
  ghost function Kept(s: seq<Interval>, pn: nat, full: bool): set<nat> {
    if full && s != [] && Isolated(s, pn) then Numbers(s) - SpanOf(AsRange(s[0])) else Numbers(s)
  }

  /** Whether a number needs its own interval is decided by the intervals beside its position. */
  lemma Neighbours(s: seq<Interval>, pn: nat, i: nat)
    requires WellFormed(s) && Position(s, pn, i) && (i < |s| ==> pn < s[i].smallest)
    ensures ExtendsBelow(s, pn, i) || ExtendsAbove(s, pn, i) <==> !Isolated(s, pn)
  {
    var list := AsRanges(s);
    assert forall j, k :: 0 <= j < k < |list| ==> list[j].end < list[k].offset;
    forall k | 0 <= k < |s| && !ExtendsBelow(s, pn, i) && !ExtendsAbove(s, pn, i)
      ensures s[k].largest + 1 < pn || pn + 1 < s[k].smallest
    {
      assert k < i - 1 ==> list[k].end < list[i - 1].offset;
      assert i < k ==> list[i].end < list[k].offset;
    }
  }

  ghost predicate Bounded(s: seq<Interval>) {
    forall i :: 0 <= i < |s| ==> s[i].largest <= MAX_VALUE
  }

  lemma AddedBounded(s: seq<Interval>, pn: nat, i: nat)
    requires Bounded(s) && i <= |s| && pn <= MAX_VALUE
    ensures Bounded(Added(s, pn, i))
  {
  }

  ghost function Spliced(s: seq<Interval>, pn: nat, j: nat): seq<Interval>
    requires j <= |s|
  {
    s[..j] + [Interval(pn, pn)] + s[j..]
  }

  /** An isolated number becomes an interval of its own. */
  lemma Alone(s: seq<Interval>, pn: nat, j: nat)
    requires WellFormed(s) && Bounded(s) && pn <= MAX_VALUE && Position(s, pn, j) && (j < |s| ==> pn < s[j].smallest)
    requires !ExtendsBelow(s, pn, j) && !ExtendsAbove(s, pn, j)
    ensures WellFormed(Spliced(s, pn, j)) && Bounded(Spliced(s, pn, j))
    ensures Numbers(Spliced(s, pn, j)) == Numbers(s) + {pn}
  {
    assert Spliced(s, pn, j) == Added(s, pn, j);
    AddedNumbers(s, pn, j);
    AddedBounded(s, pn, j);
  }

  lemma AloneEvicts(s: seq<Interval>, pn: nat, i: nat, t: seq<Interval>, j: nat)
    requires WellFormed(s) && Bounded(s) && pn <= MAX_VALUE && Position(s, pn, i) && (i < |s| ==> pn < s[i].smallest)
    requires !ExtendsBelow(s, pn, i) && !ExtendsAbove(s, pn, i)
    requires s != [] && t == s[1..] && j == if i > 0 then i - 1 else 0
    ensures j <= |t| && WellFormed(Spliced(t, pn, j)) && Bounded(Spliced(t, pn, j))
    ensures Numbers(Spliced(t, pn, j)) == Numbers(s) - SpanOf(AsRange(s[0])) + {pn}
  {
    DropLowest(s);
    EvictPosition(s, pn, i);
    assert j < |t| ==> t[j] == s[j + 1];
    assert j + 1 < |s| && i == 0 ==> AsRanges(s)[0].end < AsRanges(s)[1].offset;
    Alone(t, pn, j);
  }

  /** What an insertion leaves behind: everything but, in a full tracker, the lowest interval. */
  lemma AloneNumbers(s: seq<Interval>, pn: nat, i: nat, full: bool, t: seq<Interval>, j: nat)
    requires WellFormed(s) && Bounded(s) && pn <= MAX_VALUE && Position(s, pn, i) && (full ==> s != [])
    requires i < |s| ==> pn < s[i].smallest
    requires !ExtendsBelow(s, pn, i) && !ExtendsAbove(s, pn, i)
    requires t == (if full then s[1..] else s) && j == if full && i > 0 then i - 1 else i
    ensures j <= |t| && WellFormed(Spliced(t, pn, j)) && Bounded(Spliced(t, pn, j))
    ensures Numbers(Spliced(t, pn, j)) == (if full then Numbers(s) - SpanOf(AsRange(s[0])) else Numbers(s)) + {pn}
  {
    if full {
      AloneEvicts(s, pn, i, t, j);
    } else {
      Alone(s, pn, j);
    }
  }

  // -- when nothing has to go --

  /** At most `cap` intervals can hold exactly these numbers. */
  ghost predicate Holdable(numbers: set<nat>, cap: nat) {
    exists list :: WellFormed(list) && Numbers(list) == numbers && |list| <= cap
  }

  lemma HeldBy(list: seq<Interval>, cap: nat)
    requires WellFormed(list) && |list| <= cap
    ensures Holdable(Numbers(list), cap)
  {
  }

  /** A set needs as many intervals as any list of it has. */
  lemma HoldableIff(list: seq<Interval>, cap: nat)
    requires WellFormed(list)
    ensures Holdable(Numbers(list), cap) <==> |list| <= cap
  {
    if Holdable(Numbers(list), cap) {
      var other :| WellFormed(other) && Numbers(other) == Numbers(list) && |other| <= cap;
      CanonicalUnique(AsRanges(other), AsRanges(list));
    }
  }

  lemma LowestIsHeld(s: seq<Interval>)
    requires WellFormed(s) && s != []
    ensures s[0].smallest in Numbers(s) && s[0].smallest in SpanOf(AsRange(s[0]))
  {
    FirstRun(AsRanges(s));
  }

  /** Recording a new number loses nothing exactly when the capacity can hold what there is then. */
  lemma KeptAllIff(s: seq<Interval>, pn: nat, i: nat, cap: nat, full: bool)
    requires WellFormed(s) && Bounded(s) && pn <= MAX_VALUE && Position(s, pn, i) && (i < |s| ==> pn < s[i].smallest)
    requires 0 < cap && |s| <= cap && full == (|s| == cap) && pn !in Numbers(s)
    ensures Kept(s, pn, full) + {pn} == Numbers(s) + {pn} <==> Holdable(Numbers(s) + {pn}, cap)
  {
    Neighbours(s, pn, i);
    if Isolated(s, pn) {
      Alone(s, pn, i);
      HoldableIff(Spliced(s, pn, i), cap);
      if full {
        LowestIsHeld(s);
        assert s[0].smallest !in Kept(s, pn, full) + {pn};
      }
    } else {
      AddedNumbers(s, pn, i);
      HeldBy(Added(s, pn, i), cap);
    }
  }

  /** What happens below all ranges: the lowest range goes, and the lower new number stays. */
  lemma FullBelowAll(s: seq<Interval>, pn: nat)
    requires WellFormed(s) && Bounded(s) && s != [] && pn + 1 < s[0].smallest
    ensures Isolated(s, pn) && Kept(s, pn, true) + {pn} == Numbers(s[1..]) + {pn}
    ensures s[0].largest !in Kept(s, pn, true) + {pn} && pn < s[0].largest
  {
    forall k | 0 <= k < |s|
      ensures pn + 1 < s[k].smallest
    {
      assert k > 0 ==> AsRanges(s)[0].end < AsRanges(s)[k].offset;
      Ordered(s, 0);
    }
    DropLowest(s);
    Ordered(s, 0);
    assert s[0].largest in SpanOf(AsRange(s[0]));
  }

  /** The last interval ends at the largest number. */
  lemma TopIsLargest(s: seq<Interval>)
    requires WellFormed(s) && s != []
    ensures s[|s| - 1].largest in Numbers(s)
    ensures forall x :: x in Numbers(s) ==> x <= s[|s| - 1].largest
  {
    var list, n := AsRanges(s), |s| - 1;
    assert list == list[..n] + [list[n]];
    PointsConcat(list[..n], [list[n]]);
    assert Points([list[n]]) == SpanOf(list[n]);
    PointsBelow(list[..n], s[n].largest);
  }

  predicate Above(pn: nat, largest: Option<nat>) { largest == None || pn > largest.value }

  ghost function Top(s: seq<Interval>): Option<nat> {
    if s == [] then None else Some(s[|s| - 1].largest)
  }

  /** Recording a number moves the top exactly when it is a new largest number. */
  lemma NewLargest(was: seq<Interval>, s: seq<Interval>, pn: nat, evicted: bool)
    requires WellFormed(was) && WellFormed(s) && (evicted ==> |was| >= 2)
    requires Numbers(s) == (if evicted then Numbers(was) - SpanOf(AsRange(was[0])) else Numbers(was)) + {pn}
    ensures Top(s) == if Above(pn, Top(was)) then Some(pn) else Top(was)
  {
    assert pn in Numbers(s);
    TopIsLargest(s);
    if was != [] {
      TopIsLargest(was);
      var wasTop, top := was[|was| - 1].largest, s[|s| - 1].largest;
      if evicted {
        assert AsRanges(was)[0].end < AsRanges(was)[|was| - 1].offset < AsRanges(was)[|was| - 1].end;
        assert wasTop !in SpanOf(AsRange(was[0]));
      }
      assert wasTop in Numbers(s);
      assert top == pn || top in Numbers(was);
    }
  }

  /** The `n` highest intervals, highest first. */
  ghost function Down(s: seq<Interval>, n: nat): (d: seq<Interval>)
    requires n <= |s|
    ensures |d| == n && forall k :: 0 <= k < n ==> d[k] == s[|s| - 1 - k]
  {
    if n == 0 then [] else [s[|s| - 1]] + Down(s[..|s| - 1], n - 1)
  }

  /** Reading the highest intervals from the top down acknowledges the same numbers. */
  lemma {:induction false} DownNumbers(s: seq<Interval>, n: nat)
    requires n <= |s|
    ensures Numbers(Down(s, n)) == Numbers(s[|s| - n..])
  {
    if n == 0 {
      assert s[|s|..] == [];
    } else {
      var init, last := s[..|s| - 1], s[|s| - 1];
      DownNumbers(init, n - 1);
      assert s[|s| - n..] == init[|init| - (n - 1)..] + [last];
      assert AsRanges(s[|s| - n..]) == AsRanges(init[|init| - (n - 1)..]) + [AsRange(last)];
      PointsConcat(AsRanges(init[|init| - (n - 1)..]), [AsRange(last)]);
      assert AsRanges(Down(s, n)) == [AsRange(last)] + AsRanges(Down(init, n - 1));
      PointsConcat([AsRange(last)], AsRanges(Down(init, n - 1)));
    }
  }

  lemma Ordered(s: seq<Interval>, i: nat)
    requires WellFormed(s) && Bounded(s) && i < |s|
    ensures s[i].smallest <= s[i].largest <= MAX_VALUE
    ensures i + 1 < |s| ==> s[i].largest + 2 <= s[i + 1].smallest
  {
    assert AsRanges(s)[i].offset < AsRanges(s)[i].end;
    assert i + 1 < |s| ==> AsRanges(s)[i].end < AsRanges(s)[i + 1].offset;
  }

  /** The pair for the interval below the `k` highest lower ones. */
  ghost function NextPair(s: seq<Interval>, k: nat): seq<Byte>
    requires WellFormed(s) && Bounded(s) && k + 1 < |s|
  {
    Ordered(s, |s| - 1 - k);
    Ordered(s, |s| - 2 - k);
    PairBytes(s[|s| - 1 - k].smallest, s[|s| - 2 - k])
  }

  /** `bytes` are the pairs of `lower`, intervals below `top`. */
  ghost predicate PairsBelow(top: Interval, lower: seq<Interval>, bytes: seq<Byte>) {
    && top.smallest <= top.largest <= MAX_VALUE
    && Chain(top.smallest, lower) && bytes == RangesBytes(top.smallest, lower)
  }

  /** `bytes` are the pairs of the `k` intervals below the highest. */
  ghost predicate PairsOf(s: seq<Interval>, k: nat, bytes: seq<Byte>) {
    k < |s| && PairsBelow(s[|s| - 1], Down(s, k + 1)[1..], bytes)
  }

  lemma NoPairs(s: seq<Interval>)
    requires WellFormed(s) && Bounded(s) && s != []
    ensures PairsOf(s, 0, [])
  {
    Ordered(s, |s| - 1);
    assert Down(s, 1)[1..] == [];
  }

  lemma OneMorePair(s: seq<Interval>, k: nat, bytes: seq<Byte>)
    requires WellFormed(s) && Bounded(s) && k + 1 < |s| && PairsOf(s, k, bytes)
    ensures PairsOf(s, k + 1, bytes + NextPair(s, k))
  {
    Ordered(s, |s| - 1 - k);
    Ordered(s, |s| - 2 - k);
    DownNext(s, k);
    RangesAppend(s[|s| - 1].smallest, Down(s, k + 1)[1..], s[|s| - 2 - k]);
  }

  /** The next interval down, after the `k` below the highest. */
  lemma {:induction false} DownNext(s: seq<Interval>, k: nat)
    requires k + 1 < |s|
    ensures Down(s, k + 2)[1..] == Down(s, k + 1)[1..] + [s[|s| - 2 - k]]
    ensures Floor(s[|s| - 1].smallest, Down(s, k + 1)[1..]) == s[|s| - 1 - k].smallest
  {
    var longer, shorter := Down(s, k + 2), Down(s, k + 1);
    forall i | 0 <= i < k
      ensures longer[1..][i] == shorter[1..][i]
    {
      assert longer[i + 1] == s[|s| - 2 - i] == shorter[i + 1];
    }
    assert longer[1..][k] == longer[k + 1];
    assert k > 0 ==> shorter[1..][k - 1] == shorter[k];
  }

  lemma PairsMakeFrame(s: seq<Interval>, k: nat, bytes: seq<Byte>)
    requires PairsOf(s, k, bytes)
    ensures FrameOf(s, Ack(s[|s| - 1].largest, s[|s| - 1].largest - s[|s| - 1].smallest, k, bytes))
  {
    var down := Down(s, k + 1);
    PairsWalkBack(down[0], down[1..], bytes);
    assert [down[0]] + down[1..] == down;
  }

  lemma PairsWalkBack(top: Interval, lower: seq<Interval>, bytes: seq<Byte>)
    requires PairsBelow(top, lower, bytes)
    ensures Intervals(Ack(top.largest, top.largest - top.smallest, |lower|, bytes)) == Walk([top] + lower, None)
  {
    RangesRoundTrip(top.smallest, lower, bytes);
    FirstThenLower(top, |lower|, bytes, lower);
  }

  /** The frame acknowledges exactly the highest intervals of the list, as many as it says. */
  ghost predicate FrameOf(s: seq<Interval>, ack: Ack) {
    && ack.rangeCount < |s|
    && Intervals(ack) == Walk(Down(s, ack.rangeCount + 1), None)
  }

  /** The frame keeps to the limits and leaves out an interval only when the next pair would not fit. */
  ghost predicate FrameWithin(s: seq<Interval>, ack: Ack, capacity: nat, maxLower: nat)
    requires WellFormed(s) && Bounded(s)
  {
    && FrameOf(s, ack) && PairsOf(s, ack.rangeCount, ack.rangesBytes)
    && ack.rangeCount <= maxLower && |ack.rangesBytes| <= capacity
    && (ack.rangeCount < Min(|s| - 1, maxLower) ==> |ack.rangesBytes| + |NextPair(s, ack.rangeCount)| > capacity)
  }

  /** The pairs of all intervals fit. */
  ghost predicate AllPairsFit(s: seq<Interval>, buffer: nat) {
    s != [] && exists all :: PairsOf(s, |s| - 1, all) && |all| <= buffer
  }

  /** The pairs of all intervals start with those of the first few. */
  lemma {:induction false} PairsGrow(s: seq<Interval>, k: nat, bytes: seq<Byte>) returns (all: seq<Byte>)
    requires WellFormed(s) && Bounded(s) && PairsOf(s, k, bytes)
    ensures PairsOf(s, |s| - 1, all) && |bytes| <= |all|
    ensures k + 1 < |s| ==> |bytes| + |NextPair(s, k)| <= |all|
    decreases |s| - k
  {
    if k + 1 < |s| {
      OneMorePair(s, k, bytes);
      all := PairsGrow(s, k + 1, bytes + NextPair(s, k));
    } else {
      all := bytes;
    }
  }

  /** A frame that left an interval out for want of room left it out because all would not fit. */
  lemma LeftOutForRoom(s: seq<Interval>, ack: Ack, capacity: nat)
    requires WellFormed(s) && Bounded(s) && s != [] && FrameWithin(s, ack, capacity, |s|)
    ensures ack.rangeCount == |s| - 1 <==> AllPairsFit(s, capacity)
  {
    var all := PairsGrow(s, ack.rangeCount, ack.rangesBytes);
    if AllPairsFit(s, capacity) {
      var fits :| PairsOf(s, |s| - 1, fits) && |fits| <= capacity;
      assert fits == all;
    }
  }

  /** The gap and length that lead from interval `i` down to the next. */
  method PairBelow(s: seq<Interval>, i: nat) returns (pair: seq<Byte>)
    requires WellFormed(s) && Bounded(s) && 0 < i < |s|
    ensures pair == NextPair(s, |s| - 1 - i)
  {
    Ordered(s, i - 1);
    Ordered(s, i);
    var gap, length := s[i].smallest - s[i - 1].largest - 2, s[i - 1].largest - s[i - 1].smallest;
    pair := Encode(gap) + Encode(length);
  }

  /** Walks the intervals from the top down, writing pairs while the limits allow. */
  method LowerPairs(s: seq<Interval>, capacity: nat, maxLower: nat) returns (bytes: seq<Byte>, included: nat)
    requires WellFormed(s) && Bounded(s) && s != []
    ensures PairsOf(s, included, bytes) && included <= maxLower && |bytes| <= capacity
    ensures included < Min(|s| - 1, maxLower) ==> |bytes| + |NextPair(s, included)| > capacity
  {
    var i: nat := |s| - 1;
    bytes, included := [], 0;
    NoPairs(s);
    while i > 0 && included < maxLower
      invariant i + included == |s| - 1 && included <= maxLower
      invariant |bytes| <= capacity && PairsOf(s, included, bytes)
    {
      var fits, longer := WithNextPair(s, i, included, bytes, capacity);
      if !fits {
        break;
      }
      bytes, i, included := longer, i - 1, included + 1;
    }
  }

  /** The bytes with the next pair, if they stay within the capacity. */
  method WithNextPair(s: seq<Interval>, i: nat, ghost k: nat, bytes: seq<Byte>, capacity: nat)
    returns (fits: bool, longer: seq<Byte>)
    requires WellFormed(s) && Bounded(s) && 0 < i && i + k == |s| - 1 && PairsOf(s, k, bytes)
    ensures PairsOf(s, k + 1, longer) && (fits <==> |bytes| + |NextPair(s, k)| <= capacity)
    ensures fits ==> |longer| <= capacity
  {
    OneMorePair(s, k, bytes);
    var pair := PairBelow(s, i);
    longer := bytes + pair;
    fits := |longer| <= capacity;
  }

  method BuildFrame(s: seq<Interval>, capacity: nat, maxLower: nat) returns (ack: Ack)
    requires WellFormed(s) && Bounded(s) && s != []
    ensures FrameWithin(s, ack, capacity, maxLower)
  {
    var bytes, included := LowerPairs(s, capacity, maxLower);
    PairsMakeFrame(s, included, bytes);
    ack := Ack(s[|s| - 1].largest, s[|s| - 1].largest - s[|s| - 1].smallest, included, bytes);
  }

  /** When to acknowledge at once; zero turns a rule off. */
  datatype Rules = Rules(threshold: nat, quickGapUs: nat, reorder: nat)

  /** A packet that far or more behind the largest received, or more than that far above it. */
  predicate Reordered(pn: nat, previous: Option<nat>, reorder: nat) {
    && previous.Some? && reorder != 0
    && ((pn < previous.value && previous.value - pn >= reorder) || pn > previous.value + reorder)
  }

  lemma OpenedUp(was: seq<Interval>, now: seq<Interval>, i: nat, n: nat, x: Interval)
    requires i <= n < |was| == |now| && now[i] == x
    requires forall j :: 0 <= j < i ==> now[j] == was[j]
    requires forall j :: i < j <= n ==> now[j] == was[j - 1]
    ensures now[..n + 1] == was[..n][..i] + [x] + was[..n][i..]
  {
  }

  class Tracker {
    var slots: array<Interval>
    var rangeCount: nat
    var largest: Option<nat>
    var largestAt: nat
    var pendingAck: bool
    var delayedAckArmed: bool
    var delayedAckStart: nat
    var ackElicitingSinceAck: nat
    var lastAckElicitingUs: nat
    /** When the oldest ack-eliciting packet arrived that no sent ACK answers. */
    ghost var owedSince: Option<nat>
    /** How many ack-eliciting packets no sent ACK answers. */
    ghost var owedCount: nat

    constructor ()
      ensures Valid() && Received() == {} && fresh(slots) && slots.Length == INLINE_RANGES && rangeCount == 0
      ensures !pendingAck && !delayedAckArmed && owedCount == 0
    {
      slots := new Interval[INLINE_RANGES](_ => Interval(0, 0));
      rangeCount, largest := 0, None;
      pendingAck, delayedAckArmed, owedSince, owedCount := false, false, None, 0;
      largestAt, delayedAckStart, ackElicitingSinceAck, lastAckElicitingUs := 0, 0, 0, 0;
    }

    ghost function Ranges(): seq<Interval>
      requires rangeCount <= slots.Length
      reads this`rangeCount, this`slots, slots
    {
      slots[..rangeCount]
    }

    /** The intervals are in order and every number fits a varint. */
    ghost predicate Shaped()
      reads this`rangeCount, this`slots, slots
    {
      && rangeCount <= slots.Length
      && slots.Length in {INLINE_RANGES, MAX_RANGES}
      && WellFormed(Ranges())
      && Bounded(Ranges())
    }

    ghost predicate LargestKnown()
      reads this`rangeCount, this`slots, this`largest, slots
    {
      && Shaped()
      && largest == Top(Ranges())
    }

    /** Whatever is owed is pending or on the delayed-ACK timer, counted from its arrival. */
    ghost predicate Scheduled()
      reads this`pendingAck, this`delayedAckArmed, this`delayedAckStart, this`ackElicitingSinceAck,
        this`owedSince, this`owedCount
    {
      && (owedSince.Some? ==> pendingAck || delayedAckArmed)
      && (delayedAckArmed ==> owedSince == Some(delayedAckStart)) && (owedSince == None <==> owedCount == 0)
      && (delayedAckArmed && !pendingAck ==> ackElicitingSinceAck == Min(owedCount, 255))
    }

    ghost predicate Valid()
      reads this, slots
    {
      LargestKnown() && Scheduled()
    }

    /** The packet numbers the tracker will acknowledge. */
    ghost function Received(): set<nat>
      requires rangeCount <= slots.Length
      reads this`rangeCount, this`slots, slots
    {
      Numbers(Ranges())
    }

    /** A new interval has nowhere to go but the lowest interval's place. */
    ghost predicate Full(memory: bool)
      reads this`rangeCount, this`slots
    {
      rangeCount == slots.Length && !(memory && slots.Length == INLINE_RANGES)
    }

    /** How many ranges there is room for. */
    ghost function Capacity(memory: bool): nat
      reads this`slots
    {
      if memory then MAX_RANGES else slots.Length
    }

    method Locate(pn: nat) returns (i: nat)
      requires Shaped()
      ensures Position(Ranges(), pn, i)
    {
      i := 0;
      while i < rangeCount && slots[i].largest < pn
        invariant i <= rangeCount
        invariant forall k :: 0 <= k < i ==> slots[k].largest < pn
      {
        i := i + 1;
      }
      assert forall j, k :: 0 <= j < k < rangeCount ==> AsRanges(Ranges())[j].end < AsRanges(Ranges())[k].offset;
      assert forall k :: 0 <= k < rangeCount ==> AsRanges(Ranges())[k].offset < AsRanges(Ranges())[k].end;
    }

    /** Closes the gap at `idx`. */
    method ShiftLeft(idx: nat)
      requires idx < rangeCount <= slots.Length
      modifies this`rangeCount, slots
      ensures rangeCount == old(rangeCount) - 1
      ensures Ranges() == old(Ranges()[..idx] + Ranges()[idx + 1..])
    {
      var k := idx;
      while k + 1 < rangeCount
        invariant idx <= k < rangeCount == old(rangeCount)
        invariant forall j :: 0 <= j < idx || k < j < rangeCount ==> slots[j] == old(slots[j])
        invariant forall j :: idx <= j < k ==> slots[j] == old(slots[j + 1])
      {
        slots[k] := slots[k + 1];
        k := k + 1;
      }
      rangeCount := rangeCount - 1;
    }

    /** Opens a place at `i` and puts `x` there. */
    method InsertAt(i: nat, x: Interval)
      requires i <= rangeCount < slots.Length
      modifies this`rangeCount, slots
      ensures rangeCount == old(rangeCount) + 1
      ensures Ranges() == old(Ranges()[..i]) + [x] + old(Ranges()[i..])
    {
      ghost var was := slots[..];
      var k := rangeCount;
      while k > i
        invariant i <= k <= rangeCount == old(rangeCount)
        invariant forall j :: 0 <= j < k ==> slots[j] == was[j]
        invariant forall j :: k < j <= rangeCount ==> slots[j] == was[j - 1]
      {
        slots[k] := slots[k - 1];
        k := k - 1;
      }
      slots[i] := x;
      OpenedUp(was, slots[..], i, rangeCount, x);
      rangeCount := rangeCount + 1;
    }

    /** Moves the ranges to a block of `MAX_RANGES`. */
    method GrowToHeap()
      requires Shaped() && slots.Length == INLINE_RANGES
      modifies this`slots
      ensures Shaped() && fresh(slots) && slots.Length == MAX_RANGES && Ranges() == old(Ranges())
    {
      var block := new Interval[MAX_RANGES](_ => Interval(0, 0));
      var k := 0;
      while k < rangeCount
        invariant Shaped() && fresh(block) && Ranges() == old(Ranges()) && slots == old(slots)
        invariant k <= rangeCount && block[..k] == slots[..k]
      {
        block[k] := slots[k];
        k := k + 1;
      }
      slots := block;
    }

    /** Widens the interval or the two intervals next to `pn`. */
    method Extend(pn: nat, i: nat)
      requires Shaped() && i <= rangeCount
      requires ExtendsBelow(Ranges(), pn, i) || ExtendsAbove(Ranges(), pn, i)
      modifies this`rangeCount, slots
      ensures rangeCount <= slots.Length && rangeCount <= old(rangeCount) && Ranges() == Added(old(Ranges()), pn, i)
    {
      var below := i > 0 && slots[i - 1].largest + 1 == pn;
      var above := i < rangeCount && slots[i].smallest == pn + 1;
      AddedIs(Ranges(), pn, i);
      if below && above {
        slots[i - 1] := Interval(slots[i - 1].smallest, slots[i].largest);
        ShiftLeft(i);
      } else if below {
        slots[i - 1] := Interval(slots[i - 1].smallest, pn);
      } else {
        slots[i] := Interval(pn, slots[i].largest);
      }
    }

    /** Gives `pn` an interval of its own, in the place of the lowest one when there is no other room. */
    method InsertAlone(pn: nat, at: nat, memory: bool)
      requires Shaped() && at <= rangeCount
      modifies this`rangeCount, this`slots, slots
      ensures slots == old(slots) || (memory && fresh(slots))
      ensures rangeCount <= slots.Length && slots.Length in {INLINE_RANGES, MAX_RANGES}
      ensures rangeCount <= old(rangeCount) + 1
      ensures var s, i := if old(Full(memory)) then old(Ranges())[1..] else old(Ranges()),
                          if old(Full(memory)) && at > 0 then at - 1 else at;
        Ranges() == Spliced(s, pn, i)
    {
      var i := at;
      if rangeCount == slots.Length {
        if memory && slots.Length == INLINE_RANGES {
          GrowToHeap();
        } else {
          ghost var was := Ranges();
          ShiftLeft(0);
          assert Ranges() == was[1..];
          i := if i > 0 then i - 1 else i;
        }
      }
      InsertAt(i, Interval(pn, pn));
    }

    /** Records `pn`, which no interval holds, at its position. */
    method Place(pn: nat, i: nat, memory: bool)
      requires Shaped() && pn <= MAX_VALUE && Position(Ranges(), pn, i) && (i < rangeCount ==> pn < slots[i].smallest)
      modifies this`rangeCount, this`slots, slots
      ensures Shaped() && (slots == old(slots) || (memory && fresh(slots))) && rangeCount <= old(rangeCount) + 1
      ensures Received() == Kept(old(Ranges()), pn, old(Full(memory))) + {pn}
    {
      ghost var was := Ranges();
      Neighbours(was, pn, i);
      if (i > 0 && slots[i - 1].largest + 1 == pn) || (i < rangeCount && slots[i].smallest == pn + 1) {
        Extend(pn, i);
        AddedNumbers(was, pn, i);
        AddedBounded(was, pn, i);
      } else {
        ghost var t, j := if Full(memory) then was[1..] else was, if Full(memory) && i > 0 then i - 1 else i;
        AloneNumbers(was, pn, i, Full(memory), t, j);
        InsertAlone(pn, i, memory);
      }
    }

    /** Records `pn` at its position and keeps the largest number. */
    method AddNew(pn: nat, i: nat, memory: bool)
      requires LargestKnown() && pn <= MAX_VALUE && Position(Ranges(), pn, i)
      requires i < rangeCount ==> pn < slots[i].smallest
      modifies this`rangeCount, this`slots, this`largest, slots
      ensures LargestKnown() && (slots == old(slots) || (memory && fresh(slots))) && rangeCount <= old(rangeCount) + 1
      ensures Received() == Kept(old(Ranges()), pn, old(Full(memory))) + {pn}
    {
      var previous := largest;
      ghost var was, full := Ranges(), Full(memory);
      Place(pn, i, memory);
      NewLargest(was, Ranges(), pn, full && Isolated(was, pn));
      if Above(pn, previous) {
        largest := Some(pn);
      }
    }

    lemma AllKeptIff(pn: nat, i: nat, memory: bool)
      requires Shaped() && pn <= MAX_VALUE && Position(Ranges(), pn, i)
      ensures var all := Received() + {pn};
        if pn in Received() then all == Received() && Holdable(all, Capacity(memory))
        else Kept(Ranges(), pn, Full(memory)) + {pn} == all <==> Holdable(all, Capacity(memory))
    {
      Holds(Ranges(), pn, i);
      if pn in Received() {
        assert Received() + {pn} == Received();
        HeldBy(Ranges(), Capacity(memory));
      } else {
        KeptAllIff(Ranges(), pn, i, Capacity(memory), rangeCount == Capacity(memory));
      }
    }

    /** Records `pn`; false for a number already held. */
    method Add(pn: nat, memory: bool) returns (inserted: bool)
      requires LargestKnown() && pn <= MAX_VALUE
      modifies this`rangeCount, this`slots, this`largest, slots
      ensures LargestKnown() && (slots == old(slots) || (memory && fresh(slots))) && rangeCount <= old(rangeCount) + 1
      ensures old(Valid()) ==> Valid()
      ensures inserted <==> pn !in old(Received())
      ensures Received() == if inserted then Kept(old(Ranges()), pn, old(Full(memory))) + {pn} else old(Received())
      ensures Received() == old(Received()) + {pn} <==> Holdable(old(Received()) + {pn}, old(Capacity(memory)))
    {
      var i := Locate(pn);
      Holds(Ranges(), pn, i);
      AllKeptIff(pn, i, memory);
      inserted := !(i < rangeCount && pn >= slots[i].smallest);
      if inserted {
        AddNew(pn, i, memory);
      }
    }

    /** The packet is acknowledged at once: reordering, enough packets owed an answer, or a quiet line before it. */
    ghost predicate AtOnce(pn: nat, previous: Option<nat>, owed: nat, rules: Rules, nowUs: nat, lastUs: nat) {
      || (previous.Some? && rules.reorder != 0
          && !(previous.value < pn + rules.reorder && pn <= previous.value + rules.reorder))
      || (rules.threshold != 0 && Min(owed, 255) >= rules.threshold)
      || (rules.quickGapUs != 0 && nowUs - lastUs >= rules.quickGapUs)
    }

    /**
     Each rule alone: a threshold of one to 255 packets, whatever their numbers; a packet at least `d` below or more
     than `d` above the greatest before it; a gap of at least `d` on the line. Zero turns a rule off.
     */
    lemma RulesAlone(pn: nat, previous: Option<nat>, owed: nat, d: nat, nowUs: nat, lastUs: nat)
      ensures AtOnce(pn, previous, owed, Rules(d, 0, 0), nowUs, lastUs) <==> 1 <= d <= owed && d <= 255
      ensures AtOnce(pn, previous, owed, Rules(0, 0, d), nowUs, lastUs) <==>
        d > 0 && previous.Some? && (pn + d <= previous.value || previous.value + d < pn)
      ensures AtOnce(pn, previous, owed, Rules(0, d, 0), nowUs, lastUs) <==> d > 0 && lastUs + d <= nowUs
    {
    }

    /** Schedules the ACK a new ack-eliciting packet is owed. */
    method Schedule(pn: nat, previous: Option<nat>, now: nat, nowUs: nat, rules: Rules)
      requires Scheduled()
      modifies this`pendingAck, this`delayedAckArmed, this`delayedAckStart, this`ackElicitingSinceAck,
        this`lastAckElicitingUs, this`owedSince, this`owedCount
      ensures Scheduled() && owedSince == Some(if old(owedSince).Some? then old(owedSince).value else now)
      ensures owedCount == old(owedCount) + 1 && lastAckElicitingUs == nowUs
      ensures pendingAck <==> old(pendingAck) || AtOnce(pn, previous, owedCount, rules, nowUs, old(lastAckElicitingUs))
    {
      var quiet := rules.quickGapUs != 0 && nowUs - lastAckElicitingUs >= rules.quickGapUs;
      lastAckElicitingUs := nowUs;
      owedSince, owedCount := if owedSince.Some? then owedSince else Some(now), owedCount + 1;
      if pendingAck {
        return;
      }
      if !delayedAckArmed {
        delayedAckArmed, delayedAckStart, ackElicitingSinceAck := true, now, 0;
      }
      ackElicitingSinceAck := if ackElicitingSinceAck < 255 then ackElicitingSinceAck + 1 else 255;
      var enough := rules.threshold != 0 && ackElicitingSinceAck >= rules.threshold;
      if Reordered(pn, previous, rules.reorder) || enough || quiet {
        pendingAck := true;
      }
    }

    /** What a packet does to the clocks and to what is owed: nothing, when it was seen before. */
    method Arrive(pn: nat, isNew: bool, previous: Option<nat>, now: nat, ackEliciting: bool, nowUs: nat, rules: Rules)
      requires Scheduled()
      modifies this`largestAt, this`pendingAck, this`delayedAckArmed, this`delayedAckStart, this`ackElicitingSinceAck,
        this`lastAckElicitingUs, this`owedSince, this`owedCount
      ensures Scheduled() && largestAt == if isNew && Above(pn, previous) then now else old(largestAt)
      ensures owedCount == old(owedCount) + if isNew && ackEliciting then 1 else 0
      ensures lastAckElicitingUs == if isNew && ackEliciting then nowUs else old(lastAckElicitingUs)
      ensures owedSince == if isNew && ackEliciting && old(owedSince) == None then Some(now) else old(owedSince)
      ensures pendingAck == (old(pendingAck) ||
          (isNew && ackEliciting && AtOnce(pn, previous, owedCount, rules, nowUs, old(lastAckElicitingUs))))
    {
      if !isNew {
        return;
      }
      if Above(pn, previous) {
        largestAt := now;
      }
      if ackEliciting {
        Schedule(pn, previous, now, nowUs, rules);
      }
    }

    /** Records a packet under the delayed-ACK rules. */
    method AddPacketDelayed(pn: nat, now: nat, ackEliciting: bool, nowUs: nat, rules: Rules, memory: bool)
      returns (ghost isNew: bool)
      requires Valid() && pn <= MAX_VALUE
      modifies this, slots
      ensures Valid() && (slots == old(slots) || (memory && fresh(slots))) && (isNew <==> pn !in old(Received()))
      ensures Received() == if isNew then Kept(old(Ranges()), pn, old(Full(memory))) + {pn} else old(Received())
      ensures largestAt == if isNew && Above(pn, old(largest)) then now else old(largestAt)
      ensures owedCount == old(owedCount) + if isNew && ackEliciting then 1 else 0
      ensures lastAckElicitingUs == if isNew && ackEliciting then nowUs else old(lastAckElicitingUs)
      ensures owedSince == if isNew && ackEliciting && old(owedSince) == None then Some(now) else old(owedSince)
      ensures pendingAck == (old(pendingAck) ||
          (isNew && ackEliciting && AtOnce(pn, old(largest), owedCount, rules, nowUs, old(lastAckElicitingUs))))
    {
      var previous := largest;
      var inserted := Add(pn, memory);
      Arrive(pn, inserted, previous, now, ackEliciting, nowUs, rules);
      isNew := inserted;
    }

    /** The arrival the delay field of the next ACK frame is counted from. */
    function AckDelayBase(): (base: Option<nat>)
      requires Scheduled()
      reads this
      ensures base.Some? <==> pendingAck || delayedAckArmed
      ensures delayedAckArmed ==> base == owedSince
    {
      if delayedAckArmed then Some(delayedAckStart) else if pendingAck then Some(largestAt) else None
    }

    /** The delayed-ACK timer: no ack-eliciting packet waits longer than the peer was promised. */
    method PromoteDelayedAck(now: nat, maxAckDelay: nat) returns (fired: bool)
      requires Valid()
      modifies this`pendingAck, this`delayedAckArmed
      ensures Valid()
      ensures owedSince.Some? && owedSince.value + maxAckDelay <= now ==> pendingAck
      ensures fired <==> old(!pendingAck && delayedAckArmed && delayedAckStart + maxAckDelay <= now)
      ensures pendingAck == (old(pendingAck) || fired) && delayedAckArmed == (old(delayedAckArmed) && !fired)
    {
      if pendingAck || !delayedAckArmed || now < delayedAckStart + maxAckDelay {
        return false;
      }
      pendingAck, delayedAckArmed := true, false;
      fired := true;
    }

    /** An ACK frame went out: nothing is owed, every range stays. */
    method MarkAckSent()
      requires Valid()
      modifies this`pendingAck, this`delayedAckArmed, this`ackElicitingSinceAck, this`owedSince, this`owedCount
      ensures Valid() && owedCount == 0 && !pendingAck && !delayedAckArmed
    {
      pendingAck, delayedAckArmed, ackElicitingSinceAck, owedSince, owedCount := false, false, 0, None, 0;
    }

    /** Builds an ACK frame of the highest interval and as many lower ones as the limits and the buffer allow. */
    method ToAckFrameLimitedRanges(buffer: nat, maxBytes: nat, maxLower: nat) returns (r: Result<Ack, BuildError>)
      requires Shaped()
      ensures if rangeCount == 0 then r == Err(Empty) else r.Ok?
      ensures r.Ok? ==> FrameWithin(Ranges(), r.value, Min(buffer, maxBytes), maxLower)
    {
      if rangeCount == 0 {
        return Err(Empty);
      }
      var ack := BuildFrame(slots[..rangeCount], Min(buffer, maxBytes), maxLower);
      r := Ok(ack);
    }

    /** The frame of every interval, or an error when the buffer cannot hold it. */
    method ToAckFrame(buffer: nat) returns (r: Result<Ack, BuildError>)
      requires Shaped()
      ensures r == Err(Empty) <==> rangeCount == 0
      ensures r.Ok? <==> AllPairsFit(Ranges(), buffer)
      ensures r.Ok? ==> Intervals(r.value).error == None && Numbers(Intervals(r.value).intervals) == Received()
    {
      r := ToAckFrameLimitedRanges(buffer, buffer, rangeCount);
      if r.Ok? {
        LeftOutForRoom(Ranges(), r.value, buffer);
      }
      if r.Ok? && r.value.rangeCount != rangeCount - 1 {
        return Err(TooSmall);
      }
      if r.Ok? {
        DownNumbers(Ranges(), rangeCount);
        assert Ranges()[rangeCount - rangeCount..] == Ranges();
      }
    }
  }
}
