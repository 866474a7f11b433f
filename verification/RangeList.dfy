/** Sorted lists of disjoint, non-touching half-open byte ranges, read as sets of offsets. */
module RangeList {

  /** The offsets from `offset` up to, not including, `end`. */
  datatype Range = Range(offset: nat, end: nat)

  ghost predicate Between(lo: nat, x: nat, hi: nat) { lo <= x < hi }

  ghost function Span(lo: nat, hi: nat): (s: set<nat>)
    ensures forall x: nat :: x in s <==> lo <= x < hi
  {
    set x: nat | lo <= x < hi && Between(lo, x, hi)
  }

  ghost function SpanOf(r: Range): set<nat> {
    Span(r.offset, r.end)
  }

  /** Every offset some range of the list covers. */
  ghost function Points(list: seq<Range>): set<nat> {
    if list == [] then {} else SpanOf(list[0]) + Points(list[1..])
  }

  /** No range is empty, and a gap of at least one offset separates any two. */
  ghost predicate Canonical(list: seq<Range>) {
    && (forall i :: 0 <= i < |list| ==> list[i].offset < list[i].end)
    && (forall i, j :: 0 <= i < j < |list| ==> list[i].end < list[j].offset)
  }

  lemma {:induction false} PointsConcat(a: seq<Range>, b: seq<Range>)
    ensures Points(a + b) == Points(a) + Points(b)
  {
    if a == [] {
      assert a + b == b;
    } else {
      assert (a + b)[1..] == a[1..] + b;
      PointsConcat(a[1..], b);
    }
  }

  /** The points of a list cut into a head, one range and a tail. */
  lemma PointsSplit(a: seq<Range>, r: Range, b: seq<Range>)
    ensures Points(a + [r] + b) == Points(a) + SpanOf(r) + Points(b)
  {
    PointsConcat(a + [r], b);
    PointsConcat(a, [r]);
    assert Points([r]) == SpanOf(r);
  }

  lemma {:induction false} PointsBelow(list: seq<Range>, bound: nat)
    requires forall i :: 0 <= i < |list| ==> list[i].end <= bound
    ensures forall x :: x in Points(list) ==> x < bound
  {
    if list != [] {
      PointsBelow(list[1..], bound);
    }
  }

  lemma {:induction false} PointsFrom(list: seq<Range>, bound: nat)
    requires forall i :: 0 <= i < |list| ==> bound <= list[i].offset
    ensures forall x :: x in Points(list) ==> bound <= x
  {
    if list != [] {
      PointsFrom(list[1..], bound);
    }
  }

  /** The head of a canonical list is its lowest maximal run. */
  lemma FirstRun(list: seq<Range>)
    requires Canonical(list) && list != []
    ensures SpanOf(list[0]) <= Points(list)
    ensures list[0].offset in Points(list) && list[0].end !in Points(list)
    ensures forall x :: x in Points(list) ==> list[0].offset <= x
    ensures Points(list[1..]) == Points(list) - SpanOf(list[0])
  {
    PointsFrom(list[1..], list[0].end + 1);
  }

  /** A set of offsets has at most one canonical list. */
  lemma {:induction false} CanonicalUnique(a: seq<Range>, b: seq<Range>)
    requires Canonical(a) && Canonical(b) && Points(a) == Points(b)
    ensures a == b
  {
    if a != [] {
      FirstRun(a);
    }
    if b != [] {
      FirstRun(b);
    }
    if a != [] && b != [] {
      assert a[0].offset == b[0].offset;
      assert a[0] == b[0];
      CanonicalUnique(a[1..], b[1..]);
      assert a == [a[0]] + a[1..] && b == [b[0]] + b[1..];
    }
  }

  lemma CanonicalSplice(a: seq<Range>, r: Range, b: seq<Range>)
    requires Canonical(a) && Canonical(b) && r.offset < r.end
    requires forall i :: 0 <= i < |a| ==> a[i].end < r.offset
    requires forall i :: 0 <= i < |b| ==> r.end < b[i].offset
    ensures Canonical(a + [r] + b)
  {
    var s := a + [r] + b;
    forall i, j | 0 <= i < j < |s|
      ensures s[i].end < s[j].offset
    {
      if i < |a| && |a| < j {
        assert s[i].end < r.offset < r.end < s[j].offset;
      }
    }
  }

  /** The list once what its first range covers below `cut` is gone. */
  function Behead(list: seq<Range>, cut: nat): seq<Range>
    requires list != [] && cut <= list[0].end
  {
    if cut == list[0].end then list[1..] else [Range(cut, list[0].end)] + list[1..]
  }

  lemma BeheadCut(list: seq<Range>, cut: nat)
    requires Canonical(list) && list != [] && list[0].offset < cut <= list[0].end
    ensures Canonical(Behead(list, cut)) && Points(Behead(list, cut)) == Points(list) - Span(list[0].offset, cut)
  {
    PointsFrom(list[1..], list[0].end);
    CutSpan(list[0].offset, cut, list[0].end, Points(list[1..]));
    if cut < list[0].end {
      assert Behead(list, cut)[1..] == list[1..];
    }
  }

  lemma CutSpan(lo: nat, cut: nat, hi: nat, rest: set<nat>)
    requires lo <= cut <= hi && forall x :: x in rest ==> hi <= x
    ensures (Span(lo, hi) + rest) - Span(lo, cut) == Span(cut, hi) + rest
  {
  }

  /** Takes `gone`, the points of a canonical list up to `cut`, off its first range. */
  method DropFront(list: seq<Range>, cut: nat, ghost gone: set<nat>) returns (rest: seq<Range>)
    requires Canonical(list) && list != [] && list[0].offset < cut <= list[0].end && gone == Span(list[0].offset, cut)
    ensures Canonical(rest) && Points(rest) == Points(list) - gone
    ensures rest == [] <==> Points(list) - gone == {}
  {
    BeheadCut(list, cut);
    Nonempty(Behead(list, cut));
    rest := Behead(list, cut);
  }

  lemma Nonempty(list: seq<Range>)
    requires Canonical(list)
    ensures list == [] <==> Points(list) == {}
  {
    if list != [] {
      FirstRun(list);
    }
  }

  function Min(a: nat, b: nat): nat { if a < b then a else b }

  function Max(a: nat, b: nat): nat { if a < b then b else a }

  /** The first range that ends at or after `at`. */
  method Locate(list: seq<Range>, at: nat) returns (i: nat)
    requires Canonical(list)
    ensures i <= |list|
    ensures forall k :: 0 <= k < i ==> list[k].end < at
    ensures forall k :: i <= k < |list| ==> at <= list[k].end
  {
    i := 0;
    while i < |list| && list[i].end < at
      invariant 0 <= i <= |list|
      invariant forall k :: 0 <= k < i ==> list[k].end < at
    {
      i := i + 1;
    }
  }

  /** One more range at `j` that starts inside or next to `merged` extends it without a hole. */
  lemma SwallowOne(list: seq<Range>, i: nat, j: nat, merged: Range, r: Range)
    requires Canonical(list) && i < j < |list|
    requires SpanOf(merged) == Points(list[i..j]) + SpanOf(r)
    requires merged.offset <= list[i].offset
    requires merged.offset < merged.end && list[j].offset <= merged.end
    ensures SpanOf(Range(merged.offset, Max(merged.end, list[j].end))) == Points(list[i..j + 1]) + SpanOf(r)
  {
    assert list[i..j + 1] == list[i..j] + [list[j]];
    PointsConcat(list[i..j], [list[j]]);
    assert Points([list[j]]) == SpanOf(list[j]);
    assert list[i].offset < list[j].offset;
    JoinSpans(merged, list[j]);
  }

  lemma JoinSpans(a: Range, b: Range)
    requires a.offset <= b.offset <= a.end && a.offset < a.end
    ensures SpanOf(Range(a.offset, Max(a.end, b.end))) == SpanOf(a) + SpanOf(b)
  {
  }

  /** Grows `r`, which touches `list[i]`, over the run of ranges it connects to. */
  method Swallow(list: seq<Range>, i: nat, r: Range) returns (merged: Range, j: nat)
    requires Canonical(list) && i < |list| && r.offset < r.end
    requires r.offset <= list[i].end && list[i].offset <= r.end
    ensures i < j <= |list|
    ensures merged.offset == Min(list[i].offset, r.offset) < merged.end
    ensures j < |list| ==> merged.end < list[j].offset
    ensures SpanOf(merged) == Points(list[i..j]) + SpanOf(r)
  {
    merged := Range(Min(list[i].offset, r.offset), Max(list[i].end, r.end));
    j := i + 1;
    assert list[i..j] == [list[i]];
    while j < |list| && list[j].offset <= merged.end
      invariant i < j <= |list|
      invariant merged.offset == Min(list[i].offset, r.offset) < merged.end
      invariant SpanOf(merged) == Points(list[i..j]) + SpanOf(r)
    {
      SwallowOne(list, i, j, merged, r);
      merged := Range(merged.offset, Max(merged.end, list[j].end));
      j := j + 1;
    }
  }

  lemma PointsThree(list: seq<Range>, i: nat, j: nat)
    requires i <= j <= |list|
    ensures Points(list) == Points(list[..i]) + Points(list[i..j]) + Points(list[j..])
  {
    assert list[..j] == list[..i] + list[i..j] && list == list[..j] + list[j..];
    PointsConcat(list[..i], list[i..j]);
    PointsConcat(list[..j], list[j..]);
  }

  /** Putting `merged` in the place of `list[i..j]`. */
  lemma Replace(list: seq<Range>, i: nat, merged: Range, j: nat)
    requires Canonical(list) && i <= j <= |list| && merged.offset < merged.end
    requires forall k :: 0 <= k < i ==> list[k].end < merged.offset
    requires forall k :: j <= k < |list| ==> merged.end < list[k].offset
    ensures Canonical(list[..i] + [merged] + list[j..])
    ensures Points(list[..i] + [merged] + list[j..]) == Points(list[..i]) + SpanOf(merged) + Points(list[j..])
    ensures Points(list) == Points(list[..i]) + Points(list[i..j]) + Points(list[j..])
  {
    CanonicalSplice(list[..i], merged, list[j..]);
    PointsSplit(list[..i], merged, list[j..]);
    PointsThree(list, i, j);
  }

  /** Adds a range, merging it with every range it overlaps or touches. */
  method InsertMerge(list: seq<Range>, r: Range) returns (out: seq<Range>)
    requires Canonical(list)
    ensures Canonical(out)
    ensures Points(out) == Points(list) + SpanOf(r)
    ensures |out| <= |list| + 1
  {
    if r.offset >= r.end {
      return list;
    }
    var i := Locate(list, r.offset);
    var merged, j := r, i;
    if i < |list| && list[i].offset <= r.end {
      merged, j := Swallow(list, i, r);
    } else {
      assert list[i..j] == [];
    }
    Replace(list, i, merged, j);
    out := list[..i] + [merged] + list[j..];
  }

  predicate Overlap(r: Range, rem: Range) {
    rem.offset < r.end && r.offset < rem.end
  }

  /** What is left of one range when an overlapping `rem` is taken out. */
  function Remainder(r: Range, rem: Range): (out: seq<Range>)
    requires r.offset < r.end && rem.offset < rem.end && Overlap(r, rem)
    ensures Canonical(out) && Points(out) == SpanOf(r) - SpanOf(rem)
    ensures forall i :: 0 <= i < |out| ==> r.offset <= out[i].offset && out[i].end <= r.end && !Overlap(out[i], rem)
  {
    if r.offset < rem.offset && r.end > rem.end then
      PointsSplit([], Range(r.offset, rem.offset), [Range(rem.end, r.end)]);
      [Range(r.offset, rem.offset), Range(rem.end, r.end)]
    else if r.offset >= rem.offset && r.end <= rem.end then []
    else if r.offset < rem.offset then [Range(r.offset, rem.offset)]
    else [Range(rem.end, r.end)]
  }

  lemma CanonicalWith(a: seq<Range>, mid: seq<Range>, b: seq<Range>, lo: nat, hi: nat)
    requires Canonical(a) && Canonical(mid) && Canonical(b)
    requires forall i :: 0 <= i < |a| ==> a[i].end < lo
    requires forall i :: 0 <= i < |mid| ==> lo <= mid[i].offset && mid[i].end <= hi
    requires forall i :: 0 <= i < |b| ==> hi < b[i].offset
    requires lo <= hi
    ensures Canonical(a + mid + b)
  {
  }

  lemma PointsWith(a: seq<Range>, r: Range, mid: seq<Range>, b: seq<Range>, rem: set<nat>)
    requires Points(mid) == SpanOf(r) - rem
    ensures Points(a + mid + b) - rem == Points(a + [r] + b) - rem
  {
    PointsConcat(a, mid);
    PointsConcat(a + mid, b);
    PointsSplit(a, r, b);
  }

  lemma RemoveCanonical(list: seq<Range>, i: nat, mid: seq<Range>)
    requires Canonical(list) && i < |list| && Canonical(mid)
    requires forall k :: 0 <= k < |mid| ==> list[i].offset <= mid[k].offset && mid[k].end <= list[i].end
    ensures Canonical(list[..i] + mid + list[i + 1..])
  {
    CanonicalWith(list[..i], mid, list[i + 1..], list[i].offset, list[i].end);
  }

  /** Taking `rem` out of one range leaves the rest of the list alone. */
  lemma RemoveOne(list: seq<Range>, i: nat, rem: Range)
    requires Canonical(list) && i < |list| && rem.offset < rem.end && Overlap(list[i], rem)
    ensures Canonical(list[..i] + Remainder(list[i], rem) + list[i + 1..])
    ensures Points(list[..i] + Remainder(list[i], rem) + list[i + 1..]) - SpanOf(rem) == Points(list) - SpanOf(rem)
  {
    var mid := Remainder(list[i], rem);
    RemoveCanonical(list, i, mid);
    PointsWith(list[..i], list[i], mid, list[i + 1..], SpanOf(rem));
    assert list == list[..i] + [list[i]] + list[i + 1..];
  }

  lemma {:induction false} Apart(list: seq<Range>, rem: Range)
    requires forall k :: 0 <= k < |list| ==> !Overlap(list[k], rem)
    ensures Points(list) !! SpanOf(rem)
  {
    if list != [] {
      assert !Overlap(list[0], rem);
      Apart(list[1..], rem);
    }
  }

  /** Takes every offset of `rem` out, cutting a range in two when `rem` lies strictly inside it. */
  method RemoveRange(list: seq<Range>, rem: Range) returns (out: seq<Range>)
    requires Canonical(list)
    ensures Canonical(out)
    ensures Points(out) == Points(list) - SpanOf(rem)
  {
    out := list;
    if rem.offset >= rem.end {
      return;
    }
    var i := 0;
    while i < |out|
      invariant 0 <= i <= |out| && Canonical(out)
      invariant forall k :: 0 <= k < i ==> !Overlap(out[k], rem)
      invariant Points(out) - SpanOf(rem) == Points(list) - SpanOf(rem)
      decreases |out| - i
    {
      if out[i].end <= rem.offset {
        i := i + 1;
        continue;
      }
      if out[i].offset >= rem.end {
        break;
      }
      RemoveOne(out, i, rem);
      var rest := Remainder(out[i], rem);
      out := out[..i] + rest + out[i + 1..];
      i := i + |rest|;
      if |rest| == 2 {
        break;
      }
    }
    Beyond(out, i, rem);
    Apart(out, rem);
  }

  /** Once a range starts at or past the end of `rem`, so do all after it. */
  lemma Beyond(list: seq<Range>, i: nat, rem: Range)
    requires Canonical(list) && i <= |list| && (i < |list| ==> rem.end <= list[i].offset)
    requires forall k :: 0 <= k < i ==> !Overlap(list[k], rem)
    ensures forall k :: 0 <= k < |list| ==> !Overlap(list[k], rem)
  {
    forall k | i <= k < |list|
      ensures !Overlap(list[k], rem)
    {
      assert i < k ==> list[i].end < list[k].offset;
    }
  }
}
