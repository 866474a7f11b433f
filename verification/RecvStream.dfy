/**
 The receive half as the connection keeps it: one sliding buffer and a sorted range list, refining the state machine.
 */
module RecvStream {
  import opened Wrappers
  import opened Varint
  import opened RangeList
  import opened RecvHalf

  /** What index `k` of the buffer holds once the new bytes of `data` up to `upTo` are in. */
  ghost function Patched(buffer: seq<Byte>, base: nat, held: set<nat>, offset: nat, data: seq<Byte>,
      upTo: nat, k: nat): Byte
    requires k < |buffer| && upTo <= |data|
  {
    if base <= k < base + upTo && offset + (k - base) !in held then data[k - base] else buffer[k]
  }

  ghost predicate IsPatched(out: seq<Byte>, buffer: seq<Byte>, base: nat, held: set<nat>, offset: nat,
      data: seq<Byte>, upTo: nat)
    requires upTo <= |data|
  {
    |out| == |buffer| && forall k :: 0 <= k < |buffer| ==> out[k] == Patched(buffer, base, held, offset, data, upTo, k)
  }

  /** The stretch of `[pos, end)` before the next held range, and that range's part of it. */
  method NextCovered(list: seq<Range>, i: nat, pos: nat, end: nat) returns (start: nat, stop: nat)
    requires Canonical(list) && i <= |list| && pos < end
    requires forall k :: 0 <= k < i ==> list[k].end <= pos
    requires i < |list| ==> pos < list[i].end
    ensures pos <= start <= stop <= end && (start == stop ==> stop == end)
    ensures forall x :: pos <= x < start ==> x !in Points(list)
    ensures Span(start, stop) <= Points(list)
    ensures start < stop ==> i < |list|
    ensures stop < end ==> i < |list| && stop == list[i].end
  {
    start, stop := end, end;
    if i < |list| && list[i].offset < end {
      start, stop := Max(list[i].offset, pos), Min(list[i].end, end);
      Covers(list, i);
    }
    if start > pos {
      NothingUpTo(list, i, pos, start);
    }
  }

  lemma Covers(list: seq<Range>, i: nat)
    requires i < |list|
    ensures SpanOf(list[i]) <= Points(list)
  {
    assert list == list[..i] + [list[i]] + list[i + 1..];
    PointsSplit(list[..i], list[i], list[i + 1..]);
  }

  lemma NothingUpTo(list: seq<Range>, i: nat, pos: nat, start: nat)
    requires Canonical(list) && i <= |list| && forall k :: 0 <= k < i ==> list[k].end <= pos
    requires i < |list| ==> start <= list[i].offset
    ensures forall x :: pos <= x < start ==> x !in Points(list)
  {
    assert list == list[..i] + list[i..];
    PointsConcat(list[..i], list[i..]);
    PointsBelow(list[..i], pos);
    PointsFrom(list[i..], start);
  }

  /** One stretch of new bytes and one of bytes already held. */
  lemma PatchStep(out: seq<Byte>, next: seq<Byte>, buffer: seq<Byte>, base: nat, held: set<nat>, offset: nat,
      data: seq<Byte>, done: nat, gap: nat, skip: nat)
    requires done <= gap <= skip <= |data| && base + |data| <= |buffer|
    requires IsPatched(out, buffer, base, held, offset, data, done)
    requires next == out[..base + done] + data[done..gap] + out[base + gap..]
    requires forall x :: offset + done <= x < offset + gap ==> x !in held
    requires forall x :: offset + gap <= x < offset + skip ==> x in held
    ensures IsPatched(next, buffer, base, held, offset, data, skip)
  {
  }

  /** Copies a frame's bytes into the buffer, skipping those already held. */
  method CopyGaps(buffer: seq<Byte>, base: nat, list: seq<Range>, offset: nat, data: seq<Byte>) returns (out: seq<Byte>)
    requires Canonical(list) && base + |data| <= |buffer|
    ensures IsPatched(out, buffer, base, Points(list), offset, data, |data|)
  {
    out := buffer;
    var i, done := 0, 0;
    while i < |list| && list[i].end <= offset
      invariant i <= |list| && forall k :: 0 <= k < i ==> list[k].end <= offset
    {
      i := i + 1;
    }
    while done < |data|
      invariant done <= |data| && i <= |list|
      invariant done < |data| ==> forall k :: 0 <= k < i ==> list[k].end <= offset + done
      invariant done < |data| ==> i < |list| ==> offset + done < list[i].end
      invariant IsPatched(out, buffer, base, Points(list), offset, data, done)
    {
      var start, stop := NextCovered(list, i, offset + done, offset + |data|);
      var gap, skip := start - offset, stop - offset;
      var next := out[..base + done] + data[done..gap] + out[base + gap..];
      PatchStep(out, next, buffer, base, Points(list), offset, data, done, gap, skip);
      out, done := next, skip;
      if start < stop {
        i := i + 1;
      }
    }
  }

  class Stream {
    var bytes: seq<Byte>
    var readOffset: nat
    var bufStart: nat
    var endOffset: nat
    var ranges: seq<Range>
    var finalSize: Option<nat>
    var finSeen: bool
    var reset: bool
    var maxBufferedSpan: nat
    var state: State
    /** The bytes held and not read, by stream offset. */
    ghost var have: map<nat, Byte>

    constructor (maxBufferedSpan: nat)
      ensures Valid() && Abs() == INITIAL && this.maxBufferedSpan == maxBufferedSpan
    {
      bytes, readOffset, bufStart, endOffset, ranges := [], 0, 0, 0, [];
      finalSize, finSeen, reset, state, have := None, false, false, Recv, map[];
      this.maxBufferedSpan := maxBufferedSpan;
    }

    ghost function Abs(): Half
      reads this
    {
      Half(have, readOffset, endOffset, finalSize, finSeen, reset, state)
    }

    /** The ranges name the bytes held, and each lies in the buffer at its distance from the read offset. */
    ghost predicate Stored()
      reads this
    {
      StoredIn(bytes, bufStart, readOffset, ranges, have)
    }

    /** The buffer reaches no further than the end seen, and less than half of it is consumed prefix. */
    ghost predicate Lean()
      reads this
    {
      && |bytes| <= bufStart + (endOffset - readOffset)
      && (bufStart == 0 || bufStart < |bytes| / 2)
    }

    ghost predicate Valid()
      reads this
    {
      Stored() && Inv(Abs()) && Lean()
    }

    /** Grows the buffer to cover `span` bytes from the read offset. */
    method Reserve(span: nat)
      requires Stored()
      modifies this`bytes
      ensures Stored() && |bytes| == Max(old(|bytes|), bufStart + span)
    {
      if |bytes| - bufStart < span {
        bytes := bytes + seq(bufStart + span - |bytes|, _ => 0);
      }
    }

    /** Stores a frame's unread bytes. */
    method Store(offset: nat, data: seq<Byte>)
      requires Stored() && readOffset <= offset && data != []
      modifies this`bytes, this`ranges, this`have
      ensures Stored() && have == Merge(old(Abs()), offset, data)
      ensures |bytes| == Max(old(|bytes|), bufStart + (offset + |data| - readOffset))
    {
      ghost var h := Abs();
      Reserve(offset + |data| - readOffset);
      var base := bufStart + (offset - readOffset);
      var patched := CopyGaps(bytes, base, ranges, offset, data);
      PatchedHolds(patched, bytes, bufStart, h, offset, data);
      bytes := patched;
      ranges := InsertMerge(ranges, Range(offset, offset + |data|));
      have := Merge(h, offset, data);
    }

    method MaybeAdvanceState()
      requires Stored() && (finSeen && !reset ==> finalSize.Some?)
      modifies this`state
      ensures Stored() && Abs() == Advanced(old(Abs()))
    {
      EmptyRanges(ranges, have);
      if reset || !finSeen {
        return;
      }
      if readOffset == finalSize.value && ranges == [] {
        if state != DataRead {
          state := DataRecvd;
        }
      } else if state == Recv {
        state := SizeKnown;
      }
    }

    /** Clips a frame to what is unread, stores that, and lets the state follow. */
    method Take(offset: nat, data: seq<Byte>)
      requires Stored() && Lean() && (finSeen && !reset ==> finalSize.Some?) && readOffset <= endOffset
      modifies this`bytes, this`ranges, this`have, this`endOffset, this`state
      ensures Stored() && Lean()
      ensures Abs() == Advanced(old(Abs()).(
          have := Merge(old(Abs()), offset, data), endOffset := Max(old(endOffset), offset + |data|)))
    {
      ghost var h := Abs();
      var clip, clipData := offset, data;
      if clip < readOffset {
        var skip := readOffset - clip;
        clip := readOffset;
        clipData := if skip >= |data| then [] else data[skip..];
      }
      if clipData != [] {
        MergeClipped(h, offset, data, clip, clipData);
        Store(clip, clipData);
      } else {
        MergeNothing(h, offset, data);
      }
      endOffset := Max(endOffset, offset + |data|);
      MaybeAdvanceState();
    }

    /** Whether a FIN that ends the stream at `end` agrees with what is known. */
    predicate FinAgrees(end: nat)
      reads this
    {
      if finalSize.Some? then finalSize.value == end else endOffset <= end
    }

    /** A STREAM frame: refused without a trace, or merged. */
    method Receive(offset: nat, data: seq<Byte>, fin: bool) returns (r: Option<RecvHalf.Error>)
      requires Valid()
      modifies this
      ensures Valid() && maxBufferedSpan == old(maxBufferedSpan)
      ensures r == Refusal(old(Abs()), offset, data, fin, maxBufferedSpan)
      ensures Abs() == if r == None then Accept(old(Abs()), offset, data, fin) else old(Abs())
    {
      if reset {
        return None;
      }
      var end := offset + |data|;
      if end > MAX_U64 {
        return Some(BufferLimitExceeded);
      }
      if finalSize.Some? && end > finalSize.value {
        return Some(BeyondFinalSize);
      }
      if state == DataRecvd || state == DataRead {
        return None;
      }
      if fin && !FinAgrees(end) {
        return Some(FinalSizeChanged);
      }
      if Max(offset, readOffset) < end && end - readOffset > maxBufferedSpan {
        return Some(BufferLimitExceeded);
      }
      AcceptKeeps(Abs(), offset, data, fin, maxBufferedSpan);
      AcceptFrame(offset, data, fin);
      r := None;
    }

    method AcceptFrame(offset: nat, data: seq<Byte>, fin: bool)
      requires Stored() && Lean() && Inv(Abs()) && !reset && state !in {DataRecvd, DataRead}
      requires fin ==> FinAgrees(offset + |data|)
      modifies this`bytes, this`ranges, this`have, this`endOffset, this`state, this`finalSize, this`finSeen
      ensures Stored() && Lean() && Abs() == Accept(old(Abs()), offset, data, fin)
    {
      if fin {
        finalSize, finSeen := Some(offset + |data|), true;
        if state == Recv {
          state := SizeKnown;
        }
      }
      Take(offset, data);
    }

    /** The bytes that can be read now. */
    method Peek() returns (data: seq<Byte>)
      requires Valid()
      ensures Span(readOffset, readOffset + |data|) <= have.Keys && readOffset + |data| !in have
      ensures forall i :: 0 <= i < |data| ==> data[i] == have[readOffset + i]
    {
      EmptyRanges(ranges, have);
      if ranges == [] {
        return [];
      }
      var first := ranges[0];
      FirstHeld(ranges, have);
      if first.offset != readOffset {
        return [];
      }
      data := RunFrom(bytes, bufStart, readOffset, ranges, have, first.end - readOffset);
    }

    /** Moves the read cursor; the consumed bytes stay in the buffer as a prefix. */
    method Advance(take: nat)
      requires Stored() && 0 < take && Span(readOffset, readOffset + take) <= have.Keys
      modifies this`bufStart, this`readOffset, this`ranges, this`have
      ensures Stored() && Abs() == Consumed(old(Abs()), take) && bufStart == old(bufStart) + take
    {
      ghost var left := have - Span(readOffset, readOffset + take);
      ranges := DropRead(bytes, bufStart, readOffset, ranges, have, take, left);
      have := left;
      bufStart, readOffset := bufStart + take, readOffset + take;
    }

    /** Moves the live tail of the buffer to its front. */
    method CompactPrefix()
      requires Stored()
      modifies this`bytes, this`bufStart
      ensures Stored() && bufStart == 0 && |bytes| == old(|bytes| - bufStart)
    {
      var live := bytes[bufStart..];
      forall x | x in have
        ensures readOffset <= x && Holds(live, 0, readOffset, x, have[x])
      {
        assert Holds(bytes, bufStart, readOffset, x, have[x]);
      }
      bytes, bufStart := live, 0;
    }

    /** Moves the cursor past bytes seen by `Peek`; the buffer is compacted once half of it is consumed prefix. */
    method MoveCursor(take: nat)
      requires Stored() && Lean() && Span(readOffset, readOffset + take) <= have.Keys
      modifies this`bytes, this`bufStart, this`readOffset, this`ranges, this`have
      ensures Stored() && Lean() && Abs() == Consumed(old(Abs()), take)
    {
      if take == 0 {
        assert have - Span(readOffset, readOffset) == have;
        return;
      }
      Advance(take);
      if bufStart >= |bytes| / 2 {
        CompactPrefix();
      }
    }

    /** Takes bytes seen by `Peek` as read. */
    method Consume(take: nat)
      requires Valid() && Span(readOffset, readOffset + take) <= have.Keys
      modifies this`bytes, this`bufStart, this`readOffset, this`ranges, this`have, this`state
      ensures Valid() && Abs() == Advanced(Consumed(old(Abs()), take))
    {
      ConsumedKeeps(Abs(), take);
      MoveCursor(take);
      MaybeAdvanceState();
    }

    /** Reads at most `max` bytes, in order. */
    method Read(max: nat) returns (out: seq<Byte>)
      requires Valid()
      modifies this`bytes, this`bufStart, this`readOffset, this`ranges, this`have, this`state
      ensures Valid() && |out| <= max
      ensures Next(old(Abs()), EvRead(out), Abs())
      ensures |out| < max ==> old(readOffset) + |out| !in old(have)
    {
      var src := Peek();
      var take := Min(max, |src|);
      out := src[..take];
      Consume(take);
    }

    /** A RESET_STREAM frame: refused when the sizes disagree, else everything held is dropped. */
    method ResetStream(size: nat) returns (r: Option<RecvHalf.Error>)
      requires Valid()
      modifies this
      ensures Valid() && (r == Some(FinalSizeChanged) <==> ResetRefused(old(Abs()), size))
      ensures r.Some? ==> r.value == FinalSizeChanged
      ensures Next(old(Abs()), EvReset(size), Abs())
    {
      if reset {
        return None;
      }
      if (finSeen && finalSize.Some? && finalSize.value != size) || endOffset > size {
        return Some(FinalSizeChanged);
      }
      NextKeeps(Abs(), EvReset(size), ResetStep(Abs(), size));
      reset, finalSize, state := true, Some(size), ResetRecvd;
      bytes, bufStart, ranges, have := [], 0, [], map[];
      r := None;
    }

    method MarkRead()
      requires Valid()
      modifies this`state
      ensures Valid() && Next(old(Abs()), EvMarkRead, Abs())
    {
      if state == DataRecvd {
        state := DataRead;
      }
      if state == ResetRecvd {
        state := ResetRead;
      }
    }
  }

  /** A prefix of what can be read lies in the first range. */
  lemma FrontRange(list: seq<Range>, readOffset: nat, take: nat)
    requires Canonical(list) && take > 0
    requires Span(readOffset, readOffset + take) <= Points(list) && forall x :: x in Points(list) ==> readOffset <= x
    ensures list != [] && list[0].offset == readOffset && readOffset + take <= list[0].end
  {
    assert readOffset in Span(readOffset, readOffset + take);
    FirstRun(list);
    assert list[0].end !in Span(readOffset, readOffset + take);
  }

  /** The first range is held, what follows it is not, and nothing below it is. */
  lemma FirstHeld(list: seq<Range>, have: map<nat, Byte>)
    requires Canonical(list) && list != [] && have.Keys == Points(list)
    ensures list[0].offset < list[0].end && list[0].offset in have
    ensures Span(list[0].offset, list[0].end) <= have.Keys && list[0].end !in have
    ensures forall x :: x in have ==> list[0].offset <= x
  {
    FirstRun(list);
  }

  /** A run of held bytes from the read offset lies in one piece in the buffer. */
  lemma RunFits(buffer: seq<Byte>, bufStart: nat, readOffset: nat, have: map<nat, Byte>, n: nat)
    requires n > 0 && Span(readOffset, readOffset + n) <= have.Keys
    requires forall x :: x in have ==> readOffset <= x && Holds(buffer, bufStart, readOffset, x, have[x])
    ensures bufStart + n <= |buffer|
  {
    var last := readOffset + n - 1;
    assert last in Span(readOffset, readOffset + n);
    assert Holds(buffer, bufStart, readOffset, last, have[last]);
  }

  /** The run itself. */
  method RunFrom(buffer: seq<Byte>, bufStart: nat, readOffset: nat, ghost list: seq<Range>,
      ghost have: map<nat, Byte>, n: nat)
    returns (data: seq<Byte>)
    requires StoredIn(buffer, bufStart, readOffset, list, have) && n > 0
    requires Span(readOffset, readOffset + n) <= have.Keys
    ensures |data| == n && forall i :: 0 <= i < n ==> data[i] == have[readOffset + i]
  {
    RunFits(buffer, bufStart, readOffset, have, n);
    data := buffer[bufStart..bufStart + n];
    forall i | 0 <= i < n
      ensures data[i] == have[readOffset + i]
    {
      assert readOffset + i in Span(readOffset, readOffset + n);
      assert Holds(buffer, bufStart, readOffset, readOffset + i, have[readOffset + i]);
    }
  }

  /** Bytes left over lie where they lay. */
  lemma StillHolds(buffer: seq<Byte>, bufStart: nat, have: map<nat, Byte>, readOffset: nat, take: nat)
    requires forall x :: x in have ==> readOffset <= x && Holds(buffer, bufStart, readOffset, x, have[x])
    requires take > 0 && Span(readOffset, readOffset + take) <= have.Keys
    ensures var left := have - Span(readOffset, readOffset + take);
      forall x :: x in left ==> readOffset + take <= x && Holds(buffer, bufStart + take, readOffset + take, x, left[x])
    ensures bufStart + take <= |buffer|
  {
    var last := readOffset + take - 1;
    assert last in Span(readOffset, readOffset + take);
    assert Holds(buffer, bufStart, readOffset, last, have[last]);
    var left := have - Span(readOffset, readOffset + take);
    forall x | x in left
      ensures readOffset + take <= x && Holds(buffer, bufStart + take, readOffset + take, x, left[x])
    {
      assert Holds(buffer, bufStart, readOffset, x, have[x]);
    }
  }

  ghost predicate StoredIn(buffer: seq<Byte>, bufStart: nat, readOffset: nat, list: seq<Range>, have: map<nat, Byte>) {
    && bufStart <= |buffer| && Canonical(list) && have.Keys == Points(list)
    && forall x :: x in have ==> readOffset <= x && Holds(buffer, bufStart, readOffset, x, have[x])
  }

  /** Takes the bytes read off the front of the ranges. */
  method DropRead(ghost buffer: seq<Byte>, ghost bufStart: nat, readOffset: nat, list: seq<Range>,
      ghost have: map<nat, Byte>, take: nat, ghost left: map<nat, Byte>)
    returns (rest: seq<Range>)
    requires StoredIn(buffer, bufStart, readOffset, list, have) && 0 < take
    requires Span(readOffset, readOffset + take) <= have.Keys && left == have - Span(readOffset, readOffset + take)
    ensures StoredIn(buffer, bufStart + take, readOffset + take, rest, left)
  {
    StillHolds(buffer, bufStart, have, readOffset, take);
    FrontRange(list, readOffset, take);
    rest := DropFront(list, readOffset + take, Span(readOffset, readOffset + take));
    KeysLess(have, Span(readOffset, readOffset + take));
  }

  lemma KeysLess(m: map<nat, Byte>, gone: set<nat>)
    ensures (m - gone).Keys == m.Keys - gone
  {
  }

  lemma EmptyRanges(list: seq<Range>, have: map<nat, Byte>)
    requires Canonical(list) && have.Keys == Points(list)
    ensures list == [] <==> have == map[]
  {
    if list != [] {
      FirstRun(list);
      assert list[0].offset in have;
    }
  }

  /** Merging the clipped frame is merging the frame. */
  lemma MergeClipped(h: Half, offset: nat, data: seq<Byte>, clip: nat, clipData: seq<Byte>)
    requires clip == Max(offset, h.readOffset) && clip < offset + |data| && clipData == data[clip - offset..]
    ensures Merge(h, clip, clipData) == Merge(h, offset, data)
  {
    var a, b := Merge(h, clip, clipData), Merge(h, offset, data);
    assert Unread(h, clip, clipData) == Unread(h, offset, data);
    forall x | x in a
      ensures a[x] == b[x]
    {
      assert x in h.have || x in Unread(h, offset, data);
    }
  }

  lemma MergeNothing(h: Half, offset: nat, data: seq<Byte>)
    requires offset + |data| <= Max(offset, h.readOffset)
    ensures Merge(h, offset, data) == h.have
  {
    assert Unread(h, offset, data) == {};
  }

  /** The byte at stream offset `x` lies in the buffer. */
  ghost predicate Holds(buffer: seq<Byte>, bufStart: nat, readOffset: nat, x: nat, b: Byte)
    requires readOffset <= x
  {
    bufStart + (x - readOffset) < |buffer| && buffer[bufStart + (x - readOffset)] == b
  }

  lemma PatchedHolds(out: seq<Byte>, buffer: seq<Byte>, bufStart: nat, h: Half, offset: nat, data: seq<Byte>)
    requires h.readOffset <= offset && bufStart + (offset - h.readOffset) + |data| <= |buffer|
    requires IsPatched(out, buffer, bufStart + (offset - h.readOffset), h.have.Keys, offset, data, |data|)
    requires forall x :: x in h.have ==> h.readOffset <= x && Holds(buffer, bufStart, h.readOffset, x, h.have[x])
    ensures forall x :: x in Merge(h, offset, data) ==>
      h.readOffset <= x && Holds(out, bufStart, h.readOffset, x, Merge(h, offset, data)[x])
  {
    var m := Merge(h, offset, data);
    forall x | x in m
      ensures h.readOffset <= x && Holds(out, bufStart, h.readOffset, x, m[x])
    {
      assert x in h.have || x in Unread(h, offset, data);
      var k := bufStart + (x - h.readOffset);
      assert out[k] == Patched(buffer, bufStart + (offset - h.readOffset), h.have.Keys, offset, data, |data|, k);
      if x in h.have {
        assert Holds(buffer, bufStart, h.readOffset, x, h.have[x]);
      }
    }
  }
}
