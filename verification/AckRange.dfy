/** The gap and length pairs of an ACK frame, section 19.3.1 of RFC 9000. */
module AckRange {
  import opened Wrappers
  import opened Varint
  import opened Seqs

  /** Packet numbers from `smallest` to `largest`, both included. */
  datatype Interval = Interval(smallest: nat, largest: nat)

  datatype Ack = Ack(largestAcked: nat, firstRange: nat, rangeCount: nat, rangesBytes: seq<Byte>)

  /** What a walk over a frame yields: intervals, then possibly the error that ends it. */
  datatype Walk = Walk(intervals: seq<Interval>, error: Option<Error>)

  /** The same walk as an iterator makes it, one interval at a time. */
  datatype Steps = End(error: Option<Error>) | Yield(interval: Interval, rest: Steps)

  function Collected(steps: Steps): Walk {
    match steps
    case End(error) => Walk([], error)
    case Yield(interval, rest) =>
      var walk := Collected(rest);
      Walk([interval] + walk.intervals, walk.error)
  }

  /** Each interval lies below the one before, the first below `smallest`, with a number missing in between. */
  ghost predicate Falls(smallest: nat, steps: Steps) {
    steps.Yield? ==>
      && steps.interval.smallest <= steps.interval.largest && steps.interval.largest + 2 <= smallest
      && Falls(steps.interval.smallest, steps.rest)
  }

  /**
   The walk after an interval that starts at `smallest`, with `count` pairs left to read at `pos`. Whatever the bytes,
   its intervals fall without touching.
   */
  function Lower(smallest: nat, count: nat, bytes: seq<Byte>, pos: nat): (steps: Steps)
    requires pos <= |bytes|
    ensures Falls(smallest, steps)
    decreases count
  {
    if count == 0 then End(None)
    else
      match NextBelow(smallest, bytes[pos..])
      case Err(e) => End(Some(e))
      case Ok((interval, used)) => Yield(interval, Lower(interval.smallest, count - 1, bytes, pos + used))
  }

  /** Reads one pair: the next interval down and the bytes it took. */
  function NextBelow(smallest: nat, bytes: seq<Byte>): (r: Result<(Interval, nat), Error>)
    ensures r.Ok? ==> r.value.1 <= |bytes|
    ensures r.Ok? ==> r.value.0.smallest <= r.value.0.largest && r.value.0.largest + 2 <= smallest
  {
    DecodeBounded(bytes);
    match Decode(bytes)
    case Err(e) => Err(e)
    case Ok(gap) =>
      DecodeBounded(bytes[gap.bytesRead..]);
      match Decode(bytes[gap.bytesRead..])
      case Err(e) => Err(e)
      case Ok(length) =>
        if smallest < gap.value + 2 then Err(InvalidLength)
        else if smallest - gap.value - 2 < length.value then Err(InvalidLength)
        else
          var largest := smallest - gap.value - 2;
          Ok((Interval(largest - length.value, largest), gap.bytesRead + length.bytesRead))
  }

  /** The whole walk over a frame, step by step. */
  function Whole(ack: Ack): Steps {
    if ack.firstRange > ack.largestAcked then End(Some(InvalidLength))
    else
      var first := Interval(ack.largestAcked - ack.firstRange, ack.largestAcked);
      Yield(first, Lower(first.smallest, ack.rangeCount, ack.rangesBytes, 0))
  }

  /** The whole walk over a frame. */
  function Intervals(ack: Ack): Walk {
    Collected(Whole(ack))
  }

  /** Highest first, with at least one missing number between neighbours. */
  ghost predicate Descending(list: seq<Interval>) {
    && (forall i :: 0 <= i < |list| ==> list[i].smallest <= list[i].largest)
    && (forall i, j :: 0 <= i < j < |list| ==> list[j].largest + 2 <= list[i].smallest)
  }

  lemma {:induction false} FallsDescends(smallest: nat, steps: Steps)
    requires Falls(smallest, steps)
    ensures var list := Collected(steps).intervals;
      Descending(list) && forall i :: 0 <= i < |list| ==> list[i].largest + 2 <= smallest
  {
    if steps.Yield? {
      FallsDescends(steps.interval.smallest, steps.rest);
    }
  }

  lemma IntervalsDescend(ack: Ack)
    ensures Descending(Intervals(ack).intervals)
  {
    if ack.firstRange <= ack.largestAcked {
      var first := ack.largestAcked - ack.firstRange;
      var steps := Lower(first, ack.rangeCount, ack.rangesBytes, 0);
      FallsDescends(first, steps);
    }
  }

  /** One pair as bytes: the numbers missing below `smallest`, less one, then the interval's length. */
  function PairBytes(smallest: nat, below: Interval): seq<Byte>
    requires below.smallest <= below.largest && below.largest + 2 <= smallest <= MAX_VALUE
  {
    Encode(smallest - below.largest - 2) + Encode(below.largest - below.smallest)
  }

  /** Intervals below `smallest`, highest first, none touching its neighbour above. */
  ghost predicate Chain(smallest: nat, list: seq<Interval>) {
    list != [] ==>
      && list[0].smallest <= list[0].largest
      && list[0].largest + 2 <= smallest
      && Chain(list[0].smallest, list[1..])
  }

  /** The pairs of a list of intervals below `smallest`. */
  function RangesBytes(smallest: nat, list: seq<Interval>): seq<Byte>
    requires smallest <= MAX_VALUE && Chain(smallest, list)
  {
    if list == [] then []
    else PairBytes(smallest, list[0]) + RangesBytes(list[0].smallest, list[1..])
  }

  ghost function Floor(smallest: nat, list: seq<Interval>): nat {
    if list == [] then smallest else list[|list| - 1].smallest
  }

  /** One more interval at the low end is one more pair at the end of the bytes. */
  lemma {:induction false} RangesAppend(smallest: nat, list: seq<Interval>, x: Interval)
    requires smallest <= MAX_VALUE && Chain(smallest, list)
    requires x.smallest <= x.largest && x.largest + 2 <= Floor(smallest, list)
    ensures Floor(smallest, list) <= MAX_VALUE && Chain(smallest, list + [x])
    ensures RangesBytes(smallest, list + [x]) == RangesBytes(smallest, list) + PairBytes(Floor(smallest, list), x)
  {
    if list == [] {
      assert list + [x] == [x] && Chain(x.smallest, [x][1..]);
    } else {
      assert (list + [x])[1..] == list[1..] + [x];
      assert Floor(smallest, list) == Floor(list[0].smallest, list[1..]);
      RangesAppend(list[0].smallest, list[1..], x);
      var next := PairBytes(Floor(smallest, list), x);
      Assoc(PairBytes(smallest, list[0]), RangesBytes(list[0].smallest, list[1..]), next);
    }
  }

  lemma PairRoundTrip(smallest: nat, below: Interval, rest: seq<Byte>)
    requires below.smallest <= below.largest && below.largest + 2 <= smallest <= MAX_VALUE
    ensures NextBelow(smallest, PairBytes(smallest, below) + rest) == Ok((below, |PairBytes(smallest, below)|))
  {
    var gap, length := Encode(smallest - below.largest - 2), Encode(below.largest - below.smallest);
    assert PairBytes(smallest, below) + rest == gap + (length + rest);
    RoundTrip(smallest - below.largest - 2, length + rest);
    RoundTrip(below.largest - below.smallest, rest);
    assert (gap + (length + rest))[|gap|..] == length + rest;
  }

  lemma OkYields(was: Steps, smallest: nat, count: nat, bytes: seq<Byte>, pos: nat, interval: Interval, used: nat,
      next: nat) returns (left: Steps)
    requires count > 0 && pos + used == next <= |bytes| && NextBelow(smallest, bytes[pos..]) == Ok((interval, used))
    requires was == Lower(smallest, count, bytes, pos)
    ensures was == Yield(interval, left) && left == Lower(interval.smallest, count - 1, bytes, next)
  {
    left := Lower(interval.smallest, count - 1, bytes, next);
  }

  lemma ErrYields(was: Steps, smallest: nat, count: nat, bytes: seq<Byte>, pos: nat, e: Error)
    requires count > 0 && pos <= |bytes| && NextBelow(smallest, bytes[pos..]) == Err(e)
    requires was == Lower(smallest, count, bytes, pos)
    ensures was == End(Some(e))
  {
  }

  /** Reading at `pos` gives the first interval of the list, and leaves the pairs of the others. */
  lemma PairAt(smallest: nat, list: seq<Interval>, bytes: seq<Byte>, pos: nat) returns (used: nat)
    requires smallest <= MAX_VALUE && Chain(smallest, list) && list != []
    requires pos <= |bytes| && bytes[pos..] == RangesBytes(smallest, list)
    ensures pos + used <= |bytes| && NextBelow(smallest, bytes[pos..]) == Ok((list[0], used))
    ensures bytes[pos + used..] == RangesBytes(list[0].smallest, list[1..])
  {
    var pair, rest := PairBytes(smallest, list[0]), RangesBytes(list[0].smallest, list[1..]);
    PairRoundTrip(smallest, list[0], rest);
    used := |pair|;
    assert bytes[pos + used..] == bytes[pos..][used..] == rest;
  }

  /** Walking the pairs of a descending list makes one step for each interval. */
  lemma {:induction false} StepsBack(smallest: nat, list: seq<Interval>, n: nat, bytes: seq<Byte>, pos: nat)
    returns (steps: Steps)
    requires smallest <= MAX_VALUE && Chain(smallest, list) && n == |list|
    requires pos <= |bytes| && bytes[pos..] == RangesBytes(smallest, list)
    ensures steps == Lower(smallest, n, bytes, pos) && Collected(steps) == Walk(list, None)
    decreases n
  {
    if n == 0 {
      steps := End(None);
    } else {
      var used := PairAt(smallest, list, bytes, pos);
      var rest := StepsBack(list[0].smallest, list[1..], n - 1, bytes, pos + used);
      steps := Lower(smallest, n, bytes, pos);
      OneStepBack(steps, smallest, n, bytes, pos, list, used, rest);
    }
  }

  lemma {:induction false} OneStepBack(was: Steps, smallest: nat, n: nat, bytes: seq<Byte>, pos: nat,
      list: seq<Interval>, used: nat, rest: Steps)
    requires n > 0 && list != [] && pos + used <= |bytes| && NextBelow(smallest, bytes[pos..]) == Ok((list[0], used))
    requires was == Lower(smallest, n, bytes, pos) && rest == Lower(list[0].smallest, n - 1, bytes, pos + used)
    requires Collected(rest) == Walk(list[1..], None)
    ensures Collected(was) == Walk(list, None)
  {
    var left := OkYields(was, smallest, n, bytes, pos, list[0], used, pos + used);
    CollectedCons(list, rest);
  }

  /** Walking the pairs of a descending list gives the list back. */
  lemma RangesRoundTrip(smallest: nat, list: seq<Interval>, bytes: seq<Byte>)
    requires smallest <= MAX_VALUE && Chain(smallest, list) && bytes == RangesBytes(smallest, list)
    ensures Collected(Lower(smallest, |list|, bytes, 0)) == Walk(list, None)
  {
    assert bytes[0..] == bytes;
    var steps := StepsBack(smallest, list, |list|, bytes, 0);
  }

  /** On the wire: 95 to 100, then 88 to 92 after a gap of one pair of bytes 1 4, then 80 to 82 after 4 2. */
  lemma WireExample()
    ensures PairBytes(95, Interval(88, 92)) == [1, 4] && PairBytes(88, Interval(80, 82)) == [4, 2]
    ensures Intervals(Ack(100, 5, 2, [1, 4, 4, 2])) ==
      Walk([Interval(95, 100), Interval(88, 92), Interval(80, 82)], None)
  {
    var list := [Interval(88, 92), Interval(80, 82)];
    ExamplePairs();
    assert list[1..] == [Interval(80, 82)] && Chain(80, list[1..][1..]) && Chain(88, list[1..]);
    assert RangesBytes(88, list[1..]) == [4, 2] && RangesBytes(95, list) == [1, 4, 4, 2];
    RangesRoundTrip(95, list, [1, 4, 4, 2]);
    FirstThenLower(Interval(95, 100), 2, [1, 4, 4, 2], list);
  }

  lemma ExamplePairs()
    ensures PairBytes(95, Interval(88, 92)) == [1, 4] && PairBytes(88, Interval(80, 82)) == [4, 2]
  {
    assert Encode(1) == [1] && Encode(2) == [2] && Encode(4) == [4];
  }

  lemma CollectedCons(list: seq<Interval>, rest: Steps)
    requires list != [] && Collected(rest) == Walk(list[1..], None)
    ensures Collected(Yield(list[0], rest)) == Walk(list, None)
  {
    assert [list[0]] + list[1..] == list;
  }

  /** A frame whose pairs walk back to `lower` walks back to its first interval and `lower`. */
  lemma FirstThenLower(top: Interval, n: nat, bytes: seq<Byte>, lower: seq<Interval>)
    requires top.smallest <= top.largest && Collected(Lower(top.smallest, n, bytes, 0)) == Walk(lower, None)
    ensures Intervals(Ack(top.largest, top.largest - top.smallest, n, bytes)) == Walk([top] + lower, None)
  {
  }

  /** Where an iterator stands: in the bytes, in the count, and at which interval. */
  datatype Cursor = Cursor(pos: nat, index: nat, smallest: nat, emitted: bool)

  ghost predicate Fits(ack: Ack, c: Cursor) {
    c.index <= ack.rangeCount && c.pos <= |ack.rangesBytes| && (!c.emitted ==> c.pos == 0 && c.index == 0)
  }

  /** What an iterator has yet to yield. */
  ghost function Remaining(ack: Ack, c: Cursor): Steps
    requires Fits(ack, c)
  {
    if !c.emitted then Whole(ack) else Lower(c.smallest, ack.rangeCount - c.index, ack.rangesBytes, c.pos)
  }

  /** A result is the next interval of the walk, `None` at its end, or the error that ends it. */
  ghost predicate Yields(was: Steps, r: Result<Option<Interval>, Error>, left: Steps) {
    match r
    case Err(e) => was == End(Some(e))
    case Ok(None) => was == End(None)
    case Ok(Some(interval)) => was == Yield(interval, left)
  }

  lemma StillRemaining(ack: Ack, c: Cursor, count: nat)
    requires Fits(ack, c) && c.emitted && c.index + count == ack.rangeCount
    ensures Remaining(ack, c) == Lower(c.smallest, count, ack.rangesBytes, c.pos)
  {
  }

  /** The bytes a read of one pair takes, also when it fails: a gap is behind it before its length is looked at. */
  function Spent(bytes: seq<Byte>): (n: nat)
    ensures n <= |bytes|
  {
    DecodeBounded(bytes);
    match Decode(bytes)
    case Err(_) => 0
    case Ok(gap) =>
      DecodeBounded(bytes[gap.bytesRead..]);
      match Decode(bytes[gap.bytesRead..])
      case Err(_) => gap.bytesRead
      case Ok(length) => gap.bytesRead + length.bytesRead
  }

  /** The lazy iterator over a frame. */
  class Iterator {
    const ack: Ack
    var pos: nat
    var nextRangeIndex: nat
    var lastSmallest: nat
    var firstEmitted: bool

    constructor (ack: Ack)
      ensures this.ack == ack && Valid() && Remaining(ack, Now()) == Whole(ack)
    {
      this.ack := ack;
      pos, nextRangeIndex, lastSmallest, firstEmitted := 0, 0, 0, false;
    }

    function Now(): Cursor
      reads this
    {
      Cursor(pos, nextRangeIndex, lastSmallest, firstEmitted)
    }

    ghost predicate Valid()
      reads this
    {
      Fits(ack, Now())
    }

    /** Yields the next interval of the walk, its end or its error, past the bytes read, those of a bad pair too. */
    method Next() returns (r: Result<Option<Interval>, Error>)
      requires Valid()
      modifies this
      ensures Valid() && firstEmitted && Yields(Remaining(ack, old(Now())), r, Remaining(ack, Now()))
      ensures old(firstEmitted) && r != Ok(None) ==> pos == old(pos) + Spent(ack.rangesBytes[old(pos)..])
    {
      if !firstEmitted {
        r := First();
      } else if nextRangeIndex >= ack.rangeCount {
        r := Ok(None);
      } else {
        r := Step();
      }
    }

    method First() returns (r: Result<Option<Interval>, Error>)
      requires Valid() && !firstEmitted
      modifies this
      ensures Valid() && firstEmitted && Yields(Whole(ack), r, Remaining(ack, Now()))
    {
      firstEmitted := true;
      if ack.firstRange > ack.largestAcked {
        return Err(InvalidLength);
      }
      lastSmallest := ack.largestAcked - ack.firstRange;
      r := Ok(Some(Interval(lastSmallest, ack.largestAcked)));
    }

    method Step() returns (r: Result<Option<Interval>, Error>)
      requires Valid() && firstEmitted && nextRangeIndex < ack.rangeCount
      modifies this`pos, this`lastSmallest, this`nextRangeIndex
      ensures Valid() && Yields(Remaining(ack, old(Now())), r, Remaining(ack, Now()))
      ensures r != Ok(None) && pos == old(pos) + Spent(ack.rangesBytes[old(pos)..])
    {
      var now;
      r, now := StepFrom(ack, Now());
      pos, nextRangeIndex, lastSmallest := now.pos, now.index, now.smallest;
    }
  }

  /** Reads one pair: the interval below, or the error, and the bytes read so far either way. */
  method ReadPair(smallest: nat, bytes: seq<Byte>) returns (next: Result<Interval, Error>, used: nat)
    ensures used == Spent(bytes)
    ensures next.Err? ==> NextBelow(smallest, bytes) == Err(next.error)
    ensures next.Ok? ==> NextBelow(smallest, bytes) == Ok((next.value, used))
  {
    DecodeBounded(bytes);
    var gap := Decode(bytes);
    if gap.Err? {
      return Err(gap.error), 0;
    }
    used := gap.value.bytesRead;
    DecodeBounded(bytes[used..]);
    var length := Decode(bytes[used..]);
    if length.Err? {
      return Err(length.error), used;
    }
    used := used + length.value.bytesRead;
    if smallest < gap.value.value + 2 {
      return Err(InvalidLength), used;
    }
    var largest := smallest - gap.value.value - 2;
    if largest < length.value.value {
      return Err(InvalidLength), used;
    }
    next := Ok(Interval(largest - length.value.value, largest));
  }

  /** One pair off the walk at `pos`: what was left, what is left. */
  method TakePair(bytes: seq<Byte>, pos0: nat, smallest0: nat, ghost was: Steps, ghost count: nat)
    returns (r: Result<Option<Interval>, Error>, pos: nat, smallest: nat, ghost left: Steps)
    requires count > 0 && pos0 <= |bytes| && was == Lower(smallest0, count, bytes, pos0)
    ensures pos == pos0 + Spent(bytes[pos0..]) <= |bytes| && Yields(was, r, left)
    ensures r.Ok? ==> r.value.Some? && left == Lower(smallest, count - 1, bytes, pos)
    ensures r.Err? ==> smallest == smallest0
  {
    var next, used := ReadPair(smallest0, bytes[pos0..]);
    pos, smallest, left := pos0 + used, smallest0, End(None);
    if next.Err? {
      ErrYields(was, smallest0, count, bytes, pos0, next.error);
      r := Err(next.error);
    } else {
      left := OkYields(was, smallest0, count, bytes, pos0, next.value, used, pos);
      r, smallest := Ok(Some(next.value)), next.value.smallest;
    }
  }

  /** One pair, from where an iterator stands to where it stands then. */
  method StepFrom(ack: Ack, c: Cursor) returns (r: Result<Option<Interval>, Error>, now: Cursor)
    requires Fits(ack, c) && c.emitted && c.index < ack.rangeCount
    ensures Fits(ack, now) && now.emitted && Yields(Remaining(ack, c), r, Remaining(ack, now))
    ensures r != Ok(None) && now.pos == c.pos + Spent(ack.rangesBytes[c.pos..])
  {
    var pos, smallest;
    ghost var left;
    ghost var count := ack.rangeCount - c.index;
    r, pos, smallest, left := TakePair(ack.rangesBytes, c.pos, c.smallest, Remaining(ack, c), count);
    now := Cursor(pos, if r.Ok? then c.index + 1 else c.index, smallest, true);
    StillRemaining(ack, now, if r.Ok? then count - 1 else count);
  }

  ghost function Left(it: Iterator): Steps
    requires it.Valid()
    reads it
  {
    Remaining(it.ack, it.Now())
  }

  /** What is collected and what is left stay the whole walk. */
  ghost function Joined(list: seq<Interval>, left: Steps): Walk {
    Walk(list + Collected(left).intervals, Collected(left).error)
  }

  lemma JoinNext(list: seq<Interval>, was: Steps, r: Result<Option<Interval>, Error>, left: Steps)
    requires Yields(was, r, left)
    ensures r.Err? ==> Joined(list, was) == Walk(list, Some(r.error))
    ensures r == Ok(None) ==> Joined(list, was) == Walk(list, None)
    ensures r.Ok? && r.value.Some? ==> Joined(list, was) == Joined(list + [r.value.value], left)
  {
    assert list + [] == list;
    if r.Ok? && r.value.Some? {
      assert list + ([r.value.value] + Collected(left).intervals) == list + [r.value.value] + Collected(left).intervals;
    }
  }

  function Length(steps: Steps): nat {
    match steps case End(_) => 0 case Yield(_, rest) => 1 + Length(rest)
  }

  /** Runs the iterator to its end or its error. */
  method WalkFrame(ack: Ack) returns (walk: Walk)
    ensures walk == Intervals(ack)
  {
    var it := new Iterator(ack);
    var list: seq<Interval>, error: Option<Error>, more := [], None, true;
    assert Joined([], Whole(ack)) == Intervals(ack);
    while more
      invariant fresh(it) && it.Valid() && it.ack == ack
      invariant Intervals(ack) == if more then Joined(list, Left(it)) else Walk(list, error)
      decreases more, Length(Left(it))
    {
      ghost var was := Left(it);
      var next := it.Next();
      JoinNext(list, was, next, Left(it));
      if next.Ok? && next.value.Some? {
        list := list + [next.value.value];
      } else {
        error := if next.Err? then Some(next.error) else None;
        more := false;
      }
    }
    walk := Walk(list, error);
  }
}
