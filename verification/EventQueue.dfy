/**
 The bounded event FIFO: a ring that drops its oldest entry when full, refining a sequence; and the benchmark that folds
 it.
 */
module EventQueue {
  import opened Wrappers
  import opened Ring

  class Queue<T(0)> {
    const items: array<T>
    var readIdx: nat
    var len: nat

    constructor (capacity: nat)
      requires capacity > 0
      ensures Valid() && Contents() == [] && items.Length == capacity && fresh(items)
    {
      items := new T[capacity];
      readIdx, len := 0, 0;
    }

    ghost predicate Valid()
      reads this
    {
      items.Length > 0 && readIdx < items.Length && Fits(items.Length, readIdx, len) && (len == 0 ==> readIdx == 0)
    }

    /** The entries, oldest first. */
    ghost function Contents(): seq<T>
      requires Valid()
      reads this, items
    {
      Unrolled(items[..], readIdx, len)
    }

    function Next(idx: nat): (n: nat)
      requires idx < items.Length
      ensures n == (idx + 1) % items.Length
    {
      if idx + 1 < items.Length then idx + 1 else 0
    }

    /** Appends; a full queue loses its oldest entry first. */
    method Push(value: T)
      requires Valid()
      modifies this`readIdx, this`len, items
      ensures Valid()
      ensures Contents() == (if old(len) == items.Length then old(Contents())[1..] else old(Contents())) + [value]
    {
      ghost var s := items[..];
      if len == items.Length {
        Advance(s, readIdx, len);
        Extend(s, Next(readIdx), len - 1, value);
        items[readIdx] := value;
        readIdx := Next(readIdx);
        return;
      }
      Extend(s, readIdx, len, value);
      items[Phys(readIdx, items.Length, len)] := value;
      len := len + 1;
    }

    /** Takes the oldest entry. */
    method Pop() returns (r: Option<T>)
      requires Valid()
      modifies this`readIdx, this`len
      ensures Valid()
      ensures r == if old(Contents()) == [] then None else Some(old(Contents())[0])
      ensures Contents() == if old(Contents()) == [] then [] else old(Contents())[1..]
    {
      if len == 0 {
        return None;
      }
      Advance(items[..], readIdx, len);
      r := Some(items[readIdx]);
      len := len - 1;
      readIdx := if len == 0 then 0 else Next(readIdx);
    }

    /** Rotates the storage so that the entries lie from its start. */
    method Compact()
      requires Valid()
      modifies this`readIdx, items
      ensures Valid() && readIdx == 0 && Contents() == old(Contents()) == items[..len]
    {
      ghost var was := items[..];
      var rotated := items[readIdx..] + items[..readIdx];
      forall i | 0 <= i < items.Length {
        items[i] := rotated[i];
      }
      assert items[..] == rotated;
      RotatedUnrolls(was, readIdx, len);
      readIdx := 0;
      assert rotated[..len] == items[..len];
    }

    /** Takes out the entry at an index; the later ones move up. */
    method RemoveAt(index: nat)
      requires Valid() && index < len
      modifies this`readIdx, this`len, items
      ensures Valid() && Contents() == old(Contents())[..index] + old(Contents())[index + 1..]
    {
      Compact();
      ghost var was := items[..];
      forall i | index <= i < len - 1 {
        items[i] := items[i + 1];
      }
      SlidDown(was, items[..], index, len);
      len := len - 1;
    }
  }

  lemma SlidDown<T>(was: seq<T>, now: seq<T>, index: nat, n: nat)
    requires |now| == |was| && index < n <= |was|
    requires forall i :: 0 <= i < index ==> now[i] == was[i]
    requires forall i :: index <= i < n - 1 ==> now[i] == was[i + 1]
    ensures Unrolled(now, 0, n - 1) == was[..n][..index] + was[..n][index + 1..]
  {
    FromStart(now, n - 1);
  }

  lemma RotatedUnrolls<T>(s: seq<T>, head: nat, n: nat)
    requires head < |s| && n <= |s|
    ensures Unrolled(s[head..] + s[..head], 0, n) == Unrolled(s, head, n) == (s[head..] + s[..head])[..n]
  {
    var t := s[head..] + s[..head];
    assert |t| == |s|;
    forall i | 0 <= i < n
      ensures t[Phys(0, |t|, i)] == s[Phys(head, |s|, i)]
    {
    }
  }

  // -- the benchmark --

  const WRAP: nat := 0x1_0000_0000_0000_0000

  datatype Send = Send(id: nat, len: nat, pathId: nat, packetNumber: nat, sentTime: nat, early: bool)

  datatype Event = Acked(item: Send) | Lost(item: Send)

  function AddWrap(a: nat, b: nat): (r: nat)
    ensures r < WRAP
  {
    (a + b) % WRAP
  }

  /** Adds up a notification's fields, wrapping. */
  function FoldEvent(e: Event): (r: nat)
    ensures r < WRAP
  {
    var s := e.item;
    (s.id + s.len + s.pathId + s.packetNumber + s.sentTime + if s.early then 1 else 0) % WRAP
  }

  function Folded(events: seq<Event>): (r: nat)
    ensures r < WRAP
  {
    if events == [] then 0 else AddWrap(Folded(events[..|events| - 1]), FoldEvent(events[|events| - 1]))
  }

  /** All fields of all notifications, added up without wrapping. */
  function Total(events: seq<Event>): nat {
    if events == [] then 0
    else
      var s := events[|events| - 1].item;
      Total(events[..|events| - 1])
        + (s.id + s.len + s.pathId + s.packetNumber + s.sentTime + if s.early then 1 else 0)
  }

  /** Wrapping at every step comes to the same as wrapping once. */
  lemma {:induction false} FoldedIsTotal(events: seq<Event>)
    ensures Folded(events) == Total(events) % WRAP
  {
    if events != [] {
      var n := |events| - 1;
      FoldedIsTotal(events[..n]);
      WrapOnce(Total(events[..n]), Total(events) - Total(events[..n]));
    }
  }

  lemma WrapOnce(a: nat, b: nat)
    ensures AddWrap(a % WRAP, b % WRAP) == (a + b) % WRAP
  {
  }

  /** The notification of iteration `i`: packets in turn, acknowledged and lost alternately. */
  function EventAt(packets: seq<Send>, i: nat): Event
    requires packets != []
  {
    var item := packets[i % |packets|];
    if i % 2 == 0 then Acked(item) else Lost(item)
  }

  function Events(packets: seq<Send>, iters: nat): (s: seq<Event>)
    requires packets != []
    ensures |s| == iters && forall i :: 0 <= i < iters ==> s[i] == EventAt(packets, i)
  {
    seq(iters, i requires 0 <= i < iters => EventAt(packets, i))
  }

  const DEPTH: nat := 8

  /** Pops one entry and adds it to the sum; `popped` remembers the order. */
  method PopAndFold(queue: Queue<Event>, sum0: nat, ghost popped0: seq<Event>)
    returns (sum: nat, ghost popped: seq<Event>)
    requires queue.Valid() && queue.len > 0 && sum0 == Folded(popped0)
    modifies queue
    ensures queue.Valid() && queue.len == old(queue.len) - 1
    ensures popped + queue.Contents() == popped0 + old(queue.Contents()) && sum == Folded(popped)
  {
    ghost var s := queue.Contents();
    var event := queue.Pop();
    sum := AddWrap(sum0, FoldEvent(event.value));
    popped := popped0 + [event.value];
    FoldedSnoc(popped0, event.value);
    Moved(popped0, s);
  }

  lemma FoldedSnoc(events: seq<Event>, e: Event)
    ensures Folded(events + [e]) == AddWrap(Folded(events), FoldEvent(e))
  {
    assert (events + [e])[..|events|] == events;
  }

  lemma Moved(popped: seq<Event>, s: seq<Event>)
    requires s != []
    ensures (popped + [s[0]]) + s[1..] == popped + s
  {
  }

  /**
   Pushes `iters` notifications through a queue that is popped from whenever it holds eight, and so never holds more:
   nothing is dropped, what comes out is what went in, in order, and the sum is the wrapping sum over all iterations.
   */
  method SendAckLossEvents(packets: seq<Send>, capacity: nat, iters: nat)
    returns (sum: nat, ghost popped: seq<Event>, ghost peak: nat)
    requires packets != [] && capacity >= DEPTH
    ensures |popped| == iters && sum == Total(popped) % WRAP
    ensures forall i :: 0 <= i < iters ==>
      popped[i].item == packets[i % |packets|] && (popped[i].Acked? <==> i % 2 == 0)
    ensures peak == if iters < DEPTH then iters else DEPTH
  {
    var queue := new Queue<Event>(capacity);
    sum, popped, peak := 0, [], 0;
    var i := 0;
    while i < iters
      invariant i <= iters && queue.Valid() && queue.items.Length == capacity && fresh(queue) && fresh(queue.items)
      invariant queue.len == if i < DEPTH then i else DEPTH - 1
      invariant peak == if i < DEPTH then i else DEPTH
      invariant popped + queue.Contents() == Events(packets, i) && sum == Folded(popped)
    {
      var event := EventAt(packets, i);
      ghost var before := queue.Contents();
      queue.Push(event);
      peak := if queue.len > peak then queue.len else peak;
      assert Events(packets, i + 1) == Events(packets, i) + [event];
      assert popped + (before + [event]) == popped + before + [event];
      if queue.len >= DEPTH {
        sum, popped := PopAndFold(queue, sum, popped);
      }
      i := i + 1;
    }
    while queue.len > 0
      invariant queue.Valid() && fresh(queue) && fresh(queue.items)
      invariant popped + queue.Contents() == Events(packets, iters) && sum == Folded(popped)
      decreases queue.len
    {
      sum, popped := PopAndFold(queue, sum, popped);
    }
    assert queue.Contents() == [] && popped == Events(packets, iters);
    FoldedIsTotal(popped);
  }
}
