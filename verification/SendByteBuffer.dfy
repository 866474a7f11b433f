/** The send stream's byte buffer: a ring whose head moves over discarded bytes, refining a sequence of bytes. */
module SendByteBuffer {
  import opened Varint
  import opened RangeList
  import opened Ring

  /**
   What a larger ring's size grows to: by half and eight more until it holds `minimum`. So each growth is by half at
   least, and what is never filled is at most about half of what was asked for.
   */
  method GrowCapacity(oldCapacity: nat, minimum: nat) returns (capacity: nat)
    ensures capacity >= minimum && capacity >= oldCapacity
    ensures minimum <= oldCapacity && oldCapacity > 0 ==> capacity == oldCapacity
    ensures oldCapacity == 0 ==> capacity == Max(64, minimum)
    ensures capacity > oldCapacity > 0 ==> 3 * oldCapacity + 15 <= 2 * capacity <= 3 * minimum + 13
  {
    capacity := if oldCapacity == 0 then Max(64, minimum) else oldCapacity;
    while capacity < minimum
      invariant capacity >= oldCapacity
      invariant minimum <= oldCapacity && oldCapacity > 0 ==> capacity == oldCapacity
      invariant oldCapacity == 0 ==> capacity == Max(64, minimum)
      invariant capacity > oldCapacity > 0 ==> 3 * oldCapacity + 15 <= 2 * capacity <= 3 * minimum + 13
      decreases minimum - capacity
    {
      capacity := capacity + capacity / 2 + 8;
    }
  }

  /** The first `n` cells of a run from `head`, up to the wrap, are the first `n` elements. */
  lemma RunIsSlice(s: seq<Byte>, head: nat, live: nat, from: nat, n: nat)
    requires Fits(|s|, head, live) && from + n <= live && n > 0 && Phys(head, |s|, from) + n <= |s|
    ensures s[Phys(head, |s|, from)..Phys(head, |s|, from) + n] == Unrolled(s, head, live)[from..from + n]
  {
    var at, u := Phys(head, |s|, from), Unrolled(s, head, live);
    var run, slice := s[at..at + n], u[from..from + n];
    forall k | 0 <= k < n
      ensures run[k] == slice[k]
    {
      assert u[from + k] == s[Phys(head, |s|, from + k)];
    }
  }

  /** New bytes after the live ones, all else kept. */
  lemma Appended(s: seq<Byte>, t: seq<Byte>, head: nat, live: nat, tail: nat, data: seq<Byte>)
    requires |t| == |s| && Fits(|s|, head, live) && live + |data| <= |s| && data != []
    requires tail == if head + live < |s| then head + live else head + live - |s|
    requires forall k :: 0 <= k < |data| ==> t[Phys(tail, |s|, k)] == data[k]
    requires forall k :: |data| <= k < |s| ==> t[Phys(tail, |s|, k)] == s[Phys(tail, |s|, k)]
    ensures Unrolled(t, head, live + |data|) == Unrolled(s, head, live) + data
  {
    forall i | 0 <= i < live + |data|
      ensures t[Phys(head, |s|, i)] == if i < live then s[Phys(head, |s|, i)] else data[i - live]
    {
      var k := if i < live then |s| - live + i else i - live;
      assert Phys(tail, |s|, k) == Phys(head, |s|, i);
    }
  }

  /** A copy of the tail of the ring and then of its front, from the start of another. */
  lemma LaidOut(s: seq<Byte>, t: seq<Byte>, head: nat, live: nat, first: nat)
    requires Fits(|s|, head, live) && live <= |t| && 0 < live && first == Min(live, |s| - head)
    requires forall i :: 0 <= i < first ==> t[i] == s[head + i]
    requires forall i :: first <= i < live ==> t[i] == s[i - first]
    ensures Unrolled(t, 0, live) == Unrolled(s, head, live)
  {
    forall i | 0 <= i < live
      ensures t[Phys(0, |t|, i)] == s[Phys(head, |s|, i)]
    {
      assert Phys(0, |t|, i) == i && Phys(head, |s|, i) == if i < first then head + i else i - first;
    }
  }

  /** Copies `data` into `target` at `at`. */
  method CopyIn(target: array<Byte>, at: nat, data: seq<Byte>)
    requires at + |data| <= target.Length
    modifies target
    ensures forall i :: 0 <= i < target.Length ==>
      target[i] == if at <= i < at + |data| then data[i - at] else old(target[i])
  {
    for k := 0 to |data|
      invariant forall i :: 0 <= i < target.Length ==>
        target[i] == if at <= i < at + k then data[i - at] else old(target[i])
    {
      target[at + k] := data[k];
    }
  }

  /** Copies `data` into a ring from index `tail` on, and what is over to its start. */
  method CopyRound(target: array<Byte>, tail: nat, data: seq<Byte>)
    requires tail < target.Length && |data| <= target.Length
    modifies target
    ensures forall k :: 0 <= k < |data| ==> target[Phys(tail, target.Length, k)] == data[k]
    ensures forall k :: |data| <= k < target.Length ==>
      target[Phys(tail, target.Length, k)] == old(target[Phys(tail, target.Length, k)])
  {
    var first := Min(|data|, target.Length - tail);
    CopyIn(target, tail, data[..first]);
    if first < |data| {
      CopyIn(target, 0, data[first..]);
    }
  }

  class Buffer {
    var allocation: array<Byte>
    var head: nat
    var live: nat

    constructor ()
      ensures Valid() && Contents() == [] && fresh(allocation)
    {
      allocation := new Byte[0];
      head, live := 0, 0;
    }

    ghost predicate Valid()
      reads this
    {
      Fits(allocation.Length, head, live)
    }

    /** The live bytes. */
    ghost function Contents(): seq<Byte>
      requires Valid()
      reads this, allocation
    {
      Unrolled(allocation[..], head, live)
    }

    /** The live bytes from `from`, `n` at most, fewer when the wrap comes first. */
    method Slice(from: nat, n: nat) returns (run: seq<Byte>)
      requires Valid() && from + n <= live
      ensures |run| <= n && run == Contents()[from..from + |run|]
      ensures |run| < n ==> Phys(head, allocation.Length, from) + |run| == allocation.Length
      ensures n > 0 ==> run != []
    {
      if n == 0 {
        return [];
      }
      var at := Phys(head, allocation.Length, from);
      var count := Min(n, allocation.Length - at);
      RunIsSlice(allocation[..], head, live, from, count);
      run := allocation[at..at + count];
    }

    /** A chunk's bytes in one piece, put together when they cross the wrap. */
    method ChunkBytesContiguous(from: nat, n: nat) returns (data: seq<Byte>)
      requires Valid() && from + n <= live
      ensures data == Contents()[from..from + n]
    {
      var first := Slice(from, n);
      if |first| == n {
        return first;
      }
      var rest := Slice(from + |first|, n - |first|);
      WrapOnce(allocation.Length, head, from, |first|, n);
      data := first + rest;
    }

    /** Puts the live bytes at the start of a larger ring. */
    method Reallocate(capacity: nat)
      requires Valid() && live <= capacity
      modifies this`allocation, this`head
      ensures Valid() && Contents() == old(Contents()) && allocation.Length == capacity && fresh(allocation)
      ensures head == 0
    {
      var larger := new Byte[capacity](_ => 0);
      if live > 0 {
        var first := Min(live, allocation.Length - head);
        CopyIn(larger, 0, allocation[head..head + first]);
        if first < live {
          CopyIn(larger, first, allocation[..live - first]);
        }
        LaidOut(allocation[..], larger[..], head, live, first);
      }
      allocation, head := larger, 0;
    }

    method EnsureUnusedCapacity(extra: nat, memory: bool) returns (ok: bool)
      requires Valid()
      modifies this`allocation, this`head
      ensures Valid() && Contents() == old(Contents()) && (allocation == old(allocation) || fresh(allocation))
      ensures ok <==> memory || live + extra <= old(allocation.Length)
      ensures ok ==> live + extra <= allocation.Length
      ensures live + extra <= old(allocation.Length) ==> allocation == old(allocation)
    {
      if allocation.Length >= live + extra {
        return true;
      }
      var capacity := GrowCapacity(allocation.Length, live + extra);
      if !memory {
        return false;
      }
      Reallocate(capacity);
      ok := true;
    }

    /** Appends; the bytes already there stay where they are unless the ring has to grow. */
    method AppendSlice(data: seq<Byte>, memory: bool) returns (ok: bool)
      requires Valid()
      modifies this, allocation
      ensures Valid() && (allocation == old(allocation) || fresh(allocation))
      ensures Contents() == if ok then old(Contents()) + data else old(Contents())
      ensures ok <==> data == [] || memory || old(live) + |data| <= old(allocation.Length)
    {
      if data == [] {
        assert Contents() + data == Contents();
        return true;
      }
      ok := EnsureUnusedCapacity(|data|, memory);
      if ok {
        WriteTail(data);
      }
    }

    method WriteTail(data: seq<Byte>)
      requires Valid() && data != [] && live + |data| <= allocation.Length
      modifies this`live, allocation
      ensures Valid() && Contents() == old(Contents()) + data
    {
      ghost var was := allocation[..];
      var cap := allocation.Length;
      var tail := if head + live < cap then head + live else head + live - cap;
      CopyRound(allocation, tail, data);
      Appended(was, allocation[..], head, live, tail, data);
      live := live + |data|;
    }

    /** Drops bytes from the front by moving the head. */
    method DiscardPrefix(n: nat)
      requires Valid() && n <= live
      modifies this`head, this`live
      ensures Valid() && Contents() == old(Contents())[n..]
    {
      if n == 0 {
        return;
      }
      Dropped(allocation[..], head, live, n);
      live := live - n;
      head := if live == 0 then 0 else Phys(head, allocation.Length, n);
    }
  }

  lemma WrapOnce(cap: nat, head: nat, from: nat, first: nat, n: nat)
    requires Fits(cap, head, from + n) && first < n && Phys(head, cap, from) + first == cap
    ensures first > 0 && Phys(head, cap, from + first) == 0 && n - first <= cap
  {
  }

  lemma Dropped(s: seq<Byte>, head: nat, live: nat, n: nat)
    requires Fits(|s|, head, live) && 0 < n <= live
    ensures n < live ==> Unrolled(s, Phys(head, |s|, n), live - n) == Unrolled(s, head, live)[n..]
  {
  }
}
