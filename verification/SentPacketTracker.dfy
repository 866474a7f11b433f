/**
 The sent-packet tracker: an array of slots sorted by packet number in which removal leaves a
 tombstone, refined against a plain map from packet number to packet.
 */
module SentPacketTracker {
  import opened Tombstones

  /** What loss recovery keeps of a sent packet; its packet number is the slot's key. */
  datatype Packet = Packet(sentTime: nat, bytes: nat, ackEliciting: bool, inFlight: bool)

  datatype RecordResult = Recorded | TooManyInFlight | OutOfMemory

  function InFlightBytes(p: Packet): nat { if p.inFlight then p.bytes else 0 }

  function ElicitingBytes(p: Packet): nat { if p.inFlight && p.ackEliciting then p.bytes else 0 }

  /** The canonical dead slot: only the packet number survives. */
  function Tombstone(pn: nat): Slot<Packet> { Slot(pn, Packet(0, 0, false, false), true) }

  /** How far a sweep is: the live slots before `r` are below `w`, those from `r` on are where they were. */
  ghost predicate SweptTo(now: seq<Slot<Packet>>, was: seq<Slot<Packet>>, w: nat, r: nat) {
    w <= r <= |now| == |was| && now[..w] == Compacted(was[..r]) && now[r..] == was[r..]
  }

  lemma SweepNext(now: seq<Slot<Packet>>, was: seq<Slot<Packet>>, w: nat, r: nat)
    requires r < |now| && SweptTo(now, was, w, r)
    ensures now[r].dead ==> SweptTo(now, was, w, r + 1)
    ensures !now[r].dead ==> SweptTo(now[w := now[r]], was, w + 1, r + 1)
  {
    assert now[r] == now[r..][0] && was[r] == was[r..][0];
    assert now[r + 1..] == now[r..][1..] && was[r + 1..] == was[r..][1..];
    assert Init(was[..r + 1]) == was[..r];
    assert now[w := now[r]][..w + 1] == now[..w] + [now[r]];
    assert now[w := now[r]][r + 1..] == now[r + 1..];
  }

  lemma SweptSame(s: seq<Slot<Packet>>, c: seq<Slot<Packet>>, bound: nat)
    requires Sorted(s) && c == Compacted(s) && (s != [] ==> s[|s| - 1].key < bound)
    ensures Sorted(c) && View(c) == View(s) && |c| == Live(c) == Live(s)
    ensures Weight(c, InFlightBytes) == Weight(s, InFlightBytes)
    ensures Weight(c, ElicitingBytes) == Weight(s, ElicitingBytes)
    ensures c != [] ==> c[|c| - 1].key < bound
  {
    CompactedSorted(s);
    CompactedSame(s);
    CompactedWeight(s, InFlightBytes);
    CompactedWeight(s, ElicitingBytes);
  }

  /** The map once the packets of `removed` are gone. */
  ghost function After(was: map<nat, Packet>, removed: seq<Slot<Packet>>): map<nat, Packet> {
    if removed == [] then was else After(was, Init(removed)) - {Last(removed).key}
  }

  /** Each packet of `removed` was in the map, under its number, when its turn came. */
  ghost predicate Handed(was: map<nat, Packet>, removed: seq<Slot<Packet>>) {
    removed != [] ==>
      && Handed(was, Init(removed))
      && Last(removed).key in After(was, Init(removed))
      && Last(removed).value == After(was, Init(removed))[Last(removed).key]
  }

  lemma {:induction false} HandedConcat(was: map<nat, Packet>, a: seq<Slot<Packet>>, b: seq<Slot<Packet>>)
    ensures After(was, a + b) == After(After(was, a), b)
    ensures Handed(was, a) && Handed(After(was, a), b) ==> Handed(was, a + b)
  {
    if b == [] {
      assert a + b == a;
    } else {
      assert Init(a + b) == a + Init(b);
      HandedConcat(was, a, Init(b));
    }
  }

  /** Slots `start` to `end` are dead, keys stand, every other slot is as it was. */
  ghost predicate Killed(was: seq<Slot<Packet>>, now: seq<Slot<Packet>>, start: nat, end: nat) {
    && |now| == |was|
    && (forall i :: 0 <= i < |was| ==> now[i].key == was[i].key)
    && (forall i :: 0 <= i < |was| && !(start <= i < end) ==> now[i] == was[i])
    && (forall i :: start <= i < end && i < |was| ==> now[i].dead)
  }

  /** The slots once the live ones of `start` to `i` are tombstones. */
  ghost function Removed(was: seq<Slot<Packet>>, start: nat, i: nat): (now: seq<Slot<Packet>>)
    requires start <= i <= |was|
    ensures |now| == |was|
    decreases i
  {
    if i == start then was
    else if was[i - 1].dead then Removed(was, start, i - 1)
    else Removed(was, start, i - 1)[i - 1 := Tombstone(was[i - 1].key)]
  }

  /** The live ones of the slots `start` to `i`, in order. */
  ghost function LiveOf(was: seq<Slot<Packet>>, start: nat, i: nat): seq<Slot<Packet>>
    requires start <= i <= |was|
    decreases i
  {
    if i == start then []
    else if was[i - 1].dead then LiveOf(was, start, i - 1)
    else LiveOf(was, start, i - 1) + [was[i - 1]]
  }

  lemma {:induction false} LiveOfSpan(was: seq<Slot<Packet>>, start: nat, i: nat)
    requires start <= i <= |was|
    ensures LiveOf(was, start, i) == Compacted(was[start..i])
    decreases i
  {
    if i == start {
      assert was[start..i] == [];
    } else {
      var s, k := was[start..i], i - 1;
      LiveOfSpan(was, start, k);
      assert Init(s) == was[start..k] && Last(s) == was[k];
    }
  }

  /** A removal walk that has passed the slots `start` to `i` of `was`: their live ones were handed over in order. */
  ghost predicate Removing(was: seq<Slot<Packet>>, now: seq<Slot<Packet>>, start: nat, i: nat,
      removed: seq<Slot<Packet>>)
  {
    start <= i <= |was| && now == Removed(was, start, i) && removed == LiveOf(was, start, i)
  }

  lemma NothingRemoved(was: seq<Slot<Packet>>, start: nat)
    requires start <= |was|
    ensures Removing(was, was, start, start, [])
  {
  }

  lemma {:induction false} RemovedKills(was: seq<Slot<Packet>>, start: nat, i: nat)
    requires start <= i <= |was|
    ensures Killed(was, Removed(was, start, i), start, i)
    decreases i
  {
    if i > start {
      RemovedKills(was, start, i - 1);
    }
  }

  lemma RemovedOne(was: seq<Slot<Packet>>, now: seq<Slot<Packet>>, start: nat, i: nat, removed: seq<Slot<Packet>>)
    requires i < |was| && Removing(was, now, start, i, removed)
    ensures now[i] == was[i]
    ensures now[i].dead ==> Removing(was, now, start, i + 1, removed)
    ensures !now[i].dead ==> Removing(was, now[i := Tombstone(now[i].key)], start, i + 1, removed + [now[i]])
  {
    RemovedKills(was, start, i);
  }

  lemma {:induction false} RemovedSorted(was: seq<Slot<Packet>>, start: nat, i: nat)
    requires Sorted(was) && start <= i <= |was|
    ensures Sorted(Removed(was, start, i))
  {
    RemovedKills(was, start, i);
  }

  /** One more live packet handed over is one less in the map. */
  lemma HandsNext(was: map<nat, Packet>, mid: seq<Slot<Packet>>, k: nat, list: seq<Slot<Packet>>,
      now: seq<Slot<Packet>>, longer: seq<Slot<Packet>>)
    requires Sorted(mid) && k < |mid| && Handed(was, list) && View(mid) == After(was, list)
    requires mid[k].dead ==> now == mid && longer == list
    requires !mid[k].dead ==> now == mid[k := Tombstone(mid[k].key)] && longer == list + [mid[k]]
    ensures Handed(was, longer) && View(now) == After(was, longer)
  {
    if !mid[k].dead {
      ViewAt(mid, k);
      Overwrite(mid, k, Tombstone(mid[k].key));
      assert Init(longer) == list;
    }
  }

  /** Walking over slots takes their live packets out of the map one by one. */
  lemma {:induction false} RemovedHands(was: seq<Slot<Packet>>, start: nat, i: nat)
    returns (now: seq<Slot<Packet>>, list: seq<Slot<Packet>>)
    requires Sorted(was) && start <= i <= |was|
    ensures now == Removed(was, start, i) && list == LiveOf(was, start, i)
    ensures Handed(View(was), list) && View(now) == After(View(was), list)
    decreases i
  {
    if i == start {
      now, list := was, [];
    } else {
      var k := i - 1;
      var mid, before := RemovedHands(was, start, k);
      RemovedOne(was, mid, start, k, before);
      RemovedSorted(was, start, k);
      now, list := Removed(was, start, i), LiveOf(was, start, i);
      HandsNext(View(was), mid, k, before, now, list);
    }
  }

  /** Copies the first `n` slots. */
  method CopySlots(source: array<Slot<Packet>>, target: array<Slot<Packet>>, n: nat)
    requires n <= source.Length && n <= target.Length && source != target
    modifies target
    ensures target[..n] == source[..n]
  {
    for i := 0 to n
      invariant target[..i] == source[..i]
    {
      target[i] := source[i];
    }
  }

  /** What one more live slot at the end adds to the map and to the totals. */
  lemma Appended(s: seq<Slot<Packet>>, pn: nat, p: Packet, t: seq<Slot<Packet>>)
    requires Sorted(s) && (s != [] ==> Last(s).key < pn) && t == s + [Slot(pn, p, false)]
    ensures Sorted(t) && pn !in View(s) && View(t) == View(s)[pn := p] && Live(t) == Live(s) + 1
    ensures t != [] && Last(t).key == pn
    ensures Weight(t, InFlightBytes) == Weight(s, InFlightBytes) + InFlightBytes(p)
    ensures Weight(t, ElicitingBytes) == Weight(s, ElicitingBytes) + ElicitingBytes(p)
  {
    Tombstones.Append(s, Slot(pn, p, false));
    AppendWeight(s, Slot(pn, p, false), InFlightBytes);
    AppendWeight(s, Slot(pn, p, false), ElicitingBytes);
  }

  class Tracker {
    var packets: array<Slot<Packet>>
    var maxCapacity: nat
    var count: nat
    var deadCount: nat
    var bytesInFlight: nat
    var ackElicitingInFlight: nat

    /** The slots in use, tombstones included. */
    ghost function Slots(): seq<Slot<Packet>>
      requires count <= packets.Length
      reads this`packets, this`count, packets
    {
      packets[..count]
    }

    /** The counters agree with the slots. */
    ghost predicate Valid()
      reads this, packets
    {
      && count <= packets.Length
      && Sorted(Slots())
      && deadCount <= count
      && count - deadCount == Live(Slots())
      && bytesInFlight == Weight(Slots(), InFlightBytes)
      && ackElicitingInFlight == Weight(Slots(), ElicitingBytes)
      && (maxCapacity > 0 ==> 0 < packets.Length <= maxCapacity)
    }

    /** Every slot's number, dead or live, is below `bound`. */
    ghost predicate Below(bound: nat)
      reads this`packets, this`count, packets
    {
      count <= packets.Length && (count > 0 ==> packets[count - 1].key < bound)
    }

    /** The packets tracked, by packet number. */
    ghost function Tracked(): map<nat, Packet>
      requires count <= packets.Length
      reads this`packets, this`count, packets
    {
      View(Slots())
    }

    /** Capacity for `cap` live packets over a storage of `first` slots. */
    constructor (cap: nat, first: nat)
      requires cap > 0 ==> 0 < first <= cap
      ensures Valid() && fresh(packets) && Tracked() == map[]
      ensures maxCapacity == cap && packets.Length == first
    {
      packets := new Slot<Packet>[first](_ => Tombstone(0));
      maxCapacity := cap;
      count, deadCount, bytesInFlight, ackElicitingInFlight := 0, 0, 0, 0;
    }

    function Capacity(): nat
      reads this
    {
      if maxCapacity == 0 then packets.Length else maxCapacity
    }

    function LiveCount(): nat
      requires deadCount <= count
      reads this
    {
      count - deadCount
    }

    /** The counters of a valid tracker are functions of the tracked map alone. */
    lemma CountersOfMap()
      requires Valid()
      ensures LiveCount() == |Tracked()|
      ensures bytesInFlight == MapWeight(Tracked(), InFlightBytes)
      ensures ackElicitingInFlight == MapWeight(Tracked(), ElicitingBytes)
    {
      LiveIsSize(Slots());
      WeightIsMapWeight(Slots(), InFlightBytes);
      WeightIsMapWeight(Slots(), ElicitingBytes);
    }

    /** One slot of a sweep: a live one moves down to `w`. */
    method SweepOne(w: nat, r: nat, ghost was: seq<Slot<Packet>>) returns (next: nat)
      requires r < count <= packets.Length && SweptTo(Slots(), was, w, r)
      modifies packets
      ensures SweptTo(Slots(), was, next, r + 1)
    {
      ghost var now := Slots();
      SweepNext(now, was, w, r);
      next := w;
      if !packets[r].dead {
        packets[w] := packets[r];
        next := w + 1;
        assert Slots() == now[w := now[r]];
      }
    }

    /** Moves the live slots to the front, in order. */
    method Sweep() returns (w: nat)
      requires count <= packets.Length
      modifies packets
      ensures w <= count && packets[..w] == Compacted(old(Slots()))
    {
      w := 0;
      ghost var was := Slots();
      for r := 0 to count
        invariant SweptTo(Slots(), was, w, r)
      {
        w := SweepOne(w, r, was);
      }
      assert was[..count] == was && Slots()[..w] == packets[..w];
    }

    /** Sweeps the tombstones out; the tracked map stays. */
    method Compact(ghost bound: nat)
      requires Valid() && Below(bound)
      modifies this`count, this`deadCount, packets
      ensures Valid() && Below(bound) && Tracked() == old(Tracked()) && deadCount == 0
    {
      if deadCount == 0 {
        return;
      }
      ghost var was := Slots();
      SweptSame(was, Compacted(was), bound);
      var w := Sweep();
      Adopt(w, Compacted(was), bound);
    }

    /** The first `w` slots, all live, are the tracker's. */
    method Adopt(w: nat, ghost c: seq<Slot<Packet>>, ghost bound: nat)
      requires w <= packets.Length && packets[..w] == c && Sorted(c) && |c| == Live(c)
      requires c != [] ==> c[|c| - 1].key < bound
      requires bytesInFlight == Weight(c, InFlightBytes) && ackElicitingInFlight == Weight(c, ElicitingBytes)
      requires maxCapacity > 0 ==> 0 < packets.Length <= maxCapacity
      modifies this`count, this`deadCount
      ensures Valid() && Below(bound) && Tracked() == View(c) && deadCount == 0
    {
      count, deadCount := w, 0;
      assert Slots() == c;
    }

    /** Doubles the storage toward the capacity. */
    method Grow()
      requires Valid() && packets.Length < Capacity()
      modifies this`packets
      ensures Valid() && Slots() == old(Slots()) && fresh(packets)
      ensures packets.Length > old(packets.Length)
    {
      var length := if packets.Length * 2 < Capacity() then packets.Length * 2 else Capacity();
      var storage := new Slot<Packet>[length](_ => Tombstone(0));
      CopySlots(packets, storage, count);
      packets := storage;
    }

    /** Makes room for one packet: sweeps when the storage is full or a quarter dead, then doubles. */
    method PrepareRecord(memory: bool, ghost bound: nat) returns (r: RecordResult)
      requires Valid() && Below(bound)
      modifies this`count, this`deadCount, this`packets, packets
      ensures Valid() && Below(bound) && Tracked() == old(Tracked())
      ensures packets == old(packets) || (r == Recorded && fresh(packets) && packets.Length > old(packets.Length))
      ensures r == TooManyInFlight <==> |Tracked()| >= old(Capacity())
      ensures r == Recorded ==> count < packets.Length
      ensures r == Recorded ==> deadCount == 0 || deadCount < packets.Length / 4
      ensures r == OutOfMemory <==> !memory && |Tracked()| == old(packets.Length) < old(Capacity())
    {
      CountersOfMap();
      if LiveCount() >= Capacity() {
        return TooManyInFlight;
      }
      if count >= packets.Length || deadCount >= packets.Length / 4 {
        Compact(bound);
        CountersOfMap();
      }
      r := GrowIfFull(memory, bound);
    }

    /** Doubles the storage if no slot is free. */
    method GrowIfFull(memory: bool, ghost bound: nat) returns (r: RecordResult)
      requires Valid() && Below(bound) && LiveCount() < Capacity() && (count >= packets.Length ==> deadCount == 0)
      modifies this`packets
      ensures Valid() && Below(bound) && Slots() == old(Slots())
      ensures packets == old(packets) || (r == Recorded && fresh(packets) && packets.Length > old(packets.Length))
      ensures r != TooManyInFlight && (r == Recorded ==> count < packets.Length)
      ensures packets.Length >= old(packets.Length)
      ensures r == OutOfMemory <==> !memory && old(count) >= old(packets.Length)
    {
      if count < packets.Length {
        return Recorded;
      }
      if !memory {
        return OutOfMemory;
      }
      Grow();
      r := Recorded;
    }

    method Put(slot: Slot<Packet>, ghost t: seq<Slot<Packet>>)
      requires count < packets.Length && t == Slots() + [slot]
      modifies this`count, packets
      ensures count == old(count) + 1 <= packets.Length && Slots() == t && packets[count - 1] == slot
    {
      packets[count] := slot;
      count := count + 1;
    }

    /** Writes a packet into the free slot after the last. */
    method Append(pn: nat, p: Packet)
      requires Valid() && count < packets.Length && Below(pn)
      modifies this`count, this`bytesInFlight, this`ackElicitingInFlight, packets
      ensures Valid() && Below(pn + 1)
      ensures bytesInFlight == old(bytesInFlight) + InFlightBytes(p)
      ensures ackElicitingInFlight == old(ackElicitingInFlight) + ElicitingBytes(p)
      ensures pn !in old(Tracked()) && Tracked() == old(Tracked())[pn := p]
    {
      ghost var t := Grown(pn, p);
      Put(Slot(pn, p, false), t);
      Tally(p, t);
    }

    /** The slots and totals with one more packet. */
    lemma Grown(pn: nat, p: Packet) returns (t: seq<Slot<Packet>>)
      requires Valid() && Below(pn)
      ensures t == Slots() + [Slot(pn, p, false)] && Sorted(t) && Live(t) == count - deadCount + 1
      ensures pn !in Tracked() && View(t) == Tracked()[pn := p]
      ensures Weight(t, InFlightBytes) == bytesInFlight + InFlightBytes(p)
      ensures Weight(t, ElicitingBytes) == ackElicitingInFlight + ElicitingBytes(p)
    {
      t := Slots() + [Slot(pn, p, false)];
      Appended(Slots(), pn, p, t);
    }

    /** Counts a packet just written. */
    method Tally(p: Packet, ghost t: seq<Slot<Packet>>)
      requires count <= packets.Length && Slots() == t && Sorted(t)
      requires deadCount <= count && count - deadCount == Live(t)
      requires Weight(t, InFlightBytes) == bytesInFlight + InFlightBytes(p)
      requires Weight(t, ElicitingBytes) == ackElicitingInFlight + ElicitingBytes(p)
      requires maxCapacity > 0 ==> 0 < packets.Length <= maxCapacity
      modifies this`bytesInFlight, this`ackElicitingInFlight
      ensures Valid() && Slots() == t
      ensures bytesInFlight == old(bytesInFlight) + InFlightBytes(p)
      ensures ackElicitingInFlight == old(ackElicitingInFlight) + ElicitingBytes(p)
    {
      bytesInFlight := bytesInFlight + InFlightBytes(p);
      ackElicitingInFlight := ackElicitingInFlight + ElicitingBytes(p);
      assert Slots() == t;
    }

    /** Tracks a packet under a number above every slot's; the storage may be swept or doubled first. */
    method Record(pn: nat, p: Packet, memory: bool) returns (r: RecordResult)
      requires Valid() && Below(pn)
      modifies this, packets
      ensures Valid() && Below(pn + 1)
      ensures maxCapacity == old(maxCapacity)
      ensures packets == old(packets) || (r == Recorded && fresh(packets) && packets.Length > old(packets.Length))
      ensures r == TooManyInFlight <==>
        |old(Tracked())| >= old(if maxCapacity == 0 then packets.Length else maxCapacity)
      ensures r == Recorded ==> deadCount == 0 || deadCount < packets.Length / 4
      ensures r == OutOfMemory <==> !memory && |old(Tracked())| == old(packets.Length) < old(Capacity())
      ensures r == Recorded ==> bytesInFlight == old(bytesInFlight) + if p.inFlight then p.bytes else 0
      ensures r == Recorded ==>
        ackElicitingInFlight == old(ackElicitingInFlight) + if p.inFlight && p.ackEliciting then p.bytes else 0
      ensures r == Recorded ==> pn !in old(Tracked()) && Tracked() == old(Tracked())[pn := p]
      ensures r != Recorded ==> Tracked() == old(Tracked())
    {
      r := PrepareRecord(memory, pn);
      if r == Recorded {
        Append(pn, p);
      }
    }

    /** Marks slot `idx` dead and hands its packet back. */
    method RemoveAt(idx: nat) returns (p: Packet)
      requires Valid() && idx < count && !packets[idx].dead
      modifies this`deadCount, this`bytesInFlight, this`ackElicitingInFlight, packets
      ensures Valid() && count == old(count)
      ensures old(packets[idx].key) in old(Tracked()) && p == old(Tracked()[packets[idx].key])
      ensures p == old(packets[idx].value)
      ensures Tracked() == old(Tracked()) - {old(packets[idx].key)}
      ensures bytesInFlight == old(bytesInFlight) - if p.inFlight then p.bytes else 0
      ensures ackElicitingInFlight == old(ackElicitingInFlight) - if p.inFlight && p.ackEliciting then p.bytes else 0
      ensures packets[idx] == Tombstone(old(packets[idx].key))
      ensures forall i :: 0 <= i < packets.Length && i != idx ==> packets[i] == old(packets[i])
    {
      ghost var was := Slots();
      var slot := packets[idx];
      ViewAt(was, idx);
      Overwrite(was, idx, Tombstone(slot.key));
      OverwriteWeight(was, idx, Tombstone(slot.key), InFlightBytes);
      OverwriteWeight(was, idx, Tombstone(slot.key), ElicitingBytes);
      p := slot.value;
      packets[idx] := Tombstone(slot.key);
      assert Slots() == was[idx := Tombstone(slot.key)];
      deadCount := deadCount + 1;
      bytesInFlight := bytesInFlight - InFlightBytes(p);
      ackElicitingInFlight := ackElicitingInFlight - ElicitingBytes(p);
    }

    /** One slot of a removal walk: what was handed over, and the slots then. */
    method RemoveSlot(i: nat, removed0: seq<Slot<Packet>>, ghost mid: seq<Slot<Packet>>)
      returns (removed: seq<Slot<Packet>>, ghost now: seq<Slot<Packet>>)
      requires Valid() && i < count && Slots() == mid
      modifies this`deadCount, this`bytesInFlight, this`ackElicitingInFlight, packets
      ensures Valid() && Slots() == now
      ensures now == if mid[i].dead then mid else mid[i := Tombstone(mid[i].key)]
      ensures removed == if mid[i].dead then removed0 else removed0 + [mid[i]]
    {
      removed := removed0;
      if !packets[i].dead {
        var slot := packets[i];
        var p := RemoveAt(i);
        removed := removed0 + [Slot(slot.key, p, false)];
        assert Slots() == mid[i := Tombstone(slot.key)];
      }
      now := Slots();
    }

    method RemoveSlots(start: nat, end: nat, ghost was: seq<Slot<Packet>>)
      returns (removed: seq<Slot<Packet>>, ghost now: seq<Slot<Packet>>)
      requires Valid() && start <= end <= count && was == Slots()
      modifies this`deadCount, this`bytesInFlight, this`ackElicitingInFlight, packets
      ensures Valid() && Slots() == now && Removing(was, now, start, end, removed)
    {
      removed, now := [], was;
      NothingRemoved(was, start);
      for i := start to end
        invariant Valid() && Slots() == now && Removing(was, now, start, i, removed)
      {
        RemovedOne(was, now, start, i, removed);
        removed, now := RemoveSlot(i, removed, now);
      }
    }

    /** Hands over every live packet in slots `start` to `end`, once and in order. */
    method RemoveRange(start: nat, end: nat) returns (removed: seq<Slot<Packet>>)
      requires Valid() && start <= end <= count
      modifies this`deadCount, this`bytesInFlight, this`ackElicitingInFlight, packets
      ensures Valid() && Killed(old(Slots()), Slots(), start, end)
      ensures Handed(old(Tracked()), removed) && Tracked() == After(old(Tracked()), removed)
      ensures removed == Compacted(old(Slots())[start..end]) && Sorted(removed)
    {
      ghost var was := Slots();
      RemovedKills(was, start, end);
      ghost var now, list := RemovedHands(was, start, end);
      LiveOfSpan(was, start, end);
      CompactedSorted(was[start..end]);
      removed, now := RemoveSlots(start, end, was);
    }

    /** The slot holding `pn`, dead or live, by binary search. */
    method IndexOf(pn: nat) returns (found: bool, idx: nat)
      requires Valid()
      ensures found ==> idx < count && packets[idx].key == pn
      ensures !found ==> forall i :: 0 <= i < count ==> packets[i].key != pn
    {
      var lo, hi := 0, count;
      while lo < hi
        invariant lo <= hi <= count
        invariant forall i :: 0 <= i < lo ==> packets[i].key < pn
        invariant forall i :: hi <= i < count ==> pn < packets[i].key
      {
        var mid := lo + (hi - lo) / 2;
        if packets[mid].key == pn {
          return true, mid;
        }
        assert forall i, j :: 0 <= i < j < count ==> Slots()[i].key < Slots()[j].key;
        if packets[mid].key < pn {
          lo := mid + 1;
        } else {
          hi := mid;
        }
      }
      found, idx := false, 0;
    }

    /** The first slot whose number is at least `pn`; `count` stands for none. */
    method LowerBound(pn: nat) returns (lo: nat)
      requires Valid()
      ensures lo <= count
      ensures forall i :: 0 <= i < lo ==> packets[i].key < pn
      ensures forall i :: lo <= i < count ==> pn <= packets[i].key
    {
      lo := 0;
      var hi := count;
      while lo < hi
        invariant lo <= hi <= count
        invariant forall i :: 0 <= i < lo ==> packets[i].key < pn
        invariant forall i :: hi <= i < count ==> pn <= packets[i].key
      {
        var mid := lo + (hi - lo) / 2;
        assert forall i, j :: 0 <= i < j < count ==> Slots()[i].key < Slots()[j].key;
        if packets[mid].key < pn {
          lo := mid + 1;
        } else {
          hi := mid;
        }
      }
    }
  }
}
