/**
 The send half's in-flight map: a ring of slots in packet-number order with tombstones, trimmed at both ends,
 refined against a plain map from packet number to chunk.
 */
module InFlightMap {
  import opened Tombstones
  import opened Ring
  import opened Wrappers

  /** Stream bytes from `offset` on, with a possible FIN; `requeued` once a probe has queued them again. */
  datatype Chunk = Chunk(offset: nat, length: nat, fin: bool, requeued: bool)

  const EMPTY_SLOT: Slot<Chunk> := Slot(0, Chunk(0, 0, false, false), true)

  lemma SweptWell(s: seq<Slot<Chunk>>, c: seq<Slot<Chunk>>)
    requires Sorted(s) && c == Compacted(s)
    ensures Represents(c) && View(c) == View(s) && |c| == Live(c) == Live(s)
  {
    CompactedSorted(s);
    CompactedSame(s);
  }

  /** Sorted slots with no tombstone at either end, so none at all once the last live one goes. */
  ghost predicate Represents(t: seq<Slot<Chunk>>) {
    && Sorted(t)
    && (Live(t) == 0 ==> t == [])
    && (t != [] ==> !t[0].dead && !t[|t| - 1].dead)
  }

  lemma PutLast(s: seq<Slot<Chunk>>, x: Slot<Chunk>)
    requires Represents(s) && !x.dead && (s != [] ==> s[|s| - 1].key < x.key)
    ensures Represents(s + [x]) && View(s + [x]) == View(s)[x.key := x.value] && Live(s + [x]) == Live(s) + 1
  {
    Append(s, x);
  }

  lemma PutRevive(s: seq<Slot<Chunk>>, i: nat, x: Slot<Chunk>)
    requires Represents(s) && !x.dead && i < |s| && s[i].key == x.key && x.key !in View(s)
    ensures Represents(s[i := x]) && View(s[i := x]) == View(s)[x.key := x.value] && Live(s[i := x]) == Live(s) + 1
  {
    ViewAt(s, i);
    Overwrite(s, i, x);
  }

  ghost function Placed(s: seq<Slot<Chunk>>, i: nat, x: Slot<Chunk>): seq<Slot<Chunk>>
    requires i < |s|
  {
    if s[i].key == x.key then s[i := x] else Inserted(s, i, x)
  }

  lemma PlacedWell(s: seq<Slot<Chunk>>, i: nat, x: Slot<Chunk>)
    requires Represents(s) && !x.dead && i < |s| && x.key !in View(s)
    requires forall k :: 0 <= k < i ==> s[k].key < x.key
    requires forall k :: i <= k < |s| ==> x.key <= s[k].key
    ensures Represents(Placed(s, i, x)) && View(Placed(s, i, x)) == View(s)[x.key := x.value]
    ensures Live(Placed(s, i, x)) == Live(s) + 1
  {
    if s[i].key == x.key {
      PutRevive(s, i, x);
    } else {
      assert forall k :: i < k < |s| ==> s[i].key < s[k].key;
      PutMiddle(s, i, x);
    }
  }

  /** Every slot from `at` on moved one place up, over the last. */
  ghost function Shifted(s: seq<Slot<Chunk>>, at: nat): (t: seq<Slot<Chunk>>)
    requires at < |s|
    ensures |t| == |s|
    decreases |s| - at
  {
    if |s| == at + 1 then s else Shifted(s, at + 1)[at + 1 := s[at]]
  }

  lemma {:induction false} ShiftedIs(s: seq<Slot<Chunk>>, at: nat)
    requires at < |s|
    ensures Shifted(s, at) == s[..at + 1] + s[at..|s| - 1]
    decreases |s| - at
  {
    if |s| > at + 1 {
      ShiftedIs(s, at + 1);
    }
  }

  lemma NotShifted(s: seq<Slot<Chunk>>, at: nat)
    requires |s| == at + 1
    ensures Shifted(s, at) == s
  {
  }

  lemma ShiftOne(s: seq<Slot<Chunk>>, at: nat)
    requires 0 < at < |s|
    ensures Shifted(s, at)[at := Shifted(s, at)[at - 1]] == Shifted(s, at - 1)
  {
    ShiftedIs(s, at);
  }

  lemma ShiftedInserts(s: seq<Slot<Chunk>>, at: nat, x: Slot<Chunk>)
    requires at <= |s|
    ensures Shifted(s + [x], at)[at := x] == Inserted(s, at, x)
  {
    ShiftedIs(s + [x], at);
  }

  lemma InsertedEnds(s: seq<Slot<Chunk>>, i: nat, x: Slot<Chunk>)
    requires i < |s|
    ensures var t := Inserted(s, i, x);
      |t| == |s| + 1 && t[0] == (if i == 0 then x else s[0]) && t[|t| - 1] == s[|s| - 1]
  {
  }

  lemma PutMiddle(s: seq<Slot<Chunk>>, i: nat, x: Slot<Chunk>)
    requires Represents(s) && !x.dead && i < |s|
    requires forall k :: 0 <= k < i ==> s[k].key < x.key
    requires forall k :: i <= k < |s| ==> x.key < s[k].key
    ensures Represents(Inserted(s, i, x))
    ensures View(Inserted(s, i, x)) == View(s)[x.key := x.value]
    ensures Live(Inserted(s, i, x)) == Live(s) + 1
  {
    Insert(s, i, x);
    InsertedEnds(s, i, x);
  }

  /** The least power of two from eight on that is not below `needed`. */
  method NextPower(needed: nat) returns (target: nat)
    ensures needed <= target && PowerOfTwo(target) && (target == 8 || 8 < target < 2 * needed)
  {
    assert PowerOfTwo(2) && PowerOfTwo(4);
    target := 8;
    while target < needed
      invariant PowerOfTwo(target) && (target == 8 || 8 < target < 2 * needed)
      decreases needed - target
    {
      Doubled(target);
      target := target * 2;
    }
  }

  class Map {
    var slots: array<Slot<Chunk>>
    var head: nat
    var span: nat
    var live: nat

    constructor ()
      ensures Valid() && Entries() == map[] && fresh(slots) && slots.Length == 0
    {
      slots := new Slot<Chunk>[0](_ => EMPTY_SLOT);
      head, span, live := 0, 0, 0;
    }

    /** The slots in packet-number order, from the head on. */
    ghost function Logical(): seq<Slot<Chunk>>
      requires Fits(slots.Length, head, span)
      reads this`slots, this`head, this`span, slots
    {
      Unrolled(slots[..], head, span)
    }

    ghost predicate Shaped()
      reads this, slots
    {
      && Fits(slots.Length, head, span)
      && Sorted(Logical())
      && live == Live(Logical())
    }

    ghost predicate Valid()
      reads this, slots
    {
      && Fits(slots.Length, head, span)
      && Represents(Logical())
      && live == Live(Logical())
    }

    /** The chunks in flight, by packet number. */
    ghost function Entries(): map<nat, Chunk>
      requires Fits(slots.Length, head, span)
      reads this`slots, this`head, this`span, slots
    {
      View(Logical())
    }

    /** The slot at logical index `i`. */
    function At(i: nat): (x: Slot<Chunk>)
      requires Fits(slots.Length, head, span) && i < span
      reads this, slots
      ensures x == Logical()[i]
    {
      slots[Phys(head, slots.Length, i)]
    }

    /** Overwrites the slot at logical index `i`. */
    method Put(i: nat, x: Slot<Chunk>)
      requires Fits(slots.Length, head, span) && i < span
      modifies slots
      ensures Fits(slots.Length, head, span) && Logical() == old(Logical())[i := x]
    {
      Write(slots[..], head, span, i, x);
      slots[Phys(head, slots.Length, i)] := x;
      assert slots[..] == old(slots[..])[Phys(head, slots.Length, i) := x];
    }

    /** Takes the slot just past the end in. */
    method PushBack(x: Slot<Chunk>)
      requires Fits(slots.Length, head, span) && span < slots.Length
      modifies this`span, slots
      ensures Fits(slots.Length, head, span) && span == old(span) + 1 && Logical() == old(Logical()) + [x]
    {
      Ring.Extend(slots[..], head, span, x);
      slots[Phys(head, slots.Length, span)] := x;
      assert slots[..] == old(slots[..])[Phys(head, slots.Length, span) := x];
      span := span + 1;
    }

    /** One step of the sweep: slot `r`, if live, moves down to `w`. */
    method SweepOne(w: nat, r: nat, ghost was: seq<Slot<Chunk>>) returns (next: nat)
      requires Fits(slots.Length, head, span) && r < span && Swept(Logical(), was, w, r)
      modifies slots
      ensures Fits(slots.Length, head, span) && Swept(Logical(), was, next, r + 1)
    {
      ghost var now := Logical();
      SweepNext(now, was, w, r);
      var e := At(r);
      next := w;
      if !e.dead {
        if w != r {
          Put(w, e);
        }
        next := w + 1;
      }
    }

    /** The live slots, in order, at the front of the ring. */
    method Sweep() returns (w: nat)
      requires Fits(slots.Length, head, span)
      modifies slots
      ensures w <= span && Unrolled(slots[..], head, w) == Compacted(old(Logical()))
    {
      ghost var was := Logical();
      w := 0;
      for r := 0 to span
        invariant Fits(slots.Length, head, span) && Swept(Logical(), was, w, r)
      {
        w := SweepOne(w, r, was);
      }
      SweptAll(Logical(), was, w, span);
      Shorten(slots[..], head, span, w);
    }

    /** Sweeps the tombstones out; the map stays. */
    method Compact()
      requires Shaped() && (span == live ==> Valid())
      modifies this`head, this`span, slots
      ensures Valid() && Entries() == old(Entries()) && span == live
    {
      if span == live {
        return;
      }
      if live == 0 {
        LiveIsSize(Logical());
        head, span := 0, 0;
        return;
      }
      ghost var s := Logical();
      var w := Sweep();
      span := w;
      SweptWell(s, Logical());
    }

    /** Copies slot `r`, if live, to the end of what was copied so far. */
    method CopyOne(target: array<Slot<Chunk>>, w: nat, r: nat, ghost was: seq<Slot<Chunk>>) returns (next: nat)
      requires Fits(slots.Length, head, span) && w <= r < span <= target.Length && target != slots && Logical() == was
      requires target[..w] == Compacted(was[..r])
      modifies target
      ensures next <= r + 1 && Logical() == was && target[..next] == Compacted(was[..r + 1])
    {
      var e := At(r);
      assert Init(was[..r + 1]) == was[..r];
      next := w;
      if !e.dead {
        target[w] := e;
        next := w + 1;
        assert target[..next] == target[..w] + [e];
      }
    }

    /** Copies the live slots, in order, to the start of another array. */
    method CopyLive(target: array<Slot<Chunk>>) returns (w: nat, ghost c: seq<Slot<Chunk>>)
      requires Shaped() && span <= target.Length && target != slots
      modifies target
      ensures w <= target.Length && target[..w] == c
      ensures Represents(c) && View(c) == View(Logical()) && Live(c) == w == live
    {
      ghost var was := Logical();
      w := 0;
      for r := 0 to span
        invariant w <= r && Logical() == was && target[..w] == Compacted(was[..r])
      {
        w := CopyOne(target, w, r, was);
      }
      assert was[..span] == was;
      c := Compacted(was);
      SweptWell(was, c);
    }

    /** The live slots laid out from the start of a larger ring. */
    method Relocate(length: nat)
      requires Valid() && slots.Length < length
      modifies this`slots, this`head, this`span, this`live
      ensures Valid() && Entries() == old(Entries()) && fresh(slots) && slots.Length == length
      ensures span == live == old(live)
    {
      var bigger := new Slot<Chunk>[length](_ => EMPTY_SLOT);
      var w, c := CopyLive(bigger);
      Adopt(bigger, w, c);
    }

    /** Takes over a storage that holds `w` live chunks from its start. */
    method Adopt(storage: array<Slot<Chunk>>, w: nat, ghost c: seq<Slot<Chunk>>)
      requires w <= storage.Length && storage[..w] == c && Represents(c) && Live(c) == w
      modifies this`slots, this`head, this`span, this`live
      ensures Valid() && Entries() == View(c) && slots == storage && span == live == w
    {
      FromStart(storage[..], w);
      assert storage[..][..w] == storage[..w];
      slots, head, span, live := storage, 0, w, w;
      assert Logical() == c;
    }

    /** Room for `extra` more chunks, by sweeping when that is enough and by a larger ring when it is not. */
    method EnsureUnused(extra: nat, memory: bool) returns (ok: bool)
      requires Valid()
      modifies this`slots, this`head, this`span, this`live, slots
      ensures Valid() && Entries() == old(Entries()) && live == old(live) && (slots == old(slots) || fresh(slots))
      ensures ok <==> extra == 0 || memory || old(live) + extra <= old(slots.Length)
      ensures ok ==> span + extra <= slots.Length
      ensures old(live) + extra <= old(slots.Length) ==> slots == old(slots)
      ensures slots != old(slots) ==> PowerOfTwo(slots.Length)
      ensures slots != old(slots) ==> slots.Length == 8 || 8 < slots.Length < 2 * (old(live) + extra)
    {
      if extra == 0 {
        return true;
      }
      if live + extra > slots.Length {
        if memory {
          Enlarge(live + extra);
        }
        return memory;
      }
      if slots.Length - span < extra {
        LiveIsSize(Logical());
        Compact();
      }
      ok := true;
    }

    /** A ring of the next power of two, at least eight, that holds `needed`. */
    method Enlarge(needed: nat)
      requires Valid() && slots.Length < needed
      modifies this`slots, this`head, this`span, this`live
      ensures Valid() && Entries() == old(Entries()) && fresh(slots) && span == live == old(live)
      ensures needed <= slots.Length && PowerOfTwo(slots.Length)
      ensures slots.Length == 8 || 8 < slots.Length < 2 * needed
    {
      var target := NextPower(needed);
      Relocate(target);
    }

    /** The index of a number strictly between the ends. */
    method SearchInside(pn: nat) returns (found: bool, i: nat)
      requires Shaped() && span > 0 && Logical()[0].key < pn < Logical()[span - 1].key
      ensures found ==> i < span && Logical()[i].key == pn
      ensures !found ==> forall j :: 0 <= j < span ==> Logical()[j].key != pn
    {
      ghost var s := Logical();
      var lo, hi := 1, span - 1;
      while lo < hi
        invariant 1 <= lo <= hi < span
        invariant forall j :: 0 <= j < lo ==> s[j].key < pn
        invariant forall j :: hi <= j < span ==> pn < s[j].key
      {
        var mid := lo + (hi - lo) / 2;
        var e := At(mid);
        if e.key < pn {
          lo := mid + 1;
        } else if e.key > pn {
          hi := mid;
        } else {
          return true, mid;
        }
      }
      found, i := false, 0;
    }

    /** The index of a live entry: first against both ends, then between them. */
    method Search(pn: nat) returns (found: bool, i: nat)
      requires Shaped() && span > 0
      ensures found ==> i < span && Logical()[i].key == pn && !Logical()[i].dead
      ensures !found ==> forall j :: 0 <= j < span && Logical()[j].key == pn ==> Logical()[j].dead
    {
      ghost var s := Logical();
      var first, last := At(0), At(span - 1);
      if pn <= first.key {
        return pn == first.key && !first.dead, 0;
      }
      if pn >= last.key {
        return pn == last.key && !last.dead, span - 1;
      }
      found, i := SearchInside(pn);
      if found {
        found := !At(i).dead;
      }
    }

    /** The logical index of a live entry, by binary search between the two ends. */
    method Find(pn: nat) returns (found: bool, i: nat)
      requires Valid()
      ensures found <==> pn in Entries()
      ensures found ==> i < span && Logical()[i].key == pn && !Logical()[i].dead && Entries()[pn] == Logical()[i].value
    {
      ghost var s := Logical();
      if live == 0 {
        LiveIsSize(s);
        return false, 0;
      }
      found, i := Search(pn);
      assert Logical() == s;
      if found {
        ViewAt(s, i);
      } else {
        NotFound(s, pn);
      }
    }

    /** The first logical index whose number is at least `pn`. */
    method LowerBound(pn: nat) returns (lo: nat)
      requires Shaped()
      ensures lo <= span
      ensures forall j :: 0 <= j < lo ==> Logical()[j].key < pn
      ensures forall j :: lo <= j < span ==> pn <= Logical()[j].key
    {
      ghost var s := Logical();
      lo := 0;
      var hi := span;
      while lo < hi
        invariant lo <= hi <= span
        invariant forall j :: 0 <= j < lo ==> s[j].key < pn
        invariant forall j :: hi <= j < span ==> pn <= s[j].key
      {
        var mid := lo + (hi - lo) / 2;
        if At(mid).key < pn {
          lo := mid + 1;
        } else {
          hi := mid;
        }
      }
    }

    /** Moves the slots from `at` on up by one, into the slot just past the end. */
    method ShiftUp(at: nat, ghost was: seq<Slot<Chunk>>)
      requires Fits(slots.Length, head, span) && at < span && Logical() == was
      modifies slots
      ensures Fits(slots.Length, head, span) && Logical() == Shifted(was, at)
    {
      var idx := span - 1;
      NotShifted(was, idx);
      while idx > at
        invariant at <= idx < span && Fits(slots.Length, head, span) && Logical() == Shifted(was, idx)
      {
        ShiftSlot(idx, was);
        idx := idx - 1;
      }
      assert idx == at;
    }

    /** Copies one slot to the place after it. */
    method ShiftSlot(idx: nat, ghost was: seq<Slot<Chunk>>)
      requires Fits(slots.Length, head, span) && 0 < idx < span == |was| && Logical() == Shifted(was, idx)
      modifies slots
      ensures Fits(slots.Length, head, span) && Logical() == Shifted(was, idx - 1)
    {
      ShiftOne(was, idx);
      Put(idx, At(idx - 1));
    }

    /** Opens a place at logical index `at` and puts `x` there. */
    method InsertAt(at: nat, x: Slot<Chunk>)
      requires Fits(slots.Length, head, span) && at <= span < slots.Length
      modifies this`span, slots
      ensures Fits(slots.Length, head, span)
      ensures Logical() == Inserted(old(Logical()), at, x)
    {
      ghost var was := Logical();
      PushBack(x);
      ShiftUp(at, was + [x]);
      Put(at, x);
      ShiftedInserts(was, at, x);
    }

    /** Writes `x` at its lower bound: over its number's tombstone, or in between. */
    method WriteAt(lo: nat, x: Slot<Chunk>, ghost t: seq<Slot<Chunk>>)
      requires Fits(slots.Length, head, span) && lo < span < slots.Length && t == Placed(Logical(), lo, x)
      modifies this`span, slots
      ensures Fits(slots.Length, head, span) && Logical() == t
    {
      if At(lo).key == x.key {
        Put(lo, x);
      } else {
        InsertAt(lo, x);
      }
    }

    /** Where a number below the highest goes. */
    method FindPlace(x: Slot<Chunk>) returns (lo: nat, ghost t: seq<Slot<Chunk>>)
      requires Valid() && x.key !in Entries() && !x.dead && 0 < span && x.key <= At(span - 1).key
      ensures lo < span && t == Placed(Logical(), lo, x)
      ensures Represents(t) && Live(t) == live + 1 && View(t) == Entries()[x.key := x.value]
    {
      ghost var s := Logical();
      ghost var last := s[span - 1];
      lo := LowerBound(x.key);
      assert Logical() == s && last == s[span - 1];
      PlacedWell(s, lo, x);
      t := Placed(s, lo, x);
    }

    method Recount(n: nat, ghost t: seq<Slot<Chunk>>)
      requires Fits(slots.Length, head, span) && Logical() == t && Represents(t) && Live(t) == n
      modifies this`live
      ensures Valid() && Logical() == t && Entries() == View(t) && live == n
    {
      live := n;
      assert Logical() == t;
    }

    /** Writes a chunk below the highest slot. */
    method PutBelow(x: Slot<Chunk>)
      requires Valid() && x.key !in Entries() && !x.dead && 0 < span < slots.Length && x.key <= At(span - 1).key
      modifies this`span, this`live, slots
      ensures Valid() && Entries() == old(Entries())[x.key := x.value]
    {
      var lo, t := FindPlace(x);
      WriteAt(lo, x, t);
      Recount(live + 1, t);
    }

    /** Writes a chunk above every slot. */
    method PutAbove(x: Slot<Chunk>)
      requires Valid() && !x.dead && span < slots.Length && (span > 0 ==> At(span - 1).key < x.key)
      modifies this`span, this`live, slots
      ensures Valid() && Entries() == old(Entries())[x.key := x.value]
    {
      ghost var s := Logical();
      PutLast(s, x);
      PushBack(x);
      live := live + 1;
      assert Logical() == s + [x];
    }

    /** Puts a chunk in flight under a number that is not. */
    method PutNoClobber(pn: nat, c: Chunk)
      requires Valid() && pn !in Entries() && live < slots.Length
      modifies this`head, this`span, this`live, slots
      ensures Valid() && Entries() == old(Entries())[pn := c]
    {
      if slots.Length - span == 0 {
        LiveIsSize(Logical());
        Compact();
      }
      if span == 0 || pn > At(span - 1).key {
        PutAbove(Slot(pn, c, false));
      } else {
        PutBelow(Slot(pn, c, false));
      }
    }

    /** Moves the head past one slot. */
    method PopFront()
      requires Fits(slots.Length, head, span) && span > 0
      modifies this`head, this`span
      ensures Fits(slots.Length, head, span) && span == old(span) - 1 && Logical() == old(Logical())[1..]
    {
      Advance(slots[..], head, span);
      head, span := if head + 1 < slots.Length then head + 1 else 0, span - 1;
    }

    /** Drops the tombstones at the front. */
    method TrimHead()
      requires Fits(slots.Length, head, span) && Sorted(Logical()) && Live(Logical()) > 0
      requires !Logical()[span - 1].dead
      modifies this`head, this`span
      ensures Fits(slots.Length, head, span) && Represents(Logical())
      ensures View(Logical()) == old(View(Logical())) && Live(Logical()) == old(Live(Logical()))
    {
      while span > 0 && At(0).dead
        invariant Fits(slots.Length, head, span) && Sorted(Logical())
        invariant View(Logical()) == old(View(Logical())) && Live(Logical()) == old(Live(Logical()))
        invariant span > 0 && !Logical()[span - 1].dead
        decreases span
      {
        DropDead(Logical());
        OneLive(Logical());
        PopFront();
      }
    }

    /** Drops the tombstones at the back. */
    method TrimTail()
      requires Fits(slots.Length, head, span) && Sorted(Logical()) && Live(Logical()) > 0
      requires !Logical()[0].dead
      modifies this`span
      ensures Fits(slots.Length, head, span) && Represents(Logical())
      ensures View(Logical()) == old(View(Logical())) && Live(Logical()) == old(Live(Logical()))
    {
      ghost var was := Logical();
      while span > 0 && At(span - 1).dead
        invariant Fits(slots.Length, head, span) && span > 0 && Trimmed(Logical(), was)
        decreases span
      {
        DropLast(was);
      }
      TrimmedWell(Logical(), was);
    }

    method DropLast(ghost was: seq<Slot<Chunk>>)
      requires Fits(slots.Length, head, span) && span > 0 && Trimmed(Logical(), was) && Logical()[span - 1].dead
      modifies this`span
      ensures Fits(slots.Length, head, span) && 0 < span < old(span) && Trimmed(Logical(), was)
    {
      TrimOne(Logical(), was);
      Shorten(slots[..], head, span, span - 1);
      span := span - 1;
    }

    /** Marks the slot at `i` dead. */
    method Kill(i: nat) returns (ghost t: seq<Slot<Chunk>>)
      requires Valid() && i < span && !Logical()[i].dead
      modifies slots
      ensures Fits(slots.Length, head, span) && Logical() == t && Unsettled(t, i)
      ensures live == Live(t) + 1 && View(t) == old(Entries()) - {old(Logical())[i].key}
    {
      ghost var s := Logical();
      var e := At(i).(dead := true);
      t := KillWell(s, i);
      Put(i, e);
    }

    /** Restores the ends after the slot at `i` died. */
    method Settle(i: nat, ghost t: seq<Slot<Chunk>>)
      requires Fits(slots.Length, head, span) && Logical() == t && Unsettled(t, i) && live == Live(t)
      modifies this`head, this`span, slots
      ensures Valid() && Entries() == View(t)
    {
      LiveIsSize(t);
      if live == 0 {
        head, span := 0, 0;
      } else if i == 0 {
        OneLive(t);
        TrimHead();
      } else if i == span - 1 {
        TrimTail();
      } else if span >= 64 && span - live >= span / 2 {
        Compact();
      }
    }

    method KillAt(i: nat)
      requires Valid() && i < span && !Logical()[i].dead
      modifies this`head, this`span, this`live, slots
      ensures Valid() && Entries() == old(Entries()) - {old(Logical())[i].key}
    {
      ghost var t := Kill(i);
      live := live - 1;
      Settle(i, t);
    }

    /** Takes a chunk out of flight. */
    method FetchRemove(pn: nat) returns (r: Option<Chunk>)
      requires Valid()
      modifies this`head, this`span, this`live, slots
      ensures Valid()
      ensures r == if pn in old(Entries()) then Some(old(Entries())[pn]) else None
      ensures Entries() == old(Entries()) - {pn}
    {
      ghost var was := Entries();
      var found, i := Find(pn);
      if !found {
        Absent(was, pn);
        return None;
      }
      r := Some(At(i).value);
      KillAt(i);
    }

    /** Marks a chunk in flight as queued again by a probe. */
    method MarkRequeued(pn: nat)
      requires Valid() && pn in Entries()
      modifies slots
      ensures Valid() && Entries() == old(Entries())[pn := old(Entries())[pn].(requeued := true)]
    {
      var found, i := Find(pn);
      ghost var s := Logical();
      var e := At(i);
      var x := e.(value := e.value.(requeued := true));
      Overwrite(s, i, x);
      Put(i, x);
      assert Logical() == s[i := x];
    }
  }

  /** How far a sweep is: the live slots before `r` are below `w`, those from `r` on are where they were. */
  ghost predicate Swept(now: seq<Slot<Chunk>>, was: seq<Slot<Chunk>>, w: nat, r: nat) {
    w <= r <= |now| == |was| && now[..w] == Compacted(was[..r]) && now[r..] == was[r..]
  }

  lemma SweepNext(now: seq<Slot<Chunk>>, was: seq<Slot<Chunk>>, w: nat, r: nat)
    requires r < |now| && Swept(now, was, w, r)
    ensures now[r].dead ==> Swept(now, was, w, r + 1)
    ensures !now[r].dead ==> Swept(now[w := now[r]], was, w + 1, r + 1) && (w == r ==> now[w := now[r]] == now)
  {
    assert now[r] == now[r..][0] && was[r] == was[r..][0];
    assert now[r + 1..] == now[r..][1..] && was[r + 1..] == was[r..][1..];
    assert Init(was[..r + 1]) == was[..r];
    assert now[w := now[r]][..w + 1] == now[..w] + [now[r]];
    assert now[w := now[r]][r + 1..] == now[r + 1..];
  }

  lemma SweptAll(now: seq<Slot<Chunk>>, was: seq<Slot<Chunk>>, w: nat, n: nat)
    requires Swept(now, was, w, n) && n == |was|
    ensures now[..w] == Compacted(was)
  {
    assert was[..|was|] == was;
  }

  /** Taking an absent key out changes nothing. */
  lemma Absent<V>(m: map<nat, V>, k: nat)
    requires k !in m
    ensures m - {k} == m
  {
  }

  lemma KillWell(s: seq<Slot<Chunk>>, i: nat) returns (t: seq<Slot<Chunk>>)
    requires Represents(s) && i < |s| && !s[i].dead
    ensures t == s[i := s[i].(dead := true)] && Unsettled(t, i)
    ensures Live(s) == Live(t) + 1 && View(t) == View(s) - {s[i].key}
  {
    t := s[i := s[i].(dead := true)];
    Overwrite(s, i, s[i].(dead := true));
  }

  /** The slots of the same map with tombstones taken off the back. */
  ghost predicate Trimmed(t: seq<Slot<Chunk>>, was: seq<Slot<Chunk>>) {
    Sorted(t) && View(t) == View(was) && Live(t) == Live(was) > 0 && t != [] && !t[0].dead
  }

  /** A dead last slot can go. */
  lemma TrimOne(t: seq<Slot<Chunk>>, was: seq<Slot<Chunk>>)
    requires Trimmed(t, was) && t[|t| - 1].dead
    ensures Trimmed(t[..|t| - 1], was)
  {
  }

  lemma TrimmedWell(t: seq<Slot<Chunk>>, was: seq<Slot<Chunk>>)
    requires Trimmed(t, was) && !t[|t| - 1].dead
    ensures Represents(t) && View(t) == View(was) && Live(t) == Live(was)
  {
  }

  /** Sorted slots whose only dead end may be `i`. */
  ghost predicate Unsettled(t: seq<Slot<Chunk>>, i: nat) {
    && Sorted(t) && i < |t| && t[i].dead
    && (i > 0 ==> !t[0].dead)
    && (i < |t| - 1 ==> !t[|t| - 1].dead)
  }

  /** A dead lone slot would leave nothing live. */
  lemma OneLive(s: seq<Slot<Chunk>>)
    requires Live(s) > 0 && s != [] && s[0].dead
    ensures |s| > 1
  {
  }

  lemma NotFound(s: seq<Slot<Chunk>>, pn: nat)
    requires forall j :: 0 <= j < |s| && s[j].key == pn ==> s[j].dead
    ensures pn !in View(s)
  {
    if pn in View(s) {
      var j := SlotOf(s, pn);
    }
  }
}
