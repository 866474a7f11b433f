/** One acknowledgement end to end: received numbers, frame bytes, and the sender's tracker. */
module AckExchange {
  import opened Wrappers
  import opened Varint
  import opened AckRange
  import opened RangeList
  import Receiver = AckTracker
  import Sent = SentPacketTracker
  import Recovery = LossRecovery

  lemma {:induction false} CoversIsMembership(list: seq<Interval>, k: nat)
    ensures Recovery.Covers(list, k) <==> k in Receiver.Numbers(list)
  {
    if list != [] {
      var ranges := Receiver.AsRanges(list);
      assert ranges[1..] == Receiver.AsRanges(list[1..]);
      CoversIsMembership(list[1..], k);
      if Recovery.Covers(list, k) {
        var i :| 0 <= i < |list| && list[i].smallest <= k <= list[i].largest;
        assert i > 0 ==> list[1..][i - 1] == list[i];
      }
      if Recovery.Covers(list[1..], k) {
        var i :| 0 <= i < |list[1..]| && list[1..][i].smallest <= k <= list[1..][i].largest;
        assert list[i + 1] == list[1..][i];
      }
    }
  }

  /** The numbers of the `n` highest intervals are among those of all. */
  lemma HighestNumbers(s: seq<Interval>, n: nat)
    requires n <= |s|
    ensures Receiver.Numbers(Receiver.Down(s, n)) <= Receiver.Numbers(s)
    ensures n == |s| ==> Receiver.Numbers(Receiver.Down(s, n)) == Receiver.Numbers(s)
  {
    Receiver.DownNumbers(s, n);
    var ranges, cut := Receiver.AsRanges(s), |s| - n;
    assert Receiver.AsRanges(s[cut..]) == ranges[cut..];
    assert ranges == ranges[..cut] + ranges[cut..];
    PointsConcat(ranges[..cut], ranges[cut..]);
    assert n == |s| ==> s[cut..] == s;
  }

  /** A frame never acknowledges a number its tracker does not hold. */
  lemma FrameIsSound(s: seq<Interval>, ack: Ack, k: nat)
    requires Receiver.FrameOf(s, ack)
    ensures Recovery.Covers(Intervals(ack).intervals, k) ==> k in Receiver.Numbers(s)
    ensures ack.rangeCount == |s| - 1 ==> (Recovery.Covers(Intervals(ack).intervals, k) <==> k in Receiver.Numbers(s))
  {
    CoversIsMembership(Intervals(ack).intervals, k);
    HighestNumbers(s, ack.rangeCount + 1);
  }

  lemma AllSound(s: seq<Interval>, ack: Ack)
    requires Receiver.FrameOf(s, ack)
    ensures forall k: nat :: Recovery.Covers(Intervals(ack).intervals, k) ==> k in Receiver.Numbers(s)
    ensures ack.rangeCount == |s| - 1 ==>
      forall k: nat :: Recovery.Covers(Intervals(ack).intervals, k) <==> k in Receiver.Numbers(s)
  {
    forall k: nat
      ensures Recovery.Covers(Intervals(ack).intervals, k) ==> k in Receiver.Numbers(s)
      ensures ack.rangeCount == |s| - 1 ==> (Recovery.Covers(Intervals(ack).intervals, k) <==> k in Receiver.Numbers(s))
    {
      FrameIsSound(s, ack, k);
    }
  }

  ghost predicate AllFit(pns: seq<nat>) {
    forall i :: 0 <= i < |pns| ==> pns[i] <= MAX_VALUE
  }

  ghost function Elements(pns: seq<nat>): set<nat> {
    set i | 0 <= i < |pns| :: pns[i]
  }

  lemma ElementsNext(pns: seq<nat>, i: nat)
    requires i < |pns|
    ensures Elements(pns[..i + 1]) == Elements(pns[..i]) + {pns[i]}
  {
    var s, t := pns[..i + 1], pns[..i];
    forall x
      ensures x in Elements(s) <==> x in Elements(t) || x == pns[i]
    {
      assert s[i] == pns[i] && forall k :: 0 <= k < i ==> s[k] == t[k];
    }
  }

  function Ranges(memory: bool): nat { if memory then Receiver.MAX_RANGES else Receiver.INLINE_RANGES }

  /** After each arrival up to the `n`th, the numbers so far fit in `cap` ranges. */
  ghost predicate AlwaysHoldable(pns: seq<nat>, n: nat, cap: nat)
    requires n <= |pns|
  {
    forall i :: 0 <= i <= n ==> Receiver.Holdable(Elements(pns[..i]), cap)
  }

  /** No number arrives twice. */
  ghost predicate Distinct(pns: seq<nat>) {
    forall i, j :: 0 <= i < j < |pns| ==> pns[i] != pns[j]
  }

  /** What is held is what arrived, if every arrival could be held; and only then, when no number comes twice. */
  ghost predicate HeldSoFar(held: set<nat>, pns: seq<nat>, n: nat, cap: nat)
    requires n <= |pns|
  {
    && held <= Elements(pns[..n])
    && (AlwaysHoldable(pns, n, cap) ==> held == Elements(pns[..n]))
    && (Distinct(pns) && held == Elements(pns[..n]) ==> AlwaysHoldable(pns, n, cap))
  }

  lemma HeldFirst(pns: seq<nat>, cap: nat)
    ensures HeldSoFar({}, pns, 0, cap)
  {
    Receiver.HeldBy([], cap);
    assert Elements(pns[..0]) == {} == Receiver.Numbers([]);
  }

  lemma HeldNext(was: set<nat>, now: set<nat>, pns: seq<nat>, n: nat, cap: nat)
    requires n < |pns| && HeldSoFar(was, pns, n, cap) && now <= was + {pns[n]}
    requires now == was + {pns[n]} <==> Receiver.Holdable(was + {pns[n]}, cap)
    ensures HeldSoFar(now, pns, n + 1, cap)
  {
    ElementsNext(pns, n);
    if Distinct(pns) {
      assert pns[n] !in Elements(pns[..n]);
    }
  }

  /** Records numbers in whatever order they arrive. */
  method RecordAll(pns: seq<nat>, memory: bool) returns (r: Receiver.Tracker)
    requires AllFit(pns)
    ensures fresh(r) && fresh(r.slots) && r.Valid() && r.Received() <= Elements(pns)
    ensures AlwaysHoldable(pns, |pns|, Ranges(memory)) ==> r.Received() == Elements(pns)
    ensures Distinct(pns) && r.Received() == Elements(pns) ==> AlwaysHoldable(pns, |pns|, Ranges(memory))
    ensures pns != [] ==> r.rangeCount > 0
  {
    r := new Receiver.Tracker();
    HeldFirst(pns, Ranges(memory));
    for i := 0 to |pns|
      invariant fresh(r) && fresh(r.slots) && r.Valid() && r.Capacity(memory) == Ranges(memory)
      invariant HeldSoFar(r.Received(), pns, i, Ranges(memory)) && (i > 0 ==> r.rangeCount > 0)
    {
      ghost var was := r.Received();
      RecordOne(r, pns[i], memory);
      HeldNext(was, r.Received(), pns, i, Ranges(memory));
    }
    assert pns[..|pns|] == pns;
  }

  /**
   Records one number: the capacity stays, and the number is held with all the others exactly if they fit together.
   */
  method RecordOne(r: Receiver.Tracker, pn: nat, memory: bool)
    requires r.Valid() && pn <= MAX_VALUE
    modifies r`rangeCount, r`slots, r`largest, r.slots
    ensures r.Valid() && r.Capacity(memory) == old(r.Capacity(memory)) && (r.slots == old(r.slots) || fresh(r.slots))
    ensures r.rangeCount > 0 && r.Received() <= old(r.Received()) + {pn}
    ensures (r.Received() == old(r.Received()) + {pn}
      <==> Receiver.Holdable(old(r.Received()) + {pn}, old(r.Capacity(memory))))
  {
    var inserted := r.Add(pn, memory);
  }

  /** Consecutive numbers: one range holds any number of them. */
  lemma InOrderHoldable(pns: seq<nat>, cap: nat)
    requires cap > 0 && forall i :: 0 <= i < |pns| ==> pns[i] == pns[0] + i
    ensures AlwaysHoldable(pns, |pns|, cap)
  {
    forall i | 0 <= i <= |pns|
      ensures Receiver.Holdable(Elements(pns[..i]), cap)
    {
      if i == 0 {
        Receiver.HeldBy([], cap);
        assert Elements(pns[..0]) == {};
      } else {
        OneRange(pns[..i], cap);
      }
    }
  }

  lemma OneRange(pns: seq<nat>, cap: nat)
    requires cap > 0 && pns != [] && forall i :: 0 <= i < |pns| ==> pns[i] == pns[0] + i
    ensures Receiver.Holdable(Elements(pns), cap)
  {
    var list := [Interval(pns[0], pns[0] + |pns| - 1)];
    Receiver.HeldBy(list, cap);
    var ranges := [Range(pns[0], pns[0] + |pns|)];
    assert Receiver.AsRanges(list) == ranges && Points(ranges[1..]) == {};
    forall x: nat
      ensures x in Elements(pns) <==> x in Receiver.Numbers(list)
    {
      assert pns[0] <= x < pns[0] + |pns| ==> pns[x - pns[0]] == x;
    }
  }

  /** A frame is well formed and covers nothing that did not arrive; all of it, if it was held and nothing left out. */
  ghost predicate Answers(ack: Ack, pns: seq<nat>, complete: bool) {
    && Intervals(ack).error == None
    && (forall k: nat :: Recovery.Covers(Intervals(ack).intervals, k) ==> k in Elements(pns))
    && (complete ==> forall k: nat :: k in Elements(pns) ==> Recovery.Covers(Intervals(ack).intervals, k))
  }

  /** The receiver's part. */
  method BuildAck(pns: seq<nat>, memory: bool, buffer: nat, maxBytes: nat, maxLower: nat)
    returns (ack: Ack, held: nat)
    requires pns != [] && AllFit(pns)
    ensures held > 0
    ensures Answers(ack, pns, AlwaysHoldable(pns, |pns|, Ranges(memory)) && ack.rangeCount == held - 1)
  {
    var r := RecordAll(pns, memory);
    held := r.rangeCount;
    var built := r.ToAckFrameLimitedRanges(buffer, maxBytes, maxLower);
    ack := built.value;
    AllSound(r.Ranges(), ack);
  }

  /**
   A receiver records numbers in any order, builds a bounded frame, and the sender processes its bytes: the frame is
   never malformed, a packet leaves the sender's tracker only if its number arrived, and when every arrival could be
   held and no range was left out of the frame, every arrived number leaves.
   */
  method Exchange(pns: seq<nat>, memory: bool, buffer: nat, maxBytes: nat, maxLower: nat, t: Sent.Tracker)
    returns (ack: Ack, held: nat, error: Option<Error>)
    requires pns != [] && AllFit(pns) && t.Valid()
    modifies t, t.packets
    ensures t.Valid() && error == None && held > 0
    ensures forall k :: k in old(t.Tracked()) && k !in t.Tracked() ==> k in Elements(pns)
    ensures AlwaysHoldable(pns, |pns|, Ranges(memory)) && ack.rangeCount == held - 1 ==>
      t.Tracked().Keys == old(t.Tracked()).Keys - Elements(pns)
    ensures t.Tracked() == Recovery.Uncovered(old(t.Tracked()), Intervals(ack).intervals)
  {
    ack, held := BuildAck(pns, memory, buffer, maxBytes, maxLower);
    var processing, largest;
    processing, largest, error := Recovery.ProcessAck(t, None, ack);
  }
}
