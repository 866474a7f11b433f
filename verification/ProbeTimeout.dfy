/** The probe timeout of section 6.2 of RFC 9002, and the steady-state churn of the sent-packet tracker. */
module ProbeTimeout {
  import opened Wrappers
  import opened Tombstones
  import opened SentPacketTracker
  import opened LossRecovery

  /** 64-bit addition that stops at the top. */
  function SatAdd(a: nat, b: nat): nat { if a + b > MAX_U64 then MAX_U64 else a + b }

  function Pow2(n: nat): nat { if n == 0 then 1 else 2 * Pow2(n - 1) }

  /** The timeout after `count` probes: the base doubled each time, at most sixteen times, never wrapping. */
  function PtoDuration(base: nat, count: nat): nat {
    var shift := if count < 16 then count else 16;
    Pow2Positive(shift);
    if base > MAX_U64 / Pow2(shift) then MAX_U64 else base * Pow2(shift)
  }

  lemma {:induction false} Pow2Positive(n: nat)
    ensures Pow2(n) >= 1
  {
    if n > 0 {
      Pow2Positive(n - 1);
    }
  }

  /** The overflow guard of a shift is exact. */
  lemma ShiftGuard(base: nat, p: nat)
    requires p >= 1
    ensures base > MAX_U64 / p <==> base * p > MAX_U64
  {
    var q, r := MAX_U64 / p, MAX_U64 % p;
    assert MAX_U64 == p * q + r;
    if base > q {
      assert base * p >= (q + 1) * p;
    } else {
      assert base * p <= q * p;
    }
  }

  /** The guarded shift is the capped product: it never wraps. */
  lemma PtoDurationExact(base: nat, count: nat)
    ensures var full := base * Pow2(if count < 16 then count else 16);
      PtoDuration(base, count) == if full > MAX_U64 then MAX_U64 else full
  {
    var shift := if count < 16 then count else 16;
    Pow2Positive(shift);
    ShiftGuard(base, Pow2(shift));
  }

  /** One more probe never shortens the timeout, and doubles it until the cap or the sixteenth doubling. */
  lemma PtoDurationBacksOff(base: nat, count: nat)
    ensures PtoDuration(base, count) <= PtoDuration(base, count + 1)
    ensures count < 16 && PtoDuration(base, count + 1) < MAX_U64 ==>
      PtoDuration(base, count + 1) == 2 * PtoDuration(base, count)
    ensures count >= 16 ==> PtoDuration(base, count + 1) == PtoDuration(base, count)
  {
    PtoDurationExact(base, count);
    PtoDurationExact(base, count + 1);
    if count < 16 {
      var p := Pow2(count);
      assert base * (2 * p) == 2 * (base * p);
    }
  }

  /** The timeout has passed since the packet went out; a clock at its top counts as past every timeout. */
  ghost predicate Due(p: Packet, now: nat, pto: nat) {
    p.ackEliciting && (p.sentTime + pto <= now || MAX_U64 <= now)
  }

  lemma SatAddDue(a: nat, b: nat, now: nat)
    ensures SatAdd(a, b) <= now <==> a + b <= now || MAX_U64 <= now
  {
  }

  /** Send times do not fall as packet numbers rise. */
  ghost predicate SentInOrder(m: map<nat, Packet>) {
    forall j, k :: j in m && k in m && j <= k ==> m[j].sentTime <= m[k].sentTime
  }

  /** The oldest tracked ack-eliciting packet. */
  ghost predicate OldestEliciting(m: map<nat, Packet>, pn: nat) {
    && pn in m && m[pn].ackEliciting
    && forall k :: k in m && m[k].ackEliciting ==> pn <= k
  }

  ghost predicate OldestDue(m: map<nat, Packet>, now: nat, pto: nat) {
    exists k :: OldestEliciting(m, k) && Due(m[k], now, pto)
  }

  lemma OnlyOldest(m: map<nat, Packet>, o: nat, now: nat, pto: nat)
    requires OldestEliciting(m, o)
    ensures OldestDue(m, now, pto) <==> Due(m[o], now, pto)
  {
    forall k | OldestEliciting(m, k) ensures k == o {}
  }

  lemma FirstEliciting(s: seq<Slot<Packet>>, i: nat)
    requires Sorted(s) && i < |s| && !s[i].dead && s[i].value.ackEliciting
    requires forall j :: 0 <= j < i ==> s[j].dead || !s[j].value.ackEliciting
    ensures OldestEliciting(View(s), s[i].key) && View(s)[s[i].key] == s[i].value
  {
    ViewAt(s, i);
    forall k | k in View(s) && View(s)[k].ackEliciting
      ensures s[i].key <= k
    {
      var j := SlotOf(s, k);
      ViewAt(s, j);
    }
  }

  lemma NoEliciting(s: seq<Slot<Packet>>)
    requires Sorted(s) && forall j :: 0 <= j < |s| ==> s[j].dead || !s[j].value.ackEliciting
    ensures forall k :: k in View(s) ==> !View(s)[k].ackEliciting
  {
    forall k | k in View(s)
      ensures !View(s)[k].ackEliciting
    {
      var j := SlotOf(s, k);
      ViewAt(s, j);
    }
  }

  /** The first live ack-eliciting slot; `count` stands for none. */
  method FindOldest(t: Tracker) returns (i: nat)
    requires t.Valid()
    ensures i <= t.count
    ensures i < t.count ==> !t.packets[i].dead && OldestEliciting(t.Tracked(), t.packets[i].key)
    ensures i < t.count ==> t.Tracked()[t.packets[i].key] == t.packets[i].value
    ensures i == t.count ==> forall k :: k in t.Tracked() ==> !t.Tracked()[k].ackEliciting
  {
    i := 0;
    while i < t.count && (t.packets[i].dead || !t.packets[i].value.ackEliciting)
      invariant i <= t.count
      invariant forall j :: 0 <= j < i ==> t.packets[j].dead || !t.packets[j].value.ackEliciting
    {
      i := i + 1;
    }
    if i < t.count {
      FirstEliciting(t.Slots(), i);
    } else {
      NoEliciting(t.Slots());
    }
  }

  /**
   Fires one probe: the oldest ack-eliciting packet leaves when its timeout has passed, and nothing else ever does.
   */
  method FirePtoIfDue(t: Tracker, now: nat, pto: nat, ptoCount: nat)
    returns (fired: Option<Slot<Packet>>, newCount: nat)
    requires t.Valid()
    modifies t`deadCount, t`bytesInFlight, t`ackElicitingInFlight, t.packets
    ensures t.Valid()
    ensures fired.Some? <==> OldestDue(old(t.Tracked()), now, pto)
    ensures now < MAX_U64 ==> (fired.Some? <==>
      exists k :: OldestEliciting(old(t.Tracked()), k) && old(t.Tracked())[k].sentTime + pto <= now)
    ensures fired.Some? ==>
      && OldestEliciting(old(t.Tracked()), fired.value.key)
      && fired.value == Slot(fired.value.key, old(t.Tracked())[fired.value.key], false)
      && t.Tracked() == old(t.Tracked()) - {fired.value.key}
      && newCount == if ptoCount < MAX_U32 then ptoCount + 1 else ptoCount
    ensures fired == None ==> t.Tracked() == old(t.Tracked()) && newCount == ptoCount
  {
    fired, newCount := None, ptoCount;
    var i := FindOldest(t);
    if i < t.count {
      var slot := t.packets[i];
      OnlyOldest(t.Tracked(), slot.key, now, pto);
      SatAddDue(slot.value.sentTime, pto, now);
      if now >= SatAdd(slot.value.sentTime, pto) {
        newCount := if ptoCount < MAX_U32 then ptoCount + 1 else ptoCount;
        var p := t.RemoveAt(i);
        fired := Some(Slot(slot.key, p, false));
      }
    } else {
      assert !OldestDue(t.Tracked(), now, pto);
    }
  }

  /** With send times in order, looking at the oldest ack-eliciting packet is as good as looking at every packet. */
  lemma OldestDecides(m: map<nat, Packet>, now: nat, pto: nat)
    requires SentInOrder(m)
    ensures OldestDue(m, now, pto) <==> exists k :: k in m && Due(m[k], now, pto)
  {
    if k :| k in m && Due(m[k], now, pto) {
      OldestExists(m, k);
      var o :| OldestEliciting(m, o);
      assert m[o].sentTime <= m[k].sentTime;
    }
  }

  lemma {:induction false} OldestExists(m: map<nat, Packet>, k: nat)
    requires k in m && m[k].ackEliciting
    ensures exists o :: OldestEliciting(m, o)
    decreases k
  {
    if !OldestEliciting(m, k) {
      var j :| j in m && m[j].ackEliciting && j < k;
      OldestExists(m, j);
    }
  }

  /** The packets of the churn benchmark. */
  function ChurnPacket(pn: nat): Packet { Packet(pn, 1200, true, true) }

  /** The tracked packets are exactly the churn packets numbered `oldest` to `next`. */
  ghost predicate Window(m: map<nat, Packet>, oldest: nat, next: nat) {
    && (forall k: nat :: k in m <==> oldest <= k < next)
    && (forall k :: k in m ==> m[k] == ChurnPacket(k))
  }

  /** The window's packets are all in flight. */
  lemma {:induction false} WindowWeight(m: map<nat, Packet>, oldest: nat, next: nat)
    requires oldest <= next && Window(m, oldest, next)
    ensures |m| == next - oldest
    ensures MapWeight(m, InFlightBytes) == 1200 * (next - oldest)
    decreases next - oldest
  {
    if oldest < next {
      assert next - 1 in m;
      var rest := m - {next - 1};
      WindowWeight(rest, oldest, next - 1);
      MapWeightStep(m, next - 1, InFlightBytes);
      assert m == rest[next - 1 := m[next - 1]];
    } else {
      assert m == map[];
    }
  }

  /** The oldest of the window, found by binary search, leaves. */
  method ChurnRemove(t: Tracker, oldest: nat, ghost next: nat) returns (p: Packet)
    requires t.Valid() && t.Below(next) && oldest < next && Window(t.Tracked(), oldest, next)
    modifies t`deadCount, t`bytesInFlight, t`ackElicitingInFlight, t.packets
    ensures t.Valid() && t.Below(next) && Window(t.Tracked(), oldest + 1, next)
    ensures p == ChurnPacket(oldest)
  {
    assert oldest in t.Tracked();
    var idx := t.LowerBound(oldest);
    ghost var s := t.Slots();
    ghost var i := SlotOf(s, oldest);
    ghost var found, wanted := s[idx].key, s[i].key;
    assert idx < i ==> found < wanted;
    assert idx == i;
    p := t.RemoveAt(idx);
  }

  /** Room is left by the packet that just went, so recording its successor cannot fail, nor needs memory. */
  method ChurnRecord(t: Tracker, ghost oldest: nat, next: nat)
    requires t.Valid() && t.Below(next) && oldest <= next && Window(t.Tracked(), oldest, next)
    requires next - oldest < t.Capacity() && next - oldest < t.packets.Length
    modifies t, t.packets
    ensures t.Valid() && t.Below(next + 1) && Window(t.Tracked(), oldest, next + 1)
    ensures t.packets == old(t.packets) || (fresh(t.packets) && t.packets.Length > old(t.packets.Length))
    ensures t.maxCapacity == old(t.maxCapacity)
  {
    WindowWeight(t.Tracked(), oldest, next);
    var r := t.Record(next, ChurnPacket(next), false);
  }

  /**
   Any number of rounds of "the oldest leaves, a new one is recorded" keeps the tracked set exactly the window: the
   storage that once held it always finds room by sweeping.
   */
  method Churn(t: Tracker, oldest0: nat, next0: nat, iterations: nat) returns (oldest: nat, next: nat)
    requires t.Valid() && t.Below(next0) && oldest0 < next0 && Window(t.Tracked(), oldest0, next0)
    modifies t, t.packets
    ensures t.Valid() && oldest == oldest0 + iterations && next == next0 + iterations
    ensures Window(t.Tracked(), oldest, next)
    ensures t.LiveCount() == next0 - oldest0 && t.bytesInFlight == 1200 * (next0 - oldest0)
  {
    oldest, next := oldest0, next0;
    t.CountersOfMap();
    WindowWeight(t.Tracked(), oldest, next);
    for i := 0 to iterations
      invariant t.Valid() && t.Below(next) && (t.packets == old(t.packets) || fresh(t.packets))
      invariant next0 - oldest0 <= t.packets.Length && (t.maxCapacity > 0 ==> next0 - oldest0 <= t.maxCapacity)
      invariant oldest == oldest0 + i && next == next0 + i && Window(t.Tracked(), oldest, next)
    {
      var p := ChurnRemove(t, oldest, next);
      oldest := oldest + 1;
      ChurnRecord(t, oldest, next);
      next := next + 1;
    }
    t.CountersOfMap();
    WindowWeight(t.Tracked(), oldest, next);
  }
}
