/** ACK processing, threshold loss detection and the probe timeout over the sent-packet tracker. */
module LossRecovery {
  import opened Wrappers
  import opened Tombstones
  import opened SentPacketTracker
  import opened AckRange
  import Varint

  const MAX_U64: nat := 0xFFFF_FFFF_FFFF_FFFF
  const MAX_U32: nat := 0xFFFF_FFFF
  const PACKET_THRESHOLD: nat := 3
  const GRANULARITY_US: nat := 1_000

  datatype AckProcessing = AckProcessing(
    count: nat, bytesAcked: nat, inFlightBytesAcked: nat,
    largestNewlyAcked: bool, largestSendTime: nat, largestAckEliciting: bool, anyAckEliciting: bool)

  datatype LossResult = LossResult(count: nat, bytesLost: nat, inFlightBytesLost: nat, largestLostSendTime: nat)

  function Bytes(p: Packet): nat { p.bytes }

  const NothingAcked := AckProcessing(0, 0, 0, false, 0, false, false)
  const NothingLost := LossResult(0, 0, 0, 0)

  function CollectAcked(r: AckProcessing, pn: nat, p: Packet, largest: nat): AckProcessing {
    AckProcessing(r.count + 1, r.bytesAcked + p.bytes, r.inFlightBytesAcked + InFlightBytes(p),
                  r.largestNewlyAcked || pn == largest,
                  if pn == largest then p.sentTime else r.largestSendTime,
                  if pn == largest then p.ackEliciting else r.largestAckEliciting,
                  r.anyAckEliciting || p.ackEliciting)
  }

  function CollectLost(r: LossResult, p: Packet): LossResult {
    LossResult(r.count + 1, r.bytesLost + p.bytes, r.inFlightBytesLost + InFlightBytes(p),
               if p.sentTime > r.largestLostSendTime then p.sentTime else r.largestLostSendTime)
  }

  /** `r` describes exactly the packets that are in `was` and no longer in `now`. */
  ghost predicate AckAccounts(r: AckProcessing, was: map<nat, Packet>, now: map<nat, Packet>, largest: nat) {
    && now.Keys <= was.Keys
    && (forall k :: k in now ==> now[k] == was[k])
    && r.count + |now| == |was|
    && r.bytesAcked + MapWeight(now, Bytes) == MapWeight(was, Bytes)
    && r.inFlightBytesAcked + MapWeight(now, InFlightBytes) == MapWeight(was, InFlightBytes)
    && (r.largestNewlyAcked <==> largest in was && largest !in now)
    && (r.largestNewlyAcked ==> r.largestSendTime == was[largest].sentTime)
    && (r.largestAckEliciting <==> r.largestNewlyAcked && was[largest].ackEliciting)
    && (r.anyAckEliciting <==> exists k :: k in was && k !in now && was[k].ackEliciting)
  }

  /** The callback run over the packets a removal hands over. */
  function FoldAcked(r: AckProcessing, removed: seq<Slot<Packet>>, largest: nat): AckProcessing {
    if removed == [] then r
    else
      var n := |removed| - 1;
      CollectAcked(FoldAcked(r, removed[..n], largest), removed[n].key, removed[n].value, largest)
  }

  lemma {:induction false} FoldAckedConcat(r: AckProcessing, a: seq<Slot<Packet>>, b: seq<Slot<Packet>>, largest: nat)
    ensures FoldAcked(r, a + b, largest) == FoldAcked(FoldAcked(r, a, largest), b, largest)
  {
    if b == [] {
      assert a + b == a;
    } else {
      assert (a + b)[..|a + b| - 1] == a + b[..|b| - 1];
      FoldAckedConcat(r, a, b[..|b| - 1], largest);
    }
  }

  lemma AckStep(r: AckProcessing, was: map<nat, Packet>, now: map<nat, Packet>, k: nat, largest: nat)
    requires AckAccounts(r, was, now, largest) && k in now
    ensures AckAccounts(CollectAcked(r, k, now[k], largest), was, now - {k}, largest)
  {
    MapWeightRemove(now, k, Bytes);
    MapWeightRemove(now, k, InFlightBytes);
    assert k in was && was[k] == now[k];
  }

  /** Folding over the packets handed over describes exactly what left the map. */
  lemma {:induction false} FoldAckedAccounts(was: map<nat, Packet>, removed: seq<Slot<Packet>>, largest: nat)
    requires Handed(was, removed)
    ensures AckAccounts(FoldAcked(NothingAcked, removed, largest), was, After(was, removed), largest)
  {
    if removed != [] {
      var init, last := Init(removed), Last(removed);
      FoldAckedAccounts(was, init, largest);
      AckStep(FoldAcked(NothingAcked, init, largest), was, After(was, init), last.key, largest);
    }
  }

  ghost predicate LossAccounts(r: LossResult, was: map<nat, Packet>, now: map<nat, Packet>) {
    && now.Keys <= was.Keys
    && (forall k :: k in now ==> now[k] == was[k])
    && r.count + |now| == |was|
    && r.bytesLost + MapWeight(now, Bytes) == MapWeight(was, Bytes)
    && r.inFlightBytesLost + MapWeight(now, InFlightBytes) == MapWeight(was, InFlightBytes)
    && LatestLost(r.largestLostSendTime, was, now)
  }

  /** `latest` is the send time of the last packet to leave. */
  ghost predicate LatestLost(latest: nat, was: map<nat, Packet>, now: map<nat, Packet>) {
    && (forall k :: k in was && k !in now ==> was[k].sentTime <= latest)
    && (latest > 0 ==> exists k :: k in was && k !in now && was[k].sentTime == latest)
  }

  function FoldLost(r: LossResult, removed: seq<Slot<Packet>>): LossResult {
    if removed == [] then r
    else
      var n := |removed| - 1;
      CollectLost(FoldLost(r, removed[..n]), removed[n].value)
  }

  lemma {:induction false} FoldLostConcat(r: LossResult, a: seq<Slot<Packet>>, b: seq<Slot<Packet>>)
    ensures FoldLost(r, a + b) == FoldLost(FoldLost(r, a), b)
  {
    if b == [] {
      assert a + b == a;
    } else {
      assert (a + b)[..|a + b| - 1] == a + b[..|b| - 1];
      FoldLostConcat(r, a, b[..|b| - 1]);
    }
  }

  lemma LossStep(r: LossResult, was: map<nat, Packet>, now: map<nat, Packet>, k: nat)
    requires LossAccounts(r, was, now) && k in now
    ensures LossAccounts(CollectLost(r, now[k]), was, now - {k})
  {
    MapWeightRemove(now, k, Bytes);
    MapWeightRemove(now, k, InFlightBytes);
    assert k in was && was[k] == now[k];
  }

  lemma {:induction false} FoldLostAccounts(was: map<nat, Packet>, removed: seq<Slot<Packet>>)
    requires Handed(was, removed)
    ensures LossAccounts(FoldLost(NothingLost, removed), was, After(was, removed))
  {
    if removed != [] {
      var init, last := Init(removed), Last(removed);
      FoldLostAccounts(was, init);
      LossStep(FoldLost(NothingLost, init), was, After(was, init), last.key);
    }
  }

  /** The part of a map no interval covers. */
  ghost function Uncovered(m: map<nat, Packet>, list: seq<Interval>): map<nat, Packet> {
    map k | k in m && !Covers(list, k) :: m[k]
  }

  ghost predicate Covers(list: seq<Interval>, pn: nat) {
    exists i :: 0 <= i < |list| && list[i].smallest <= pn <= list[i].largest
  }

  /** The slots `start` to `end` are the ones whose number satisfies `cut`. */
  ghost predicate Selects(s: seq<Slot<Packet>>, start: nat, end: nat, cut: Interval) {
    && start <= end <= |s|
    && forall i :: 0 <= i < |s| ==> (start <= i < end <==> cut.smallest <= s[i].key <= cut.largest)
  }

  /** Killing the slots of an interval takes exactly its numbers out of the map. */
  lemma KilledView(was: seq<Slot<Packet>>, now: seq<Slot<Packet>>, start: nat, end: nat, cut: Interval, k: nat)
    requires Sorted(was) && Sorted(now) && Killed(was, now, start, end) && Selects(was, start, end, cut)
    ensures k in View(now) <==> k in View(was) && !(cut.smallest <= k <= cut.largest)
    ensures k in View(now) ==> View(now)[k] == View(was)[k]
  {
    if k in View(was) {
      var i := SlotOf(was, k);
      ViewAt(was, i);
      ViewAt(now, i);
    }
    if k in View(now) {
      var i := SlotOf(now, k);
      ViewAt(was, i);
    }
  }

  lemma UncoveredOneMore(original: map<nat, Packet>, was: seq<Slot<Packet>>, now: seq<Slot<Packet>>,
      start: nat, end: nat, done: seq<Interval>, cut: Interval)
    requires Sorted(was) && Sorted(now) && Killed(was, now, start, end) && Selects(was, start, end, cut)
    requires View(was) == Uncovered(original, done)
    ensures View(now) == Uncovered(original, done + [cut])
  {
    forall k: nat
      ensures k in View(now) <==> k in Uncovered(original, done + [cut])
      ensures k in View(now) ==> View(now)[k] == original[k]
    {
      KilledView(was, now, start, end, cut, k);
      CoversOneMore(done, cut, k);
    }
  }

  lemma CoversOneMore(done: seq<Interval>, cut: Interval, k: nat)
    ensures Covers(done + [cut], k) <==> Covers(done, k) || cut.smallest <= k <= cut.largest
  {
    if Covers(done, k) {
      var i :| 0 <= i < |done| && done[i].smallest <= k <= done[i].largest;
      assert (done + [cut])[i] == done[i];
    }
    if cut.smallest <= k <= cut.largest {
      assert (done + [cut])[|done|] == cut;
    }
  }

  /** The slots whose numbers an interval covers. */
  method FindSpan(t: Tracker, cut: Interval) returns (start: nat, end: nat)
    requires t.Valid() && cut.smallest <= cut.largest
    ensures Selects(t.Slots(), start, end, cut)
  {
    start := t.LowerBound(cut.smallest);
    end := start;
    while end < t.count && t.packets[end].key <= cut.largest
      invariant start <= end <= t.count
      invariant forall i :: start <= i < end ==> t.packets[i].key <= cut.largest
    {
      end := end + 1;
    }
    assert forall i, j :: 0 <= i < j < t.count ==> t.Slots()[i].key < t.Slots()[j].key;
  }

  /** After the intervals `done`: what is left of the map, what was handed over, and the callback's result. */
  ghost predicate AckedSoFar(original: map<nat, Packet>, now: map<nat, Packet>, done: seq<Interval>,
                             all: seq<Slot<Packet>>, r: AckProcessing, largest: nat) {
    && now == Uncovered(original, done)
    && Handed(original, all) && now == After(original, all)
    && r == FoldAcked(NothingAcked, all, largest)
  }

  /** One interval of an ACK: exactly the tracked packets it covers leave. */
  method AckInterval(t: Tracker, cut: Interval, r0: AckProcessing, largest: nat,
                     ghost original: map<nat, Packet>, ghost done: seq<Interval>, ghost all0: seq<Slot<Packet>>)
    returns (r: AckProcessing, ghost all: seq<Slot<Packet>>)
    requires t.Valid() && cut.smallest <= cut.largest && AckedSoFar(original, t.Tracked(), done, all0, r0, largest)
    modifies t`deadCount, t`bytesInFlight, t`ackElicitingInFlight, t.packets
    ensures t.Valid() && AckedSoFar(original, t.Tracked(), done + [cut], all, r, largest)
  {
    ghost var was := t.Slots();
    var start, end := FindSpan(t, cut);
    var removed := t.RemoveRange(start, end);
    UncoveredOneMore(original, was, t.Slots(), start, end, done, cut);
    HandedConcat(original, all0, removed);
    FoldAckedConcat(NothingAcked, all0, removed, largest);
    all := all0 + removed;
    r := FoldAcked(r0, removed, largest);
  }

  /** The walk of an ACK frame over the tracker; `all` are the packets handed over, in order. */
  method WalkAck(t: Tracker, ack: Ack)
    returns (r: AckProcessing, error: Option<Varint.Error>, ghost all: seq<Slot<Packet>>)
    requires t.Valid()
    modifies t`deadCount, t`bytesInFlight, t`ackElicitingInFlight, t.packets
    ensures t.Valid() && error == Intervals(ack).error
    ensures AckedSoFar(old(t.Tracked()), t.Tracked(), Intervals(ack).intervals, all, r, ack.largestAcked)
  {
    ghost var original := t.Tracked();
    IntervalsDescend(ack);
    var walk := WalkFrame(ack);
    r, error, all := NothingAcked, walk.error, [];
    assert Uncovered(original, []) == original;
    for i := 0 to |walk.intervals|
      invariant t.Valid()
      invariant AckedSoFar(original, t.Tracked(), walk.intervals[..i], all, r, ack.largestAcked)
    {
      r, all := AckInterval(t, walk.intervals[i], r, ack.largestAcked, original, walk.intervals[..i], all);
      assert walk.intervals[..i] + [walk.intervals[i]] == walk.intervals[..i + 1];
    }
    assert walk.intervals[..|walk.intervals|] == walk.intervals;
  }

  /** The largest number the peer ever acknowledged. */
  function LargestAcked(was: Option<nat>, ack: nat): Option<nat> {
    if was == None || ack > was.value then Some(ack) else was
  }

  /** What is on record after frames with these largest numbers, in the order they came in. */
  function Recorded(acks: seq<nat>): Option<nat> {
    if acks == [] then None else LargestAcked(Recorded(acks[..|acks| - 1]), acks[|acks| - 1])
  }

  /** Whatever the order of the frames, the number on record is the greatest: a late frame moves nothing back. */
  lemma {:induction false} RecordedIsGreatest(acks: seq<nat>)
    ensures Recorded(acks).Some? <==> acks != []
    ensures acks != [] ==> Recorded(acks).value in acks
    ensures forall i :: 0 <= i < |acks| ==> acks[i] <= Recorded(acks).value
  {
    if acks != [] {
      var n := |acks| - 1;
      RecordedIsGreatest(acks[..n]);
      if n > 0 {
        assert acks[0] == acks[..n][0];
      }
      assert forall i :: 0 <= i < n ==> acks[i] == acks[..n][i];
    }
  }

  /**
   Processes an ACK frame: exactly the tracked packets its intervals cover leave; a malformed frame stops the walk.
   */
  method ProcessAck(t: Tracker, largestAckedSent: Option<nat>, ack: Ack)
    returns (r: AckProcessing, largestAcked: Option<nat>, error: Option<Varint.Error>)
    requires t.Valid()
    modifies t`deadCount, t`bytesInFlight, t`ackElicitingInFlight, t.packets
    ensures t.Valid() && error == Intervals(ack).error
    ensures t.Tracked() == Uncovered(old(t.Tracked()), Intervals(ack).intervals)
    ensures AckAccounts(r, old(t.Tracked()), t.Tracked(), ack.largestAcked)
    ensures largestAcked.Some? && ack.largestAcked <= largestAcked.value
    ensures largestAcked == largestAckedSent || largestAcked.value == ack.largestAcked
    ensures largestAckedSent.Some? ==> largestAckedSent.value <= largestAcked.value
  {
    largestAcked := LargestAcked(largestAckedSent, ack.largestAcked);
    ghost var original, all := t.Tracked(), [];
    r, error, all := WalkAck(t, ack);
    FoldAckedAccounts(original, all, ack.largestAcked);
  }

  /** A packet the RFC 9002 thresholds declare lost. */
  predicate IsLost(pn: nat, p: Packet, largestAcked: nat, cutoff: nat)
    requires pn <= largestAcked
  {
    largestAcked - pn >= PACKET_THRESHOLD || p.sentTime < cutoff
  }

  predicate LostSlot(x: Slot<Packet>, largestAcked: nat, cutoff: nat) {
    x.key <= largestAcked && IsLost(x.key, x.value, largestAcked, cutoff)
  }

  /** The part of a map that is not lost. */
  ghost function Surviving(m: map<nat, Packet>, largestAcked: nat, cutoff: nat): map<nat, Packet> {
    map k | k in m && !(k <= largestAcked && IsLost(k, m[k], largestAcked, cutoff)) :: m[k]
  }

  /** A slot keeps what it had, unless it was lost and is now dead. */
  ghost predicate Swept(was: seq<Slot<Packet>>, now: seq<Slot<Packet>>, upTo: nat, largestAcked: nat, cutoff: nat) {
    && |now| == |was|
    && (forall i :: 0 <= i < |was| ==> now[i].key == was[i].key)
    && (forall i :: 0 <= i < |was| ==> now[i] == was[i] || (now[i].dead && LostSlot(was[i], largestAcked, cutoff)))
    && (forall i :: 0 <= i < upTo && i < |was| ==> now[i].dead || !LostSlot(now[i], largestAcked, cutoff))
  }

  lemma SweptView(was: seq<Slot<Packet>>, now: seq<Slot<Packet>>, largestAcked: nat, cutoff: nat)
    requires Sorted(was) && Sorted(now) && Swept(was, now, |was|, largestAcked, cutoff)
    ensures View(now) == Surviving(View(was), largestAcked, cutoff)
  {
    forall k: nat
      ensures k in View(now) <==> k in Surviving(View(was), largestAcked, cutoff)
      ensures k in View(now) ==> View(now)[k] == View(was)[k]
    {
      if k in View(was) {
        var i := SlotOf(was, k);
        ViewAt(was, i);
        ViewAt(now, i);
      }
      if k in View(now) {
        var i := SlotOf(now, k);
        ViewAt(was, i);
        ViewAt(now, i);
      }
    }
  }

  /** The slots from `start` on that are all past a threshold. */
  method LostRun(t: Tracker, start: nat, largestAcked: nat, cutoff: nat) returns (end: nat)
    requires t.Valid() && start < t.count && LostSlot(t.packets[start], largestAcked, cutoff)
    ensures start < end <= t.count
    ensures forall j :: start <= j < end ==> LostSlot(t.packets[j], largestAcked, cutoff)
  {
    end := start + 1;
    while end < t.count && t.packets[end].key <= largestAcked
      && IsLost(t.packets[end].key, t.packets[end].value, largestAcked, cutoff)
      invariant start < end <= t.count
      invariant forall j :: start <= j < end ==> LostSlot(t.packets[j], largestAcked, cutoff)
    {
      end := end + 1;
    }
  }

  lemma SweptMore(was: seq<Slot<Packet>>, mid: seq<Slot<Packet>>, now: seq<Slot<Packet>>, start: nat, end: nat,
                  largestAcked: nat, cutoff: nat)
    requires Swept(was, mid, start, largestAcked, cutoff) && Killed(mid, now, start, end) && end <= |was|
    requires forall j :: start <= j < end ==> LostSlot(mid[j], largestAcked, cutoff)
    ensures Swept(was, now, start, largestAcked, cutoff)
  {
  }

  /** Handing packets over shrinks the map by as many. */
  lemma {:induction false} AfterSize(was: map<nat, Packet>, removed: seq<Slot<Packet>>)
    requires Handed(was, removed)
    ensures |After(was, removed)| + |removed| == |was|
  {
    if removed != [] {
      AfterSize(was, Init(removed));
      var m, k := After(was, Init(removed)), Last(removed).key;
      assert m == (m - {k})[k := m[k]];
    }
  }

  /** After the slots below `upTo`: what was handed over, and the callback's result. */
  ghost predicate LostSoFar(original: seq<Slot<Packet>>, now: seq<Slot<Packet>>, upTo: nat,
      largestAcked: nat, cutoff: nat, all: seq<Slot<Packet>>, r: LossResult)
  {
    && Swept(original, now, upTo, largestAcked, cutoff)
    && Handed(View(original), all) && View(now) == After(View(original), all)
    && r == FoldLost(NothingLost, all)
    && Rising(all, now, upTo)
  }

  /** The packets handed over rise, below every slot from `upTo` on that is still live. */
  ghost predicate Rising(all: seq<Slot<Packet>>, now: seq<Slot<Packet>>, upTo: nat) {
    && Sorted(all)
    && (all != [] ==> forall j :: upTo <= j < |now| && !now[j].dead ==> Last(all).key < now[j].key)
  }

  /** A run of slots that leaves keeps the order, and one packet at least is in it. */
  lemma RisingMore(all: seq<Slot<Packet>>, mid: seq<Slot<Packet>>, now: seq<Slot<Packet>>, start: nat, end: nat,
      removed: seq<Slot<Packet>>)
    requires Sorted(mid) && Rising(all, mid, start) && Killed(mid, now, start, end)
    requires start < end <= |mid| && !mid[start].dead && removed == Compacted(mid[start..end])
    ensures removed != [] && Rising(all + removed, now, start)
  {
    CompactedFirst(mid[start..end]);
    CompactedSorted(mid[start..end]);
    assert Last(mid[start..end]) == mid[end - 1] && Last(all + removed) == Last(removed);
  }

  /** One run of lost slots leaves; the sweep resumes where the run began. */
  method LoseRun(t: Tracker, start: nat, largestAcked: nat, cutoff: nat, r0: LossResult,
                 ghost original: seq<Slot<Packet>>, ghost all0: seq<Slot<Packet>>)
    returns (r: LossResult, ghost all: seq<Slot<Packet>>)
    requires t.Valid() && start < t.count && !t.packets[start].dead && LostSlot(t.packets[start], largestAcked, cutoff)
    requires LostSoFar(original, t.Slots(), start, largestAcked, cutoff, all0, r0)
    modifies t`deadCount, t`bytesInFlight, t`ackElicitingInFlight, t.packets
    ensures t.Valid() && LostSoFar(original, t.Slots(), start, largestAcked, cutoff, all, r)
    ensures |all0| < |all| <= |View(original)|
  {
    ghost var mid := t.Slots();
    var end := LostRun(t, start, largestAcked, cutoff);
    var removed := t.RemoveRange(start, end);
    SweptMore(original, mid, t.Slots(), start, end, largestAcked, cutoff);
    RisingMore(all0, mid, t.Slots(), start, end, removed);
    HandedConcat(View(original), all0, removed);
    FoldLostConcat(NothingLost, all0, removed);
    all := all0 + removed;
    AfterSize(View(original), all);
    r := FoldLost(r0, removed);
  }

  lemma SweptPast(s: seq<Slot<Packet>>, original: seq<Slot<Packet>>, i: nat, largestAcked: nat, cutoff: nat,
                  all: seq<Slot<Packet>>, r: LossResult)
    requires Sorted(s) && i < |s| && LostSoFar(original, s, i, largestAcked, cutoff, all, r)
    ensures s[i].dead || !LostSlot(s[i], largestAcked, cutoff) ==>
      LostSoFar(original, s, i + 1, largestAcked, cutoff, all, r)
    ensures s[i].key > largestAcked ==> LostSoFar(original, s, |s|, largestAcked, cutoff, all, r)
  {
  }

  /** The sweep of the slots up to the largest acknowledged number. */
  method SweepLost(t: Tracker, largestAcked: nat, cutoff: nat) returns (r: LossResult, ghost all: seq<Slot<Packet>>)
    requires t.Valid()
    modifies t`deadCount, t`bytesInFlight, t`ackElicitingInFlight, t.packets
    ensures t.Valid() && LostSoFar(old(t.Slots()), t.Slots(), t.count, largestAcked, cutoff, all, r)
  {
    ghost var original := t.Slots();
    r, all := NothingLost, [];
    var i := 0;
    while i < t.count
      invariant i <= t.count && t.Valid()
      invariant LostSoFar(original, t.Slots(), i, largestAcked, cutoff, all, r)
      decreases |View(original)| - |all|, t.count - i
    {
      SweptPast(t.Slots(), original, i, largestAcked, cutoff, all, r);
      if t.packets[i].dead {
        i := i + 1;
        continue;
      }
      if t.packets[i].key > largestAcked {
        break;
      }
      if !IsLost(t.packets[i].key, t.packets[i].value, largestAcked, cutoff) {
        i := i + 1;
        continue;
      }
      r, all := LoseRun(t, i, largestAcked, cutoff, r, original, all);
    }
  }

  /** The time threshold of section 6.1.2 of RFC 9002. */
  function TimeThreshold(latestRtt: nat, smoothedRtt: nat): nat {
    var scaled := (if latestRtt > smoothedRtt then latestRtt else smoothedRtt) * 9 / 8;
    if scaled > GRANULARITY_US then scaled else GRANULARITY_US
  }

  /** Nine eighths of the longer RTT, rounded down, and a millisecond at least. */
  lemma TimeThresholdIs(latestRtt: nat, smoothedRtt: nat)
    ensures var t := TimeThreshold(latestRtt, smoothedRtt);
      && t >= 1000 && 8 * t + 8 > 9 * latestRtt && 8 * t + 8 > 9 * smoothedRtt
      && (t == 1000 || 8 * t <= 9 * latestRtt || 8 * t <= 9 * smoothedRtt)
  {
  }

  /** At or below the largest acknowledged, and past the packet or the time threshold. */
  ghost predicate PastThreshold(pn: nat, p: Packet, largestAcked: nat, threshold: nat, now: nat) {
    pn <= largestAcked && (pn + 3 <= largestAcked || p.sentTime + threshold < now)
  }

  /** `lost` left the map one by one, lowest first, and they are exactly the packets past a threshold. */
  ghost predicate LostInOrder(was: map<nat, Packet>, lost: seq<Slot<Packet>>, largestAcked: nat, threshold: nat,
      now: nat)
  {
    && Sorted(lost) && Handed(was, lost)
    && forall k :: k in was ==> (k !in After(was, lost) <==> PastThreshold(k, was[k], largestAcked, threshold, now))
  }

  /**
   Declares lost exactly the packets at or below the largest acknowledged that a threshold has passed, lowest first.
   */
  method DetectLosses(t: Tracker, largestAcked: Option<nat>, latestRtt: nat, smoothedRtt: nat, now: nat)
    returns (r: LossResult, ghost lost: seq<Slot<Packet>>)
    requires t.Valid()
    modifies t`deadCount, t`bytesInFlight, t`ackElicitingInFlight, t.packets
    ensures t.Valid() && LossAccounts(r, old(t.Tracked()), t.Tracked())
    ensures t.Tracked() == After(old(t.Tracked()), lost)
    ensures if largestAcked == None then lost == []
            else LostInOrder(old(t.Tracked()), lost, largestAcked.value, TimeThreshold(latestRtt, smoothedRtt), now)
  {
    ghost var original, was := t.Slots(), t.Tracked();
    lost := [];
    r := NothingLost;
    FoldLostAccounts(was, lost);
    if largestAcked == None {
      return;
    }
    var threshold := TimeThreshold(latestRtt, smoothedRtt);
    var cutoff := if now > threshold then now - threshold else 0;
    r, lost := SweepLost(t, largestAcked.value, cutoff);
    SweptView(original, t.Slots(), largestAcked.value, cutoff);
    FoldLostAccounts(was, lost);
  }

  lemma {:induction false} AfterKeys(was: map<nat, Packet>, removed: seq<Slot<Packet>>, k: nat)
    ensures k in After(was, removed) <==> k in was && forall j :: 0 <= j < |removed| ==> removed[j].key != k
  {
    if removed != [] {
      AfterKeys(was, Init(removed), k);
    }
  }

  lemma {:induction false} HandedFrom(was: map<nat, Packet>, removed: seq<Slot<Packet>>, i: nat)
    requires Handed(was, removed) && i < |removed|
    ensures removed[i].key in was
    decreases |removed|
  {
    if i == |removed| - 1 {
      AfterKeys(was, Init(removed), removed[i].key);
    } else {
      HandedFrom(was, Init(removed), i);
    }
  }

  /** Packets leave with their clocks in order, as they are recorded. */
  ghost predicate SentInOrder(m: map<nat, Packet>) {
    forall j, k :: j in m && k in m && j < k ==> m[j].sentTime <= m[k].sentTime
  }

  /** With send times in order, no packet tracked is lower than the one just declared lost. */
  lemma LossesAreLowest(was: map<nat, Packet>, lost: seq<Slot<Packet>>, largestAcked: nat, threshold: nat, now: nat,
      i: nat, k: nat)
    requires SentInOrder(was) && LostInOrder(was, lost, largestAcked, threshold, now)
    requires i < |lost| && k in After(was, lost[..i])
    ensures lost[i].key in was && lost[i].key <= k
  {
    HandedFrom(was, lost, i);
    AfterKeys(was, lost[..i], k);
    AfterKeys(was, lost, k);
    AfterKeys(was, lost, lost[i].key);
    forall j | 0 <= j < i
      ensures lost[j].key != k
    {
      assert lost[..i][j] == lost[j];
    }
  }
}
