/**
 The send half of a stream as a state machine over sets of byte offsets: what was written, what is acknowledged, what
 waits to be sent and what is in flight, under writes, sends, acknowledgements, losses and probes in any order.
 */
module SendHalf {
  import opened Wrappers
  import opened Varint
  import opened RangeList
  import opened InFlightMap

  datatype State = Ready | Send | DataSent | DataRecvd | ResetSent | ResetRecvd

  datatype ResetInfo = ResetInfo(errorCode: nat, finalSize: nat, queued: bool, acked: bool)

  datatype Half = Half(
    written: seq<Byte>,
    acked: set<nat>,
    pending: set<nat>,
    flight: map<nat, Chunk>,
    finMarked: bool,
    finInFlight: bool,
    finAcked: bool,
    probePending: bool,
    reset: Option<ResetInfo>,
    state: State)

  const INITIAL: Half := Half([], {}, {}, map[], false, false, false, false, None, Ready)

  ghost function ChunkSpan(c: Chunk): set<nat> { Span(c.offset, c.offset + c.length) }

  /** `n` is the length of the longest fully acknowledged prefix. */
  ghost predicate IsFloor(acked: set<nat>, n: nat) {
    n !in acked && forall x: nat :: x < n ==> x in acked
  }

  /** Everything written and the FIN are acknowledged. */
  ghost predicate Delivered(h: Half) {
    h.finAcked && h.finMarked && IsFloor(h.acked, |h.written|)
  }

  // -- steps --

  /** Room left for writes under the cap on unacknowledged bytes. */
  ghost function Headroom(h: Half, floor: nat, maxBuffered: nat): nat {
    if |h.written| < floor + maxBuffered then floor + maxBuffered - |h.written| else 0
  }

  ghost function Written(h: Half, data: seq<Byte>): Half {
    if data == [] then h
    else h.(written := h.written + data, pending := h.pending + Span(|h.written|, |h.written| + |data|),
            state := if h.state == Ready then Send else h.state)
  }

  /** A write takes as much as the cap allows, and only before FIN and reset. */
  ghost predicate WriteStep(h: Half, data: seq<Byte>, maxBuffered: nat, h': Half) {
    && !h.finMarked && h.reset == None
    && exists floor: nat ::
         IsFloor(h.acked, floor) && h' == Written(h, data[..Min(|data|, Headroom(h, floor, maxBuffered))])
  }

  ghost predicate FinishStep(h: Half, h': Half) {
    && h.reset == None
    && h' == if h.finMarked then h
             else h.(finMarked := true, state := if h.state == Send || h.state == Ready then DataSent else h.state)
  }

  ghost predicate ResetStep(h: Half, errorCode: nat, h': Half) {
    h' == if h.reset.Some? || h.state == DataRecvd then h
          else h.(reset := Some(ResetInfo(errorCode, |h.written|, false, false)), state := ResetSent,
                  pending := {}, probePending := false)
  }

  /** `[offset, end)` starts the lowest maximal run of a set. */
  ghost predicate IsFirstRun(s: set<nat>, offset: nat, end: nat) {
    offset < end && Span(offset, end) <= s && end !in s && forall x :: x in s ==> offset <= x
  }

  /** A FIN can go on the chunk that ends at `end`. */
  ghost predicate FinReady(h: Half, end: nat) {
    h.finMarked && !h.finInFlight && !h.finAcked && end == |h.written|
  }

  /** The chunk offered for the next packet: at most `max` bytes of the lowest pending run, or a lone FIN. */
  ghost predicate Offers(h: Half, max: nat, c: Chunk) {
    && h.reset == None && !c.requeued
    && if h.pending == {} then
         FinReady(h, |h.written|) && c == Chunk(|h.written|, 0, true, false)
       else
         exists end: nat :: IsFirstRun(h.pending, c.offset, end)
           && c.length == Min(max, end - c.offset) && c.fin == FinReady(h, c.offset + c.length)
  }

  /** The chunk can go out as packet `pn`. */
  ghost predicate Sendable(h: Half, pn: nat, c: Chunk) {
    && pn !in h.flight
    && TakesPrefix(h, c)
    && (c.length > 0 || c.fin)
    && (c.fin ==> FinReady(h, c.offset + c.length))
  }

  ghost predicate TakesPrefix(h: Half, c: Chunk) {
    c.length > 0 ==> ChunkSpan(c) <= h.pending && forall x :: x in h.pending ==> c.offset <= x
  }

  ghost function Unpended(h: Half, c: Chunk): Half {
    var rest := h.pending - ChunkSpan(c);
    h.(pending := rest, probePending := h.probePending && (c.length == 0 || rest != {}))
  }

  ghost function SendStep(h: Half, pn: nat, c: Chunk): Half {
    Unpended(h, c).(flight := h.flight[pn := c], finInFlight := h.finInFlight || c.fin)
  }

  /** The state after an acknowledgement. */
  ghost function Advanced(h: Half): Half {
    if h.state == ResetSent then
      if h.reset.Some? && h.reset.value.acked then h.(state := ResetRecvd) else h
    else if Delivered(h) then h.(state := DataRecvd)
    else h
  }

  /** An acknowledged chunk's bytes leave the queue only while a probe's copies may be in it. */
  ghost function MarkAcked(h: Half, c: Chunk): Half {
    var scrub := c.length > 0 && h.probePending && h.pending != {};
    var rest := if scrub then h.pending - ChunkSpan(c) else h.pending;
    h.(acked := h.acked + ChunkSpan(c), pending := rest, probePending := h.probePending && !(scrub && rest == {}))
  }

  ghost function AckStep(h: Half, pn: nat): Half
    requires pn in h.flight
  {
    var c := h.flight[pn];
    Advanced(MarkAcked(h.(flight := h.flight - {pn}, finAcked := h.finAcked || c.fin), c))
  }

  /** The unacknowledged part of a chunk is queued again; of what was queued only acknowledged bytes may go. */
  ghost predicate Requeues(h: Half, c: Chunk, pending': set<nat>) {
    && pending' - h.acked == (h.pending + ChunkSpan(c)) - h.acked
    && pending' * h.acked <= h.pending * h.acked
  }

  ghost predicate LossStep(h: Half, pn: nat, h': Half) {
    && pn in h.flight
    && var c := h.flight[pn];
      var gone := h.(flight := h.flight - {pn});
      if h.reset.Some? || c.requeued then h' == gone
      else
        && Requeues(h, c, h'.pending)
        && h' == gone.(pending := h'.pending, finInFlight := h.finInFlight && !(c.fin && !h.finAcked))
  }

  ghost predicate ProbeStep(h: Half, pn: nat, h': Half) {
    && pn in h.flight
    && var c := h.flight[pn];
      var marked := h.(flight := h.flight[pn := c.(requeued := true)]);
      if c.requeued then h' == h
      else if h.reset.Some? then h' == marked
      else
        && Requeues(h, c, h'.pending)
        && h' == marked.(pending := h'.pending,
                         probePending := h.probePending || (c.length > 0 && h'.pending != {}),
                         finInFlight := h.finInFlight && !(c.fin && !h.finAcked))
  }

  ghost predicate ResetAckStep(h: Half, h': Half) {
    h' == if h.reset == None then h
          else Advanced(h.(reset := Some(h.reset.value.(queued := true, acked := true))))
  }

  // -- every run --

  datatype Event =
    | EvWrite(data: seq<Byte>, maxBuffered: nat)
    | EvFinish
    | EvReset(errorCode: nat)
    | EvSend(pn: nat, chunk: Chunk)
    | EvAck(pn: nat)
    | EvLost(pn: nat)
    | EvProbe(pn: nat)
    | EvResetAcked

  ghost predicate Next(h: Half, e: Event, h': Half) {
    match e
    case EvWrite(data, maxBuffered) => WriteStep(h, data, maxBuffered, h')
    case EvFinish => FinishStep(h, h')
    case EvReset(code) => ResetStep(h, code, h')
    case EvSend(pn, c) => Sendable(h, pn, c) && !c.requeued && h' == SendStep(h, pn, c)
    case EvAck(pn) => pn in h.flight && h' == AckStep(h, pn)
    case EvLost(pn) => LossStep(h, pn, h')
    case EvProbe(pn) => ProbeStep(h, pn, h')
    case EvResetAcked => ResetAckStep(h, h')
  }

  /** `hs` are the states of a run of the events `es`, from a fresh stream. */
  ghost predicate Run(hs: seq<Half>, es: seq<Event>) {
    && |hs| == |es| + 1 && hs[0] == INITIAL
    && forall i :: 0 <= i < |es| ==> Next(hs[i], es[i], hs[i + 1])
  }

  /** Some live chunk that no probe has queued again carries offset `x`. */
  ghost predicate Carried(flight: map<nat, Chunk>, x: nat) {
    exists pn :: pn in flight && !flight[pn].requeued && flight[pn].offset <= x < flight[pn].offset + flight[pn].length
  }

  ghost predicate FinCarried(flight: map<nat, Chunk>) {
    exists pn :: pn in flight && !flight[pn].requeued && flight[pn].fin
  }

  ghost predicate Bounded(h: Half) {
    && (forall x :: x in h.acked ==> x < |h.written|)
    && (forall x :: x in h.pending ==> x < |h.written|)
    && (forall pn :: pn in h.flight ==> h.flight[pn].offset + h.flight[pn].length <= |h.written|)
  }

  /** No byte is forgotten: each is acknowledged, queued, or in a packet that is still answered for. */
  ghost predicate Covered(h: Half) {
    h.reset == None ==> forall x: nat :: x < |h.written| ==> x in h.acked || x in h.pending || Carried(h.flight, x)
  }

  /** Nor is the FIN. */
  ghost predicate FinTracked(h: Half) {
    && (h.finInFlight || h.finAcked ==> h.finMarked)
    && (forall pn :: pn in h.flight && h.flight[pn].fin ==>
          h.finMarked && h.flight[pn].offset + h.flight[pn].length == |h.written|)
    && (h.reset == None && h.finInFlight && !h.finAcked ==> FinCarried(h.flight))
  }

  ghost predicate StateAgrees(h: Half) {
    && (h.state == DataRecvd ==> Delivered(h))
    && (h.reset == None ==> h.state !in {ResetSent, ResetRecvd} && (Delivered(h) ==> h.state == DataRecvd))
    && (h.reset.Some? ==> h.state in {ResetSent, ResetRecvd, DataRecvd})
    && (h.state == ResetSent ==> h.reset.Some? && !h.reset.value.acked)
  }

  ghost predicate Inv(h: Half) {
    Bounded(h) && Covered(h) && FinTracked(h) && StateAgrees(h)
  }

  lemma CarriedBy(flight: map<nat, Chunk>, pn: nat, x: nat)
    requires pn in flight && !flight[pn].requeued && flight[pn].offset <= x < flight[pn].offset + flight[pn].length
    ensures Carried(flight, x)
  {
  }

  lemma FinCarriedBy(flight: map<nat, Chunk>, pn: nat)
    requires pn in flight && !flight[pn].requeued && flight[pn].fin
    ensures FinCarried(flight)
  {
  }

  lemma WriteKeeps(h: Half, data: seq<Byte>)
    requires Inv(h) && !h.finMarked && h.reset == None
    ensures Inv(Written(h, data))
  {
    var h' := Written(h, data);
    forall x: nat | x < |h'.written|
      ensures x in h'.acked || x in h'.pending || Carried(h'.flight, x)
    {
      assert x < |h.written| || x in Span(|h.written|, |h'.written|);
    }
  }

  lemma SendKeeps(h: Half, pn: nat, c: Chunk)
    requires Inv(h) && Sendable(h, pn, c) && !c.requeued
    ensures Inv(SendStep(h, pn, c))
  {
    var h' := SendStep(h, pn, c);
    assert c.length > 0 ==> c.offset + c.length - 1 in ChunkSpan(c);
    assert forall q :: q in h.flight ==> q in h'.flight && h'.flight[q] == h.flight[q];
    assert h'.flight[pn] == c;
    if h.reset == None {
      forall x: nat | x < |h.written|
        ensures x in h'.acked || x in h'.pending || Carried(h'.flight, x)
      {
        if x in h.pending && x !in h'.pending {
          CarriedBy(h'.flight, pn, x);
        } else if x !in h.pending && x !in h.acked {
          var q :| q in h.flight && !h.flight[q].requeued
            && h.flight[q].offset <= x < h.flight[q].offset + h.flight[q].length;
          CarriedBy(h'.flight, q, x);
        }
      }
      if h'.finInFlight && !h'.finAcked {
        var q :| q in h'.flight && !h'.flight[q].requeued && h'.flight[q].fin;
        FinCarriedBy(h'.flight, q);
      }
    }
  }

  /** What `now` carries contains what `was` carries, but for one packet. */
  lemma CarriedWithout(was: map<nat, Chunk>, pn: nat, x: nat)
    requires pn in was && Carried(was, x)
    requires !(was[pn].offset <= x < was[pn].offset + was[pn].length) || was[pn].requeued
    ensures Carried(was - {pn}, x)
  {
    var q :| q in was && !was[q].requeued && was[q].offset <= x < was[q].offset + was[q].length;
    CarriedBy(was - {pn}, q, x);
  }

  lemma FinCarriedWithout(was: map<nat, Chunk>, pn: nat)
    requires pn in was && FinCarried(was) && (!was[pn].fin || was[pn].requeued)
    ensures FinCarried(was - {pn})
  {
    var q :| q in was && !was[q].requeued && was[q].fin;
    FinCarriedBy(was - {pn}, q);
  }

  lemma AdvancedKeeps(h: Half)
    requires Bounded(h) && Covered(h) && FinTracked(h)
    requires h.state == DataRecvd ==> Delivered(h)
    requires h.reset == None ==> h.state !in {ResetSent, ResetRecvd}
    requires h.reset.Some? ==> h.state in {ResetSent, ResetRecvd, DataRecvd}
    ensures Inv(Advanced(h))
  {
  }

  lemma AckKeeps(h: Half, pn: nat)
    requires Inv(h) && pn in h.flight
    ensures Inv(AckStep(h, pn))
  {
    var c := h.flight[pn];
    var m := MarkAcked(h.(flight := h.flight - {pn}, finAcked := h.finAcked || c.fin), c);
    if h.reset == None {
      forall x: nat | x < |h.written|
        ensures x in m.acked || x in m.pending || Carried(m.flight, x)
      {
        if x !in ChunkSpan(c) && x !in h.acked && x !in h.pending {
          CarriedWithout(h.flight, pn, x);
        }
      }
      if m.finInFlight && !m.finAcked {
        FinCarriedWithout(h.flight, pn);
      }
    }
    assert Bounded(m) && Covered(m) && FinTracked(m);
    if h.state == DataRecvd {
      assert m.acked == h.acked;
    }
    AdvancedKeeps(m);
  }

  lemma LossKeeps(h: Half, pn: nat, h': Half)
    requires Inv(h) && LossStep(h, pn, h')
    ensures Inv(h')
  {
    var c := h.flight[pn];
    if h.reset == None {
      forall x: nat | x < |h.written|
        ensures x in h'.acked || x in h'.pending || Carried(h'.flight, x)
      {
        if x !in h.acked {
          assert x in (h.pending + ChunkSpan(c)) - h.acked ==> c.requeued || x in h'.pending - h.acked;
          if x !in h.pending && (c.requeued || x !in ChunkSpan(c)) {
            CarriedWithout(h.flight, pn, x);
          }
        }
      }
      if h'.finInFlight && !h'.finAcked {
        FinCarriedWithout(h.flight, pn);
      }
    }
    if h.reset == None && !c.requeued {
      RequeuedFrom(h, c, h'.pending);
    }
  }

  lemma RequeuedFrom(h: Half, c: Chunk, pending': set<nat>)
    requires Requeues(h, c, pending')
    ensures pending' <= h.pending + ChunkSpan(c)
  {
    forall x | x in pending'
      ensures x in h.pending + ChunkSpan(c)
    {
      if x in h.acked {
        assert x in pending' * h.acked;
      } else {
        assert x in pending' - h.acked;
      }
    }
  }

  lemma CarriedMarked(was: map<nat, Chunk>, pn: nat, x: nat)
    requires pn in was && Carried(was, x) && !(was[pn].offset <= x < was[pn].offset + was[pn].length)
    ensures Carried(was[pn := was[pn].(requeued := true)], x)
  {
    var q :| q in was && !was[q].requeued && was[q].offset <= x < was[q].offset + was[q].length;
    CarriedBy(was[pn := was[pn].(requeued := true)], q, x);
  }

  lemma ProbeKeeps(h: Half, pn: nat, h': Half)
    requires Inv(h) && ProbeStep(h, pn, h')
    ensures Inv(h')
  {
    var c := h.flight[pn];
    if !c.requeued && h.reset == None {
      forall x: nat | x < |h.written|
        ensures x in h'.acked || x in h'.pending || Carried(h'.flight, x)
      {
        if x !in h.acked {
          assert x in (h.pending + ChunkSpan(c)) - h.acked ==> x in h'.pending - h.acked;
          if x !in h.pending && x !in ChunkSpan(c) {
            CarriedMarked(h.flight, pn, x);
          }
        }
      }
      if h'.finInFlight && !h'.finAcked {
        var q :| q in h.flight && !h.flight[q].requeued && h.flight[q].fin;
        FinCarriedBy(h'.flight, q);
      }
      RequeuedFrom(h, c, h'.pending);
    }
  }

  lemma FinishKeeps(h: Half, h': Half)
    requires Inv(h) && FinishStep(h, h')
    ensures Inv(h')
  {
  }

  lemma ResetKeeps(h: Half, code: nat, h': Half)
    requires Inv(h) && ResetStep(h, code, h')
    ensures Inv(h')
  {
  }

  lemma ResetAckKeeps(h: Half, h': Half)
    requires Inv(h) && ResetAckStep(h, h')
    ensures Inv(h')
  {
  }

  lemma NextKeeps(h: Half, e: Event, h': Half)
    requires Inv(h) && Next(h, e, h')
    ensures Inv(h')
  {
    match e
    case EvWrite(data, maxBuffered) =>
      var floor: nat :| IsFloor(h.acked, floor)
        && h' == Written(h, data[..Min(|data|, Headroom(h, floor, maxBuffered))]);
      WriteKeeps(h, data[..Min(|data|, Headroom(h, floor, maxBuffered))]);
    case EvFinish => FinishKeeps(h, h');
    case EvReset(code) => ResetKeeps(h, code, h');
    case EvSend(pn, c) => SendKeeps(h, pn, c);
    case EvAck(pn) => AckKeeps(h, pn);
    case EvLost(pn) => LossKeeps(h, pn, h');
    case EvProbe(pn) => ProbeKeeps(h, pn, h');
    case EvResetAcked => ResetAckKeeps(h, h');
  }

  /** Every state of every run: nothing written is ever forgotten, and the state names are honest. */
  lemma {:induction false} RunKeeps(hs: seq<Half>, es: seq<Event>)
    requires Run(hs, es)
    ensures Inv(hs[|es|])
  {
    if es != [] {
      var n := |es| - 1;
      RunKeeps(hs[..n + 1], es[..n]);
      NextKeeps(hs[n], es[n], hs[n + 1]);
    } else {
      assert !Delivered(INITIAL);
    }
  }

  lemma {:induction false} Lowest(s: set<nat>, x: nat) returns (m: nat)
    requires x in s
    ensures m in s && forall y :: y in s ==> m <= y
    decreases x
  {
    if y :| y in s && y < x {
      m := Lowest(s, y);
    } else {
      m := x;
    }
  }

  lemma {:induction false} RunEnd(s: set<nat>, lo: nat, at: nat, bound: nat) returns (end: nat)
    requires lo <= at <= bound && Span(lo, at) <= s && forall y :: y in s ==> y < bound
    ensures at <= end && Span(lo, end) <= s && end !in s
    decreases bound - at
  {
    if at in s {
      end := RunEnd(s, lo, at + 1, bound);
    } else {
      end := at;
    }
  }

  /** A stream with bytes queued, or a FIN due, offers something. */
  lemma OffersSomething(h: Half, max: nat)
    requires max > 0 && Bounded(h) && h.reset == None && (h.pending != {} || FinReady(h, |h.written|))
    ensures exists c :: Offers(h, max, c)
  {
    if h.pending == {} {
      assert Offers(h, max, Chunk(|h.written|, 0, true, false));
    } else {
      var x :| x in h.pending;
      var offset := Lowest(h.pending, x);
      var end := RunEnd(h.pending, offset, offset, |h.written|);
      assert IsFirstRun(h.pending, offset, end);
      var length := Min(max, end - offset);
      assert Offers(h, max, Chunk(offset, length, FinReady(h, offset + length), false));
    }
  }

  /** What is offered can be sent, under any number not in flight. */
  lemma OfferedIsSendable(h: Half, max: nat, c: Chunk, pn: nat)
    requires Bounded(h) && max > 0 && Offers(h, max, c) && pn !in h.flight
    ensures Sendable(h, pn, c)
  {
    if h.pending != {} {
      var end: nat :| IsFirstRun(h.pending, c.offset, end) && c.length == Min(max, end - c.offset);
      assert ChunkSpan(c) <= Span(c.offset, end);
    }
  }

  /** A finished stream with nothing in flight and nothing to offer has been delivered: it cannot be stuck. */
  lemma Drained(h: Half)
    requires Inv(h) && h.reset == None && h.finMarked && h.flight == map[]
    requires forall c :: !Offers(h, 1, c)
    ensures h.state == DataRecvd && Delivered(h)
  {
    if h.pending != {} || FinReady(h, |h.written|) {
      OffersSomething(h, 1);
    }
    assert forall x: nat :: x < |h.written| ==> !Carried(h.flight, x);
    assert IsFloor(h.acked, |h.written|);
  }

  // -- what an acknowledgement may leave queued --

  /** No acknowledged byte waits to be sent, so what is offered is still in the buffer. */
  ghost predicate Clean(h: Half) { h.pending !! h.acked }

  lemma RequeueKeepsClean(h: Half, c: Chunk, pending': set<nat>)
    requires Clean(h) && Requeues(h, c, pending')
    ensures pending' !! h.acked
  {
    assert pending' * h.acked <= {};
    forall x | x in pending'
      ensures x !in h.acked
    {
      assert x in pending' * h.acked <==> x in h.acked;
    }
  }

  /** Every step but an acknowledgement keeps the queue clean. */
  lemma OthersKeepClean(h: Half, e: Event, h': Half)
    requires Inv(h) && Clean(h) && Next(h, e, h') && !e.EvAck?
    ensures Clean(h')
  {
    match e
    case EvLost(pn) =>
      if h.reset == None && !h.flight[pn].requeued {
        RequeueKeepsClean(h, h.flight[pn], h'.pending);
      }
    case EvProbe(pn) =>
      if h.reset == None && !h.flight[pn].requeued {
        RequeueKeepsClean(h, h.flight[pn], h'.pending);
      }
    case _ =>
  }

  /** An acknowledgement keeps it clean exactly when the probe flag is up or none of the chunk's bytes is queued. */
  lemma AckKeepsCleanIff(h: Half, pn: nat)
    requires Clean(h) && pn in h.flight
    ensures Clean(AckStep(h, pn)) <==> h.probePending || ChunkSpan(h.flight[pn]) !! h.pending
  {
    var c := h.flight[pn];
    assert c.length == 0 ==> ChunkSpan(c) == {};
    assert AckStep(h, pn).acked == h.acked + ChunkSpan(c);
    if !h.probePending {
      assert AckStep(h, pn).pending == h.pending;
    }
  }

  /** With a clean queue the chunk offered lies at or above the floor. */
  lemma CleanOffers(h: Half, floor: nat, max: nat, c: Chunk)
    requires Clean(h) && Bounded(h) && IsFloor(h.acked, floor) && max > 0 && Offers(h, max, c)
    ensures c.length > 0 ==> floor <= c.offset && c.offset + c.length <= |h.written|
  {
    if h.pending != {} {
      var end: nat :| IsFirstRun(h.pending, c.offset, end);
      assert c.offset in Span(c.offset, end);
      assert end - 1 in Span(c.offset, end);
    }
  }

  /** What one packet number space does: numbers rise, and a loss is declared only when no lower packet is in flight. */
  ghost predicate InOrder(h: Half, e: Event) {
    && (e.EvSend? ==> forall q :: q in h.flight ==> q < e.pn)
    && (e.EvLost? ==> forall q :: q in h.flight ==> e.pn <= q)
  }

  /** A packet that no probe queued again is the newest copy of its bytes. */
  ghost predicate Newest(flight: map<nat, Chunk>) {
    forall p, q :: p in flight && !flight[p].requeued && q in flight && p < q ==>
      ChunkSpan(flight[p]) !! ChunkSpan(flight[q])
  }

  /** Such a packet carries nothing that is queued. */
  ghost predicate CarriesNoneOf(flight: map<nat, Chunk>, pending: set<nat>) {
    forall p :: p in flight && !flight[p].requeued ==> ChunkSpan(flight[p]) !! pending
  }

  /**
   The queue is clean; a packet that no probe queued again carries nothing queued and is the newest copy of its bytes;
   and a byte both queued and in flight has the probe flag up.
   */
  ghost predicate Orderly(h: Half) {
    && Clean(h) && CarriesNoneOf(h.flight, h.pending) && Newest(h.flight)
    && (!h.probePending ==> forall p :: p in h.flight ==> ChunkSpan(h.flight[p]) !! h.pending)
  }

  lemma SendKeepsOrderly(h: Half, pn: nat, c: Chunk)
    requires Inv(h) && Orderly(h) && Sendable(h, pn, c) && !c.requeued && InOrder(h, EvSend(pn, c))
    ensures Orderly(SendStep(h, pn, c))
  {
    assert c.length == 0 ==> ChunkSpan(c) == {};
    assert ChunkSpan(c) <= h.pending;
  }

  lemma AckKeepsOrderly(h: Half, pn: nat)
    requires Inv(h) && Orderly(h) && pn in h.flight
    ensures Orderly(AckStep(h, pn))
  {
    AckKeepsCleanIff(h, pn);
    assert AckStep(h, pn).pending <= h.pending && AckStep(h, pn).flight == h.flight - {pn};
    assert !AckStep(h, pn).probePending ==> !h.probePending || AckStep(h, pn).pending == {};
  }

  lemma LossKeepsOrderly(h: Half, pn: nat, h': Half)
    requires Inv(h) && Orderly(h) && LossStep(h, pn, h') && InOrder(h, EvLost(pn))
    ensures Orderly(h')
  {
    if h.reset == None && !h.flight[pn].requeued {
      RequeuedFrom(h, h.flight[pn], h'.pending);
      RequeueKeepsClean(h, h.flight[pn], h'.pending);
    }
  }

  lemma MarkedNewest(flight: map<nat, Chunk>, pn: nat, marked: map<nat, Chunk>)
    requires Newest(flight) && pn in flight && marked == flight[pn := flight[pn].(requeued := true)]
    ensures Newest(marked)
  {
  }

  lemma MarkedUnqueued(flight: map<nat, Chunk>, pn: nat, marked: map<nat, Chunk>, pending: set<nat>, pending': set<nat>)
    requires Newest(flight) && CarriesNoneOf(flight, pending) && pn in flight && !flight[pn].requeued
    requires marked == flight[pn := flight[pn].(requeued := true)] && pending' <= pending + ChunkSpan(flight[pn])
    ensures CarriesNoneOf(marked, pending')
  {
    forall p | p in marked && !marked[p].requeued
      ensures ChunkSpan(marked[p]) !! pending'
    {
      assert p != pn && marked[p] == flight[p];
      assert ChunkSpan(flight[p]) !! ChunkSpan(flight[pn]);
    }
  }

  lemma ProbeKeepsOrderly(h: Half, pn: nat, h': Half)
    requires Inv(h) && Orderly(h) && ProbeStep(h, pn, h')
    ensures Orderly(h')
  {
    var c := h.flight[pn];
    if !c.requeued {
      MarkedNewest(h.flight, pn, h'.flight);
      if h.reset == None {
        RequeuedFrom(h, c, h'.pending);
        RequeueKeepsClean(h, c, h'.pending);
        MarkedUnqueued(h.flight, pn, h'.flight, h.pending, h'.pending);
        assert c.length == 0 ==> ChunkSpan(c) == {};
      } else {
        MarkedUnqueued(h.flight, pn, h'.flight, h.pending, h'.pending);
      }
    }
  }

  lemma WriteKeepsOrderly(h: Half, data: seq<Byte>)
    requires Inv(h) && Orderly(h)
    ensures Orderly(Written(h, data))
  {
    forall pn | pn in h.flight
      ensures ChunkSpan(h.flight[pn]) !! Span(|h.written|, |h.written| + |data|)
    {
    }
  }

  /** Every step in order, probes included, keeps this. */
  lemma NextKeepsOrderly(h: Half, e: Event, h': Half)
    requires Inv(h) && Orderly(h) && Next(h, e, h') && InOrder(h, e)
    ensures Orderly(h')
  {
    match e
    case EvWrite(data, maxBuffered) =>
      var floor: nat :| IsFloor(h.acked, floor)
        && h' == Written(h, data[..Min(|data|, Headroom(h, floor, maxBuffered))]);
      WriteKeepsOrderly(h, data[..Min(|data|, Headroom(h, floor, maxBuffered))]);
    case EvSend(pn, c) => SendKeepsOrderly(h, pn, c);
    case EvAck(pn) => AckKeepsOrderly(h, pn);
    case EvLost(pn) => LossKeepsOrderly(h, pn, h');
    case EvProbe(pn) => ProbeKeepsOrderly(h, pn, h');
    case EvFinish =>
    case EvReset(code) =>
    case EvResetAcked =>
  }

  /** A run as one packet number space makes it. */
  ghost predicate RunInOrder(hs: seq<Half>, es: seq<Event>) {
    Run(hs, es) && forall i :: 0 <= i < |es| ==> InOrder(hs[i], es[i])
  }

  /** In every run in order, with any probes, no acknowledged byte is ever queued: what is offered is in the buffer. */
  lemma {:induction false} InOrderStaysClean(hs: seq<Half>, es: seq<Event>)
    requires RunInOrder(hs, es)
    ensures Inv(hs[|es|]) && Orderly(hs[|es|]) && Clean(hs[|es|])
  {
    RunKeeps(hs, es);
    if es != [] {
      var n := |es| - 1;
      InOrderStaysClean(hs[..n + 1], es[..n]);
      NextKeepsOrderly(hs[n], es[n], hs[n + 1]);
    }
  }

  /** So in such a run the chunk offered always lies at or above the floor. */
  lemma InOrderOffersInBuffer(hs: seq<Half>, es: seq<Event>, floor: nat, max: nat, c: Chunk)
    requires RunInOrder(hs, es) && IsFloor(hs[|es|].acked, floor) && max > 0 && Offers(hs[|es|], max, c)
    ensures c.length > 0 ==> floor <= c.offset && c.offset + c.length <= |hs[|es|].written|
  {
    InOrderStaysClean(hs, es);
    CleanOffers(hs[|es|], floor, max, c);
  }

  const ONE: Chunk := Chunk(0, 1, false, false)
  const ONE_AGAIN: Chunk := Chunk(0, 1, false, true)

  function Written1(b: Byte): Half { INITIAL.(written := [b], pending := {0}, state := Send) }
  function Sent2(b: Byte): Half { Written1(b).(pending := {}, flight := map[0 := ONE]) }
  function Probed3(b: Byte): Half { Sent2(b).(pending := {0}, probePending := true, flight := map[0 := ONE_AGAIN]) }
  function Copied4(b: Byte): Half { Sent2(b).(flight := map[0 := ONE_AGAIN, 1 := ONE]) }
  function Lost5(b: Byte): Half { Sent2(b).(pending := {0}, flight := map[0 := ONE_AGAIN]) }
  function Acked6(b: Byte): Half { Lost5(b).(acked := {0}, flight := map[]) }

  lemma LateAckFirst(b: Byte)
    ensures Next(INITIAL, EvWrite([b], 1), Written1(b))
    ensures Next(Written1(b), EvSend(0, ONE), Sent2(b))
    ensures Next(Sent2(b), EvProbe(0), Probed3(b))
  {
    assert IsFloor(INITIAL.acked, 0) && Headroom(INITIAL, 0, 1) == 1;
    assert Span(0, 1) == {0} && ChunkSpan(ONE) == {0};
    assert Written(INITIAL, [b][..1]) == Written1(b) by {
      assert [b][..1] == [b] && INITIAL.written + [b] == [b];
    }
    assert map[][0 := ONE] == map[0 := ONE];
  }

  lemma LateAckLast(b: Byte)
    ensures Next(Probed3(b), EvSend(1, ONE), Copied4(b))
    ensures Next(Copied4(b), EvLost(1), Lost5(b))
    ensures Next(Lost5(b), EvAck(0), Acked6(b))
  {
    assert Span(0, 1) == {0} && ChunkSpan(ONE) == {0} && ChunkSpan(ONE_AGAIN) == {0};
    assert map[0 := ONE_AGAIN][1 := ONE] == map[0 := ONE_AGAIN, 1 := ONE];
    assert Copied4(b).flight - {1} == map[0 := ONE_AGAIN];
    assert Lost5(b).flight - {0} == map[];
    assert !Delivered(Acked6(b));
  }

  /**
   The run that soils the queue: a probe queues a packet's byte again, the copy goes out and is lost, and only then is
   the first packet acknowledged. The flag went down when the copy left, so the byte stays queued below the floor.
   */
  lemma LateAckSoils(b: Byte) returns (hs: seq<Half>, es: seq<Event>)
    ensures Run(hs, es) && !Clean(hs[|es|])
    ensures IsFloor(hs[|es|].acked, 1) && Offers(hs[|es|], 1, ONE)
    ensures |es| == 6 && es[4] == EvLost(1) && !InOrder(hs[4], es[4])
  {
    hs := [INITIAL, Written1(b), Sent2(b), Probed3(b), Copied4(b), Lost5(b), Acked6(b)];
    es := [EvWrite([b], 1), EvSend(0, ONE), EvProbe(0), EvSend(1, ONE), EvLost(1), EvAck(0)];
    LateAckFirst(b);
    LateAckLast(b);
    assert Span(0, 1) == {0};
    assert 0 in hs[4].flight;
    assert IsFirstRun({0}, 0, 1);
  }

  // -- runs without probes --

  /** Every byte is in exactly one place, and no two packets carry the same byte. */
  ghost predicate Exclusive(h: Half) {
    && Clean(h) && !h.probePending
    && (forall pn :: pn in h.flight ==>
          !h.flight[pn].requeued && ChunkSpan(h.flight[pn]) !! h.pending && ChunkSpan(h.flight[pn]) !! h.acked)
    && (forall p, q :: p in h.flight && q in h.flight && p != q ==> ChunkSpan(h.flight[p]) !! ChunkSpan(h.flight[q]))
  }

  lemma SendKeepsExclusive(h: Half, pn: nat, c: Chunk)
    requires Inv(h) && Exclusive(h) && Sendable(h, pn, c) && !c.requeued
    ensures Exclusive(SendStep(h, pn, c))
  {
    assert c.length == 0 ==> ChunkSpan(c) == {};
    assert ChunkSpan(c) <= h.pending;
  }

  lemma AckKeepsExclusive(h: Half, pn: nat)
    requires Inv(h) && Exclusive(h) && pn in h.flight
    ensures Exclusive(AckStep(h, pn))
  {
    assert AckStep(h, pn).pending == h.pending && AckStep(h, pn).acked == h.acked + ChunkSpan(h.flight[pn]);
  }

  lemma LossKeepsExclusive(h: Half, pn: nat, h': Half)
    requires Inv(h) && Exclusive(h) && LossStep(h, pn, h')
    ensures Exclusive(h')
  {
    if h.reset == None {
      RequeuedFrom(h, h.flight[pn], h'.pending);
      RequeueKeepsClean(h, h.flight[pn], h'.pending);
    }
  }

  lemma WriteKeepsExclusive(h: Half, data: seq<Byte>)
    requires Inv(h) && Exclusive(h)
    ensures Exclusive(Written(h, data))
  {
    forall pn | pn in h.flight
      ensures ChunkSpan(h.flight[pn]) !! Span(|h.written|, |h.written| + |data|)
    {
    }
  }

  /** Without probes every step keeps the bytes in exactly one place each. */
  lemma NextKeepsExclusive(h: Half, e: Event, h': Half)
    requires Inv(h) && Exclusive(h) && Next(h, e, h') && !e.EvProbe?
    ensures Exclusive(h')
  {
    match e
    case EvWrite(data, maxBuffered) =>
      var floor: nat :| IsFloor(h.acked, floor)
        && h' == Written(h, data[..Min(|data|, Headroom(h, floor, maxBuffered))]);
      WriteKeepsExclusive(h, data[..Min(|data|, Headroom(h, floor, maxBuffered))]);
    case EvSend(pn, c) => SendKeepsExclusive(h, pn, c);
    case EvAck(pn) => AckKeepsExclusive(h, pn);
    case EvLost(pn) => LossKeepsExclusive(h, pn, h');
    case EvFinish =>
    case EvReset(code) =>
    case EvResetAcked =>
  }

  ghost predicate ProbeFree(es: seq<Event>) {
    forall i :: 0 <= i < |es| ==> !es[i].EvProbe?
  }

  /**
   In every state of every run without probes each byte is in exactly one place: acknowledged, queued, or one packet.
   */
  lemma {:induction false} RunKeepsExclusive(hs: seq<Half>, es: seq<Event>)
    requires Run(hs, es) && ProbeFree(es)
    ensures Inv(hs[|es|]) && Exclusive(hs[|es|])
  {
    RunKeeps(hs, es);
    if es != [] {
      var n := |es| - 1;
      RunKeepsExclusive(hs[..n + 1], es[..n]);
      NextKeepsExclusive(hs[n], es[n], hs[n + 1]);
    }
  }

  /** Once a run without probes has everything acknowledged, nothing is queued and nothing in flight carries data. */
  lemma AllAckedAllEmpty(hs: seq<Half>, es: seq<Event>)
    requires Run(hs, es) && ProbeFree(es) && hs[|es|].reset == None && IsFloor(hs[|es|].acked, |hs[|es|].written|)
    ensures hs[|es|].pending == {}
    ensures forall pn :: pn in hs[|es|].flight ==> hs[|es|].flight[pn].length == 0
  {
    RunKeepsExclusive(hs, es);
    var h := hs[|es|];
    forall pn | pn in h.flight
      ensures h.flight[pn].length == 0
    {
      var c := h.flight[pn];
      assert c.length > 0 ==> c.offset in ChunkSpan(c) && c.offset in h.acked;
    }
  }

  // -- the end of a reset stream --

  /**
   The acknowledgement of packet `pn` is the one that was missing: with it the FIN and every byte are acknowledged.
   */
  ghost predicate CompletesDelivery(h: Half, pn: nat)
    requires pn in h.flight
  {
    h.finMarked && (h.finAcked || h.flight[pn].fin) && IsFloor(h.acked + ChunkSpan(h.flight[pn]), |h.written|)
  }

  /**
   An acknowledgement leaves a stream whose reset is acknowledged exactly when it completes the delivery after all.
   */
  lemma ResetRecvdLeftIff(h: Half, pn: nat)
    requires h.state == ResetRecvd && pn in h.flight
    ensures AckStep(h, pn).state != ResetRecvd <==> CompletesDelivery(h, pn)
    ensures AckStep(h, pn).state == if CompletesDelivery(h, pn) then DataRecvd else ResetRecvd
  {
    assert AckStep(h, pn).acked == h.acked + ChunkSpan(h.flight[pn]);
  }

  const LAST: Chunk := Chunk(0, 1, true, false)

  function Ended(b: Byte): Half { Written1(b).(finMarked := true, state := DataSent) }
  function Final(b: Byte): Half { Ended(b).(pending := {}, flight := map[0 := LAST], finInFlight := true) }
  function Stopped(b: Byte): Half { Final(b).(reset := Some(ResetInfo(7, 1, false, false)), state := ResetSent) }
  function StoppedAcked(b: Byte): Half { Stopped(b).(reset := Some(ResetInfo(7, 1, true, true)), state := ResetRecvd) }
  function AllIn(b: Byte): Half {
    StoppedAcked(b).(flight := map[], acked := {0}, finAcked := true, state := DataRecvd)
  }

  lemma LateDeliverySteps(b: Byte)
    ensures Next(INITIAL, EvWrite([b], 1), Written1(b)) && Next(Written1(b), EvFinish, Ended(b))
    ensures Next(Ended(b), EvSend(0, LAST), Final(b)) && Next(Final(b), EvReset(7), Stopped(b))
    ensures Next(Stopped(b), EvResetAcked, StoppedAcked(b)) && Next(StoppedAcked(b), EvAck(0), AllIn(b))
  {
    LateAckFirst(b);
    assert Span(0, 1) == {0} && ChunkSpan(LAST) == {0};
    assert map[][0 := LAST] == map[0 := LAST] && map[0 := LAST] - {0} == map[];
    assert IsFloor({0}, 1);
  }

  /** A run in which a stream whose reset was acknowledged ends in `DataRecvd`: its data arrived all the same. */
  lemma AckedResetCanBeDelivered(b: Byte) returns (hs: seq<Half>, es: seq<Event>)
    ensures Run(hs, es) && hs[|es|].state == DataRecvd && hs[|es|].reset.Some? && hs[|es|].reset.value.acked
    ensures hs[|es| - 1].state == ResetRecvd
  {
    hs := [INITIAL, Written1(b), Ended(b), Final(b), Stopped(b), StoppedAcked(b), AllIn(b)];
    es := [EvWrite([b], 1), EvFinish, EvSend(0, LAST), EvReset(7), EvResetAcked, EvAck(0)];
    LateDeliverySteps(b);
  }

  /** `DataRecvd` always means delivered, and without a reset delivered always means `DataRecvd`. */
  lemma DataRecvdMeansDelivered(hs: seq<Half>, es: seq<Event>)
    requires Run(hs, es)
    ensures var h := hs[|es|];
      && (h.state == DataRecvd ==> h.finAcked && h.finMarked && forall x: nat :: x < |h.written| ==> x in h.acked)
      && (h.reset == None && h.finAcked && IsFloor(h.acked, |h.written|) ==> h.state == DataRecvd)
  {
    RunKeeps(hs, es);
  }

  // -- what the states mean --

  /** The state's name follows from the rest: what was written, finished, delivered and reset. */
  ghost predicate Named(h: Half) {
    && (h.state == Ready <==> h.reset == None && h.written == [] && !h.finMarked)
    && (h.state == Send <==> h.reset == None && h.written != [] && !h.finMarked)
    && (h.state == DataSent <==> h.reset == None && h.finMarked && !Delivered(h))
    && (h.state == ResetSent <==> h.reset.Some? && !h.reset.value.acked)
    && (h.state == DataRecvd ==> Delivered(h))
  }

  /** A reset stream has nothing queued. */
  ghost predicate Quiet(h: Half) {
    h.reset.Some? ==> h.pending == {} && !h.probePending && h.reset.value.finalSize == |h.written|
  }

  ghost predicate CarriesFin(c: Chunk) { !c.requeued && c.fin }

  /** At most one packet that no probe queued again carries the FIN, and the flag is up while one does. */
  ghost predicate FinOnce(h: Half) {
    && (FinCarried(h.flight) ==> h.finInFlight)
    && (forall p, q :: p in h.flight && q in h.flight && p != q ==>
          !(CarriesFin(h.flight[p]) && CarriesFin(h.flight[q])))
  }

  /** No acknowledgement undoes a delivery. */
  lemma DeliveredStays(h: Half, pn: nat)
    requires Inv(h) && Delivered(h) && pn in h.flight
    ensures Delivered(AckStep(h, pn))
  {
    assert |h.written| !in ChunkSpan(h.flight[pn]);
  }

  lemma NextKeepsNamed(h: Half, e: Event, h': Half)
    requires Inv(h) && Named(h) && Next(h, e, h')
    ensures Named(h')
  {
    NextKeeps(h, e, h');
    if e.EvAck? && Delivered(h) {
      DeliveredStays(h, e.pn);
    }
  }

  lemma NextKeepsQuiet(h: Half, e: Event, h': Half)
    requires Inv(h) && Quiet(h) && Next(h, e, h')
    ensures Quiet(h')
  {
    match e
    case EvSend(pn, c) => assert h'.pending <= h.pending;
    case _ =>
  }

  lemma FinLeaves(h: Half, pn: nat, flight: map<nat, Chunk>, finInFlight: bool)
    requires FinOnce(h) && pn in h.flight && !h.flight[pn].requeued
    requires flight == h.flight - {pn} || flight == h.flight[pn := h.flight[pn].(requeued := true)]
    requires finInFlight == h.finInFlight || h.flight[pn].fin
    ensures FinOnce(h.(flight := flight, finInFlight := finInFlight))
  {
  }

  lemma NextKeepsFinOnce(h: Half, e: Event, h': Half)
    requires Inv(h) && FinOnce(h) && Next(h, e, h')
    ensures FinOnce(h')
  {
    match e
    case EvSend(pn, c) =>
      if c.fin {
        assert !FinCarried(h.flight);
        assert forall p :: p in h.flight ==> !CarriesFin(h.flight[p]);
      }
    case EvLost(pn) =>
      if !h.flight[pn].requeued {
        FinLeaves(h, pn, h'.flight, h'.finInFlight);
      }
    case EvProbe(pn) =>
      if !h.flight[pn].requeued {
        FinLeaves(h, pn, h'.flight, h'.finInFlight);
      }
    case _ =>
  }

  /** In every run the state is what its name says, a reset stream is quiet, and the FIN is under way at most once. */
  lemma {:induction false} RunIsNamed(hs: seq<Half>, es: seq<Event>)
    requires Run(hs, es)
    ensures var h := hs[|es|]; Inv(h) && Named(h) && Quiet(h) && FinOnce(h)
  {
    RunKeeps(hs, es);
    if es != [] {
      var n := |es| - 1;
      RunIsNamed(hs[..n + 1], es[..n]);
      NextKeepsNamed(hs[n], es[n], hs[n + 1]);
      NextKeepsQuiet(hs[n], es[n], hs[n + 1]);
      NextKeepsFinOnce(hs[n], es[n], hs[n + 1]);
    }
  }

  /** `DataRecvd` is final, whatever comes; the first reset is the only one, unless it comes after all is delivered. */
  lemma DataRecvdIsFinal(h: Half, e: Event, h': Half)
    requires Inv(h) && Next(h, e, h')
    ensures h.state == DataRecvd ==> h'.state == DataRecvd && h'.reset.Some? == h.reset.Some?
    ensures h.reset.Some? ==> h'.reset.Some? && h'.reset.value.errorCode == h.reset.value.errorCode
    ensures h.reset == None && h'.reset.Some? ==> e.EvReset? && h.state != DataRecvd
    ensures e.EvReset? && h.reset == None && h.state != DataRecvd ==>
      h'.reset == Some(ResetInfo(e.errorCode, |h.written|, false, false)) && h'.state == ResetSent
  {
    if e.EvAck? && h.state == DataRecvd {
      DeliveredStays(h, e.pn);
    }
  }

  lemma {:induction false} RunStaysRecvd(hs: seq<Half>, es: seq<Event>, i: nat)
    requires Run(hs, es) && i <= |es| && hs[i].state == DataRecvd
    ensures hs[|es|].state == DataRecvd && hs[|es|].reset.Some? == hs[i].reset.Some?
    decreases |es|
  {
    if i < |es| {
      var n := |es| - 1;
      RunStaysRecvd(hs[..n + 1], es[..n], i);
      RunKeeps(hs[..n + 1], es[..n]);
      DataRecvdIsFinal(hs[n], es[n], hs[n + 1]);
    }
  }

  /** A write takes everything, or what brings the unacknowledged bytes up to the cap. */
  lemma WriteFillsTheCap(h: Half, data: seq<Byte>, maxBuffered: nat, h': Half, floor: nat)
    requires WriteStep(h, data, maxBuffered, h') && IsFloor(h.acked, floor) && Bounded(h)
    ensures h.written <= h'.written <= h.written + data && h'.acked == h.acked
    ensures h'.written == h.written + data || |h'.written| == Max(|h.written|, floor + maxBuffered)
    ensures |h'.written| <= Max(|h.written|, floor + maxBuffered)
    ensures h'.pending == h.pending + Span(|h.written|, |h'.written|)
  {
    var f: nat :| IsFloor(h.acked, f) && h' == Written(h, data[..Min(|data|, Headroom(h, f, maxBuffered))]);
    assert f == floor by {
      assert f < floor ==> f in h.acked;
      assert floor < f ==> floor in h.acked;
    }
    assert data[..|data|] == data;
  }

  ghost predicate OneCap(es: seq<Event>, maxBuffered: nat) {
    forall i :: 0 <= i < |es| && es[i].EvWrite? ==> es[i].maxBuffered == maxBuffered
  }

  lemma FloorExists(h: Half)
    requires Bounded(h)
    ensures exists floor: nat :: IsFloor(h.acked, floor)
  {
    var floor := FloorFrom(h.acked, 0, |h.written|);
  }

  lemma {:induction false} FloorFrom(acked: set<nat>, from: nat, bound: nat) returns (floor: nat)
    requires from <= bound && (forall x :: x in acked ==> x < bound) && forall x: nat :: x < from ==> x in acked
    ensures IsFloor(acked, floor)
    decreases bound - from
  {
    if from in acked {
      floor := FloorFrom(acked, from + 1, bound);
    } else {
      floor := from;
    }
  }

  /** In every run with one cap no more than that is ever unacknowledged: the buffer never outgrows it. */
  lemma {:induction false} RunWithinCap(hs: seq<Half>, es: seq<Event>, maxBuffered: nat, floor: nat)
    requires Run(hs, es) && OneCap(es, maxBuffered) && IsFloor(hs[|es|].acked, floor)
    ensures |hs[|es|].written| <= floor + maxBuffered
  {
    if es != [] {
      var n := |es| - 1;
      RunKeeps(hs[..n + 1], es[..n]);
      FloorExists(hs[n]);
      var before: nat :| IsFloor(hs[n].acked, before);
      RunWithinCap(hs[..n + 1], es[..n], maxBuffered, before);
      CapStep(hs[n], es[n], hs[n + 1], before, floor);
    }
  }

  lemma CapStep(h: Half, e: Event, h': Half, before: nat, floor: nat)
    requires Bounded(h) && Next(h, e, h') && IsFloor(h.acked, before) && IsFloor(h'.acked, floor)
    ensures before <= floor
    ensures e.EvWrite? ==> |h'.written| <= Max(|h.written|, before + e.maxBuffered)
    ensures !e.EvWrite? ==> h'.written == h.written
  {
    AckedGrows(h, e, h');
    assert floor < before ==> floor in h.acked;
    if e.EvWrite? {
      WriteFillsTheCap(h, e.data, e.maxBuffered, h', before);
    }
  }

  lemma AckedGrows(h: Half, e: Event, h': Half)
    requires Next(h, e, h')
    ensures h.acked <= h'.acked
    ensures !e.EvWrite? ==> h'.written == h.written
  {
  }

  /** An offer is the lowest of the queue, no longer than allowed, and shorter only where the queue has a hole. */
  lemma OfferIsMost(h: Half, max: nat, c: Chunk)
    requires Offers(h, max, c)
    ensures h.pending != {} ==> c.length <= max && ChunkSpan(c) <= h.pending
    ensures h.pending != {} ==> c.offset in h.pending && forall x :: x in h.pending ==> c.offset <= x
    ensures h.pending != {} && c.length < max ==> c.offset + c.length !in h.pending
    ensures c.fin <==> h.finMarked && !h.finInFlight && !h.finAcked && c.offset + c.length == |h.written|
    ensures h.pending == {} ==> c.length == 0 && c.fin
  {
    if h.pending != {} {
      var end: nat :| IsFirstRun(h.pending, c.offset, end);
      assert c.offset in Span(c.offset, end);
    }
  }

  /** The probe flag is up only while something is queued. */
  ghost predicate FlagMeansQueued(h: Half) { h.probePending ==> h.pending != {} }

  /** The flag goes up only with a probe that queues bytes, and down only when a step empties the queue. */
  lemma FlagMoves(h: Half, e: Event, h': Half)
    requires Next(h, e, h')
    ensures !h.probePending && h'.probePending ==>
      e.EvProbe? && h.flight[e.pn].length > 0 && !h.flight[e.pn].requeued && h.reset == None
    ensures h.probePending && !h'.probePending ==> h'.pending == {}
  {
  }

  lemma NextKeepsFlag(h: Half, e: Event, h': Half)
    requires Clean(h) && FlagMeansQueued(h) && Next(h, e, h')
    ensures FlagMeansQueued(h')
  {
    match e
    case EvLost(pn) => QueueStays(h, h.flight[pn], h'.pending);
    case EvProbe(pn) => QueueStays(h, h.flight[pn], h'.pending);
    case _ =>
  }

  lemma QueueStays(h: Half, c: Chunk, pending': set<nat>)
    ensures Clean(h) && Requeues(h, c, pending') ==> h.pending <= pending'
  {
    if Clean(h) && Requeues(h, c, pending') {
      forall x | x in h.pending
        ensures x in pending'
      {
        assert x in (h.pending + ChunkSpan(c)) - h.acked;
      }
    }
  }

  lemma {:induction false} InOrderFlagMeansQueued(hs: seq<Half>, es: seq<Event>)
    requires RunInOrder(hs, es)
    ensures FlagMeansQueued(hs[|es|])
  {
    if es != [] {
      var n := |es| - 1;
      InOrderFlagMeansQueued(hs[..n + 1], es[..n]);
      InOrderStaysClean(hs[..n + 1], es[..n]);
      NextKeepsFlag(hs[n], es[n], hs[n + 1]);
    }
  }
}
