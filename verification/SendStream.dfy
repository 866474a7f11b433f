/**
 The send half as the connection keeps it: a byte buffer, sorted range lists and flags, refining the state machine.
 */
module SendStream {
  import opened Wrappers
  import opened Varint
  import opened RangeList
  import opened InFlightMap
  import opened SendHalf

  datatype StreamError = StreamClosed | InvalidChunk | UnknownPacket

  /** Comparing with the first range is comparing with the whole set. */
  lemma HeadTakes(list: seq<Range>, c: Chunk)
    requires Canonical(list) && c.length > 0
    ensures (list != [] && c.offset == list[0].offset && c.offset + c.length <= list[0].end)
      <==> (ChunkSpan(c) <= Points(list) && forall x :: x in Points(list) ==> c.offset <= x)
  {
    assert c.offset in ChunkSpan(c);
    if list != [] {
      FirstRun(list);
      var end := list[0].end;
      assert c.offset <= end < c.offset + c.length ==> end in ChunkSpan(c);
    }
  }

  /** A bounded queue's first range is within the bound. */
  lemma HeadBounded(list: seq<Range>, bound: nat)
    requires Canonical(list) && list != []
    requires forall x :: x in Points(list) ==> x < bound
    ensures list[0].end <= bound
  {
    FirstRun(list);
    assert list[0].end - 1 in SpanOf(list[0]);
  }

  /** A chunk that carries data a sender may take and a FIN it may not. */
  ghost predicate FinRefused(h: Half, pn: nat, c: Chunk) {
    && pn !in h.flight && c.length > 0 && TakesPrefix(h, c)
    && c.fin && !FinReady(h, c.offset + c.length)
  }

  /**
   A refused FIN has already cost the queue the chunk's bytes: they are lost exactly unless all were safe elsewhere.
   */
  lemma RefusedFinForgets(h: Half, pn: nat, c: Chunk)
    requires Inv(h) && h.reset == None && FinRefused(h, pn, c)
    ensures Covered(Unpended(h, c)) <==> forall x: nat :: x in ChunkSpan(c) ==> x in h.acked || Carried(h.flight, x)
  {
    var u := Unpended(h, c);
    assert forall x: nat :: x in ChunkSpan(c) ==> x < |h.written| && x !in u.pending;
  }

  /** In every run without probes they always are lost. */
  lemma RefusedFinLoses(hs: seq<Half>, es: seq<SendHalf.Event>, pn: nat, c: Chunk)
    requires Run(hs, es) && ProbeFree(es) && hs[|es|].reset == None && FinRefused(hs[|es|], pn, c)
    ensures !Covered(Unpended(hs[|es|], c))
  {
    RunKeepsExclusive(hs, es);
    var h := hs[|es|];
    RefusedFinForgets(h, pn, c);
    assert c.offset in ChunkSpan(c) && c.offset in h.pending;
    QueuedNotCarried(h, c.offset);
  }

  lemma QueuedNotCarried(h: Half, x: nat)
    requires Exclusive(h) && x in h.pending
    ensures x !in h.acked && !Carried(h.flight, x)
  {
    forall pn | pn in h.flight
      ensures !(h.flight[pn].offset <= x < h.flight[pn].offset + h.flight[pn].length)
    {
      assert h.flight[pn].offset <= x < h.flight[pn].offset + h.flight[pn].length <==> x in ChunkSpan(h.flight[pn]);
    }
  }

  /** The chunk the stream itself offers is never refused. */
  lemma OfferedIsNeverRefused(h: Half, max: nat, pn: nat, c: Chunk)
    requires Bounded(h) && max > 0 && Offers(h, max, c) && pn !in h.flight
    ensures !FinRefused(h, pn, c)
  {
    OfferedIsSendable(h, max, c, pn);
  }

  lemma WrittenBounded(h: Half, data: seq<Byte>)
    requires Bounded(h)
    ensures Bounded(Written(h, data))
  {
  }

  class Stream {
    var bytes: seq<Byte>
    var maxBuffered: nat
    var baseOffset: nat
    var writeOffset: nat
    var pending: seq<Range>
    var inFlight: map<nat, Chunk>
    var ackedAbove: seq<Range>
    var finMarked: bool
    var finInFlight: bool
    var finAcked: bool
    var probePending: bool
    var finalSize: Option<nat>
    var reset: Option<ResetInfo>
    var state: State
    /** Every byte ever written. */
    ghost var written: seq<Byte>

    constructor (maxBuffered: nat)
      ensures Valid() && Abs() == INITIAL && this.maxBuffered == maxBuffered
    {
      this.maxBuffered := maxBuffered;
      bytes, baseOffset, writeOffset, pending, inFlight, ackedAbove := [], 0, 0, [], map[], [];
      finMarked, finInFlight, finAcked, probePending, finalSize, reset := false, false, false, false, None, None;
      state, written := Ready, [];
    }

    ghost function Acked(): set<nat>
      reads this`baseOffset, this`ackedAbove
    {
      Span(0, baseOffset) + Points(ackedAbove)
    }

    /** The state machine's view of the stream. */
    ghost function Abs(): Half
      reads this
    {
      Half(written, Acked(), Points(pending), inFlight, finMarked, finInFlight, finAcked, probePending, reset, state)
    }

    /** The buffer holds exactly what lies between the floor and the end. */
    ghost predicate Buffered()
      reads this`bytes, this`baseOffset, this`writeOffset, this`written
    {
      writeOffset == |written| && baseOffset <= writeOffset && bytes == written[baseOffset..]
    }

    ghost predicate Above(list: seq<Range>, floor: nat) {
      forall i :: 0 <= i < |list| ==> floor < list[i].offset
    }

    ghost predicate Valid()
      reads this
    {
      && Buffered()
      && Canonical(pending) && Canonical(ackedAbove) && Above(ackedAbove, baseOffset)
      && Bounded(Abs())
      && (state == ResetSent ==> reset.Some?)
      && finalSize == if finMarked then Some(writeOffset) else None
    }

    /** The floor is the longest fully acknowledged prefix. */
    lemma FloorIsBase()
      requires Valid()
      ensures IsFloor(Abs().acked, baseOffset)
      ensures baseOffset == writeOffset ==> Delivered(Abs()) == (finAcked && finMarked)
      ensures baseOffset < writeOffset ==> !Delivered(Abs())
    {
      PointsFrom(ackedAbove, baseOffset + 1);
    }

    /** How many bytes the cap lets in. */
    function Room(): nat
      reads this`bytes, this`maxBuffered
    {
      if |bytes| < maxBuffered then maxBuffered - |bytes| else 0
    }

    /** Takes as many bytes as the cap allows. */
    method Write(data: seq<Byte>) returns (r: Result<nat, StreamError>)
      requires Valid()
      modifies this`pending, this`bytes, this`written, this`writeOffset, this`state
      ensures Valid() && (r.Err? <==> finMarked || reset.Some?)
      ensures r.Err? ==> Abs() == old(Abs()) && r.error == StreamClosed
      ensures r.Ok? ==> Next(old(Abs()), EvWrite(data, maxBuffered), Abs())
      ensures r.Ok? ==> r.value == Min(|data|, old(Room())) && written == old(written) + data[..r.value]
      ensures r.Ok? ==> Room() == old(Room()) - r.value
    {
      if finMarked || reset.Some? {
        return Err(StreamClosed);
      }
      FloorIsBase();
      ghost var was := Abs();
      var accept := Min(|data|, Room());
      assert Room() == Headroom(was, baseOffset, maxBuffered);
      if accept > 0 {
        Accept(data[..accept]);
      }
      r := Ok(accept);
    }

    /** Queues and buffers accepted bytes. */
    method Accept(data: seq<Byte>)
      requires Valid() && data != [] && !finMarked && reset == None
      modifies this`pending, this`bytes, this`written, this`writeOffset, this`state
      ensures Valid() && Abs() == Written(old(Abs()), data)
    {
      ghost var h := Abs();
      WrittenBounded(h, data);
      pending := InsertMerge(pending, Range(writeOffset, writeOffset + |data|));
      Append(data);
      if state == Ready {
        state := Send;
      }
      assert Abs() == Written(h, data);
    }

    method Append(data: seq<Byte>)
      requires Buffered()
      modifies this`bytes, this`written, this`writeOffset
      ensures Buffered() && written == old(written) + data && writeOffset == old(writeOffset) + |data|
    {
      bytes, written, writeOffset := bytes + data, written + data, writeOffset + |data|;
    }

    method Finish() returns (r: Result<(), StreamError>)
      requires Valid()
      modifies this`finMarked, this`finalSize, this`state
      ensures Valid() && (r.Err? <==> reset.Some?)
      ensures if r.Ok? then Next(old(Abs()), EvFinish, Abs()) else Abs() == old(Abs())
    {
      if reset.Some? {
        return Err(StreamClosed);
      }
      if !finMarked {
        finMarked, finalSize := true, Some(writeOffset);
        if state == Send || state == Ready {
          state := DataSent;
        }
      }
      r := Ok(());
    }

    method ResetStream(errorCode: nat)
      requires Valid()
      modifies this`reset, this`state, this`pending, this`probePending
      ensures Valid() && Next(old(Abs()), EvReset(errorCode), Abs())
    {
      if reset.Some? || state == DataRecvd {
        return;
      }
      reset := Some(ResetInfo(errorCode, writeOffset, false, false));
      state, pending, probePending := ResetSent, [], false;
    }

    /** The next chunk to ship, without taking it. */
    method PeekChunk(max: nat) returns (r: Option<Chunk>)
      requires Valid()
      ensures r.Some? ==> Offers(Abs(), max, r.value)
      ensures r == None ==> forall c :: !Offers(Abs(), max, c)
    {
      if reset.Some? {
        return None;
      }
      var finReady := finMarked && !finInFlight && !finAcked;
      if pending == [] {
        return if finReady then Some(Chunk(finalSize.value, 0, true, false)) else None;
      }
      FirstRun(pending);
      var first := pending[0];
      assert IsFirstRun(Points(pending), first.offset, first.end);
      var take := Min(max, first.end - first.offset);
      r := Some(Chunk(first.offset, take, finReady && first.offset + take == finalSize.value, false));
    }

    /** The bytes of a chunk at or above the floor. */
    method ChunkBytes(c: Chunk) returns (data: seq<Byte>)
      requires Valid() && (c.length > 0 ==> baseOffset <= c.offset) && c.offset + c.length <= writeOffset
      ensures data == written[c.offset..c.offset + c.length]
    {
      data := if c.length == 0 then [] else bytes[c.offset - baseOffset..c.offset - baseOffset + c.length];
    }

    /** Takes a chunk's bytes off the front of the queue. */
    method TakePending(c: Chunk) returns (ok: bool)
      requires Valid() && c.length > 0
      modifies this`pending, this`probePending
      ensures Valid() && (ok <==> TakesPrefix(old(Abs()), c))
      ensures ok ==> c.offset + c.length <= writeOffset
      ensures Abs() == if ok then Unpended(old(Abs()), c) else old(Abs())
    {
      HeadTakes(pending, c);
      ok := pending != [] && c.offset == pending[0].offset && c.offset + c.length <= pending[0].end;
      if ok {
        Cut(c);
      }
    }

    method Cut(c: Chunk)
      requires Canonical(pending) && c.length > 0 && forall x :: x in Points(pending) ==> x < writeOffset
      requires pending != [] && c.offset == pending[0].offset && c.offset + c.length <= pending[0].end
      modifies this`pending, this`probePending
      ensures Canonical(pending) && c.offset + c.length <= writeOffset
      ensures Points(pending) == old(Points(pending)) - ChunkSpan(c)
      ensures probePending == (old(probePending) && pending != [])
      ensures pending == [] <==> old(Points(pending)) - ChunkSpan(c) == {}
    {
      HeadBounded(pending, writeOffset);
      pending := DropFront(pending, c.offset + c.length, ChunkSpan(c));
      if pending == [] {
        probePending := false;
      }
    }

    /** A chunk goes out as packet `pn`. A FIN that may not go is noticed only after the bytes have left the queue. */
    method RecordSent(pn: nat, c: Chunk) returns (r: Result<(), StreamError>)
      requires Valid() && !c.requeued
      modifies this`pending, this`probePending, this`inFlight, this`finInFlight
      ensures Valid() && (r.Ok? <==> Sendable(old(Abs()), pn, c)) && (r.Err? ==> r.error == InvalidChunk)
      ensures r.Ok? ==> Next(old(Abs()), EvSend(pn, c), Abs())
      ensures r.Err? ==> Abs() == if FinRefused(old(Abs()), pn, c) then Unpended(old(Abs()), c) else old(Abs())
    {
      if pn in inFlight {
        return Err(InvalidChunk);
      }
      if c.length > 0 {
        var ok := TakePending(c);
        if !ok {
          return Err(InvalidChunk);
        }
      } else if !c.fin {
        return Err(InvalidChunk);
      }
      if c.fin && (finInFlight || finAcked || finalSize == None || c.offset + c.length != finalSize.value) {
        return Err(InvalidChunk);
      }
      Launch(pn, c);
      r := Ok(());
    }

    method Launch(pn: nat, c: Chunk)
      requires Valid() && pn !in inFlight && c.offset + c.length <= writeOffset
      modifies this`inFlight, this`finInFlight
      ensures Valid()
      ensures Abs() == old(Abs()).(flight := old(inFlight)[pn := c], finInFlight := old(finInFlight) || c.fin)
    {
      if c.fin {
        finInFlight := true;
      }
      inFlight := inFlight[pn := c];
    }

    /** Moves the floor up and drops what lies below it from the buffer. */
    method AdvanceFloor(floor: nat)
      requires Buffered() && baseOffset <= floor <= writeOffset
      modifies this`bytes, this`baseOffset
      ensures Buffered() && baseOffset == floor
    {
      bytes := bytes[floor - baseOffset..];
      baseOffset := floor;
    }

    /** Folds the ranges the floor has reached into it. */
    method Absorb(ghost all: set<nat>)
      requires Buffered() && Canonical(ackedAbove) && Acked() == all && forall x :: x in all ==> x < writeOffset
      modifies this`bytes, this`baseOffset, this`ackedAbove
      ensures Buffered() && Canonical(ackedAbove) && Above(ackedAbove, baseOffset) && Acked() == all
    {
      while ackedAbove != [] && ackedAbove[0].offset <= baseOffset
        invariant Buffered() && Canonical(ackedAbove) && Acked() == all
        decreases |ackedAbove|
      {
        var first := ackedAbove[0];
        FirstRun(ackedAbove);
        assert first.end - 1 in SpanOf(first);
        ackedAbove := ackedAbove[1..];
        if first.end > baseOffset {
          AdvanceFloor(first.end);
        }
      }
    }

    /** An acknowledged range above the floor waits for the gap to close. */
    method Stash(start: nat, end: nat)
      requires Valid() && baseOffset < start < end <= writeOffset
      modifies this`ackedAbove
      ensures Valid() && Acked() == old(Acked()) + Span(start, end)
    {
      PointsFrom(ackedAbove, baseOffset + 1);
      ackedAbove := InsertMerge(ackedAbove, Range(start, end));
      StillAbove(ackedAbove, baseOffset);
    }

    /** An acknowledged range at the floor moves it, over the ranges that waited for it too. */
    method Raise(end: nat)
      requires Valid() && baseOffset < end <= writeOffset
      modifies this`bytes, this`baseOffset, this`ackedAbove
      ensures Valid() && Acked() == old(Acked()) + Span(old(baseOffset), end)
    {
      ghost var all := Acked() + Span(baseOffset, end);
      AdvanceFloor(end);
      assert Acked() == all;
      Absorb(all);
    }

    /** Records `[offset, end)` as acknowledged. */
    method MarkAckedRange(offset: nat, end: nat)
      requires Valid() && end <= writeOffset
      modifies this`bytes, this`baseOffset, this`ackedAbove
      ensures Valid() && Acked() == old(Acked()) + Span(offset, end)
    {
      var start := Max(offset, baseOffset);
      assert Span(offset, end) <= Span(0, baseOffset) + Span(start, end);
      if start >= end {
        return;
      }
      if start > baseOffset {
        Stash(start, end);
      } else {
        Raise(end);
      }
    }

    /** Takes an acknowledged chunk's bytes out of the queue while a probe's copies may be in it. */
    method Scrub(c: Chunk)
      requires Valid()
      modifies this`pending, this`probePending
      ensures Valid()
      ensures var scrub := c.length > 0 && old(probePending) && old(Points(pending)) != {};
        && Points(pending) == (if scrub then old(Points(pending)) - ChunkSpan(c) else old(Points(pending)))
        && probePending == (old(probePending) && !(scrub && Points(pending) == {}))
    {
      Nonempty(pending);
      if c.length > 0 && probePending && pending != [] {
        pending := RemoveRange(pending, Range(c.offset, c.offset + c.length));
        Nonempty(pending);
        if pending == [] {
          probePending := false;
        }
      }
    }

    method MaybeAdvanceState()
      requires Valid()
      modifies this`state
      ensures Valid() && Abs() == Advanced(old(Abs()))
    {
      FloorIsBase();
      if state == ResetSent {
        if reset.value.acked {
          state := ResetRecvd;
        }
        return;
      }
      if finAcked && finMarked && baseOffset == finalSize.value {
        state := DataRecvd;
      }
    }

    /** An acknowledged chunk: out of the queue, into the acknowledged set, and the state follows. */
    method AckChunk(c: Chunk)
      requires Valid() && c.offset + c.length <= writeOffset
      modifies this`pending, this`probePending, this`bytes, this`baseOffset, this`ackedAbove, this`state
      ensures Valid() && Abs() == Advanced(MarkAcked(old(Abs()), c))
    {
      ghost var h := Abs();
      Scrub(c);
      MarkAckedRange(c.offset, c.offset + c.length);
      assert Abs() == MarkAcked(h, c);
      MaybeAdvanceState();
    }

    /** An acknowledgement for packet `pn`. */
    method OnPacketAcked(pn: nat) returns (r: Result<(), StreamError>)
      requires Valid()
      modifies this`inFlight, this`finAcked, this`pending, this`probePending, this`bytes, this`baseOffset,
        this`ackedAbove, this`state
      ensures Valid()
      ensures if pn in old(inFlight) then r.Ok? && Abs() == AckStep(old(Abs()), pn)
              else r == Err(UnknownPacket) && Abs() == old(Abs())
    {
      if pn !in inFlight {
        return Err(UnknownPacket);
      }
      var c := inFlight[pn];
      ghost var h := Abs();
      inFlight := inFlight - {pn};
      finAcked := finAcked || c.fin;
      assert Abs() == h.(flight := h.flight - {pn}, finAcked := h.finAcked || c.fin);
      AckChunk(c);
      r := Ok(());
    }

    /** Takes the acknowledged ranges that reach into `[start, end)` out of the queue. */
    method Unqueue(start: nat, end: nat)
      requires Canonical(pending) && Canonical(ackedAbove)
      modifies this`pending
      ensures Canonical(pending)
      ensures Unqueued(old(Points(pending)), Points(pending), Span(start, end), Points(ackedAbove), Points(ackedAbove))
    {
      ghost var was, all := Points(pending), Points(ackedAbove);
      var i := 0;
      while i < |ackedAbove| && ackedAbove[i].offset < end
        invariant i <= |ackedAbove| && Canonical(pending)
        invariant Unqueued(was, Points(pending), Span(start, end), all, Points(ackedAbove[..i]))
      {
        UpTo(ackedAbove, i);
        if ackedAbove[i].end > start {
          pending := RemoveRange(pending, ackedAbove[i]);
        }
        i := i + 1;
      }
      BeyondEnd(ackedAbove, i, end);
    }

    /** Queues the unacknowledged part of a chunk again. */
    method AddUnackedPending(c: Chunk)
      requires Valid() && c.offset + c.length <= writeOffset
      modifies this`pending
      ensures Valid() && Requeues(old(Abs()), c, Points(pending))
    {
      var start, end := Max(c.offset, baseOffset), c.offset + c.length;
      ghost var h := Abs();
      if start < end {
        pending := InsertMerge(pending, Range(start, end));
        Unqueue(start, end);
      }
      RequeuedSets(h, c, baseOffset, Points(ackedAbove), Points(pending));
    }

    /** A lost chunk that the stream still wants. */
    method Requeue(c: Chunk)
      requires Valid() && c.offset + c.length <= writeOffset
      modifies this`pending, this`finInFlight
      ensures Valid() && Requeues(old(Abs()), c, Points(pending))
      ensures finInFlight == (old(finInFlight) && !(c.fin && !finAcked))
    {
      if c.length > 0 {
        AddUnackedPending(c);
      }
      if c.fin && !finAcked {
        finInFlight := false;
      }
    }

    /** A loss of packet `pn`: its bytes are queued again, unless a probe did that already or the stream is reset. */
    method OnPacketLost(pn: nat) returns (r: Result<(), StreamError>)
      requires Valid()
      modifies this`inFlight, this`pending, this`finInFlight
      ensures Valid()
      ensures if pn in old(inFlight) then r.Ok? && LossStep(old(Abs()), pn, Abs())
              else r == Err(UnknownPacket) && Abs() == old(Abs())
    {
      if pn !in inFlight {
        return Err(UnknownPacket);
      }
      var c := inFlight[pn];
      inFlight := inFlight - {pn};
      if reset == None && !c.requeued {
        Requeue(c);
      }
      r := Ok(());
    }

    /** A chunk's bytes and FIN go again for a probe, and the flag notes that copies are queued. */
    method RequeueForProbe(c: Chunk)
      requires Valid() && c.offset + c.length <= writeOffset
      modifies this`pending, this`probePending, this`finInFlight
      ensures Valid() && Requeues(old(Abs()), c, Points(pending))
      ensures probePending == (old(probePending) || (c.length > 0 && Points(pending) != {}))
      ensures finInFlight == (old(finInFlight) && !(c.fin && !finAcked))
    {
      Requeue(c);
      Nonempty(pending);
      probePending := probePending || (c.length > 0 && pending != []);
    }

    method MarkRequeued(pn: nat)
      requires Valid() && pn in inFlight
      modifies this`inFlight
      ensures Valid() && Abs() == old(Abs()).(flight := old(inFlight)[pn := old(inFlight)[pn].(requeued := true)])
    {
      inFlight := inFlight[pn := inFlight[pn].(requeued := true)];
    }

    /** The probe's work on a chunk no probe has queued yet. */
    method ProbeChunk(pn: nat)
      requires Valid() && pn in inFlight && !inFlight[pn].requeued
      modifies this`inFlight, this`pending, this`probePending, this`finInFlight
      ensures Valid() && ProbeStep(old(Abs()), pn, Abs())
    {
      var c := inFlight[pn];
      ghost var h := Abs();
      if reset == None {
        RequeueForProbe(c);
        ProbeStepFrom(h, pn, Points(pending), probePending, finInFlight);
      }
      MarkRequeued(pn);
    }

    /** A probe queues packet `pn`'s bytes again and leaves it in flight. */
    method OnPacketProbeRequeued(pn: nat) returns (r: Result<bool, StreamError>)
      requires Valid()
      modifies this`inFlight, this`pending, this`probePending, this`finInFlight
      ensures Valid()
      ensures if pn in old(inFlight) then ProbeStep(old(Abs()), pn, Abs()) else Abs() == old(Abs())
      ensures r == if pn in old(inFlight) then Ok(!old(inFlight)[pn].requeued && reset == None) else Err(UnknownPacket)
    {
      if pn !in inFlight {
        return Err(UnknownPacket);
      }
      if inFlight[pn].requeued {
        return Ok(false);
      }
      ProbeChunk(pn);
      r := Ok(reset == None);
    }

    method OnResetAcked()
      requires Valid()
      modifies this`reset, this`state
      ensures Valid() && Next(old(Abs()), EvResetAcked, Abs())
    {
      if reset.Some? {
        reset := Some(reset.value.(queued := true, acked := true));
        MaybeAdvanceState();
      }
    }
  }

  /** Only acknowledged points went, and none of those `done` is left inside the span. */
  ghost predicate Unqueued(was: set<nat>, now: set<nat>, span: set<nat>, acked: set<nat>, done: set<nat>) {
    now <= was && was - acked <= now && now * span * done == {}
  }

  lemma ProbeStepFrom(h: Half, pn: nat, pending: set<nat>, probePending: bool, finInFlight: bool)
    requires pn in h.flight && !h.flight[pn].requeued && h.reset == None
    requires var c := h.flight[pn];
      && Requeues(h, c, pending)
      && probePending == (h.probePending || (c.length > 0 && pending != {}))
      && finInFlight == (h.finInFlight && !(c.fin && !h.finAcked))
    ensures ProbeStep(h, pn, h.(flight := h.flight[pn := h.flight[pn].(requeued := true)], pending := pending,
                                probePending := probePending, finInFlight := finInFlight))
  {
  }

  /**
   Queueing the part of a chunk above the floor and taking the acknowledged ranges out queues its unacknowledged part.
   */
  lemma RequeuedSets(h: Half, c: Chunk, floor: nat, above: set<nat>, now: set<nat>)
    requires h.acked == Span(0, floor) + above
    requires var start, end := Max(c.offset, floor), c.offset + c.length;
      if start < end then Unqueued(h.pending + Span(start, end), now, Span(start, end), above, above)
      else now == h.pending
    ensures Requeues(h, c, now)
  {
    var start, end := Max(c.offset, floor), c.offset + c.length;
    forall x: nat
      ensures x in now && x !in h.acked <==> (x in h.pending || x in ChunkSpan(c)) && x !in h.acked
      ensures x in now && x in h.acked ==> x in h.pending
    {
      if start < end {
        assert x in now * Span(start, end) * above <==> x in now && x in Span(start, end) && x in above;
      }
    }
  }

  lemma UpTo(list: seq<Range>, i: nat)
    requires i < |list|
    ensures Points(list[..i + 1]) == Points(list[..i]) + SpanOf(list[i])
    ensures SpanOf(list[i]) <= Points(list)
  {
    assert list[..i + 1] == list[..i] + [list[i]] + [];
    PointsSplit(list[..i], list[i], []);
    assert list == list[..i] + [list[i]] + list[i + 1..];
    PointsSplit(list[..i], list[i], list[i + 1..]);
  }

  /** The ranges from the first one at or past `end` on hold nothing below it. */
  lemma BeyondEnd(list: seq<Range>, i: nat, end: nat)
    requires Canonical(list) && i <= |list| && (i < |list| ==> end <= list[i].offset)
    ensures forall x :: x in Points(list) && x < end ==> x in Points(list[..i])
  {
    assert list == list[..i] + list[i..];
    PointsConcat(list[..i], list[i..]);
    PointsFrom(list[i..], end);
  }

  /** Ranges whose points all lie above a bound start above it. */
  lemma StillAbove(list: seq<Range>, floor: nat)
    requires Canonical(list) && forall x :: x in Points(list) ==> floor < x
    ensures forall i :: 0 <= i < |list| ==> floor < list[i].offset
  {
    forall i | 0 <= i < |list|
      ensures floor < list[i].offset
    {
      assert list == list[..i] + [list[i]] + list[i + 1..];
      PointsSplit(list[..i], list[i], list[i + 1..]);
      assert list[i].offset in SpanOf(list[i]);
    }
  }

  /** One byte is written and sent with a FIN nobody asked for: the send is refused and the byte forgotten. */
  method RefusedFinWitness(b: Byte) returns (s: Stream, r: Result<(), StreamError>)
    ensures fresh(s) && s.Valid() && r == Err(InvalidChunk)
    ensures s.written == [b] && s.Abs().acked == {} && s.pending == [] && s.inFlight == map[]
    ensures !Covered(s.Abs())
  {
    s := new Stream(1);
    s.FloorIsBase();
    var accepted := s.Write([b]);
    WrittenOne(b, s.Abs());
    r := s.RecordSent(0, LAST);
    assert Span(0, 1) == {0} && ChunkSpan(LAST) == {0};
    Nonempty(s.pending);
    assert 0 in Span(0, 1);
  }

  lemma WrittenOne(b: Byte, h: Half)
    requires WriteStep(INITIAL, [b], 1, h)
    ensures h == Written1(b)
  {
    var floor: nat :| IsFloor(INITIAL.acked, floor)
      && h == Written(INITIAL, [b][..Min(1, Headroom(INITIAL, floor, 1))]);
    assert 0 < floor ==> 0 in INITIAL.acked;
    assert [b][..1] == [b] && INITIAL.written + [b] == [b] && Span(0, 1) == {0};
  }
}
