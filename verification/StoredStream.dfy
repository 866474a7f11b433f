/**
 The send half on the storage it lives in: the bytes between the floor and the end in a ring, the packets in flight in a
 ring with tombstones. What the stream decides it decides from them, and they stay what the stream takes them for.
 */
module StoredStream {
  import opened Wrappers
  import opened Varint
  import opened RangeList
  import opened InFlightMap
  import opened SendHalf
  import opened SendStream
  import opened SendByteBuffer

  datatype StoredError = Failed(error: StreamError) | OutOfMemory

  /** The buffer after the floor moved from `base` to `floor`. */
  lemma BytesFrom(written: seq<Byte>, base: nat, floor: nat)
    requires base <= floor <= |written|
    ensures written[floor..] == written[base..][floor - base..]
  {
  }

  lemma BytesMore(written: seq<Byte>, base: nat, more: seq<Byte>)
    requires base <= |written|
    ensures (written + more)[base..] == written[base..] + more
  {
  }

  /** An acknowledgement moves the floor up if at all, keeps what was written, and takes one packet out of flight. */
  lemma AckMoves(h: Half, pn: nat, base: nat, floor: nat)
    requires pn in h.flight && IsFloor(h.acked, base) && IsFloor(AckStep(h, pn).acked, floor)
    ensures base <= floor
    ensures AckStep(h, pn).written == h.written && AckStep(h, pn).flight == h.flight - {pn}
  {
    assert floor < base ==> floor in h.acked;
  }

  lemma LossTakes(h: Half, pn: nat, h': Half)
    requires LossStep(h, pn, h')
    ensures pn in h.flight && h'.flight == h.flight - {pn}
  {
  }

  lemma ProbeMarks(h: Half, pn: nat, h': Half)
    requires ProbeStep(h, pn, h') && !h.flight[pn].requeued
    ensures h'.flight == h.flight[pn := h.flight[pn].(requeued := true)]
  {
  }

  /** What recording a chunk does, and which chunks it refuses. */
  ghost predicate Recorded(h: Half, pn: nat, c: Chunk, h': Half, r: Result<(), StoredError>) {
    if Sendable(h, pn, c) then r == Ok(()) && h' == SendStep(h, pn, c)
    else r == Err(Failed(InvalidChunk)) && h' == if FinRefused(h, pn, c) then Unpended(h, c) else h
  }

  lemma RefusedBusy(h: Half, pn: nat, c: Chunk)
    ensures pn in h.flight ==> Recorded(h, pn, c, h, Err(Failed(InvalidChunk)))
  {
  }

  class Stored {
    const stream: Stream
    const ring: Buffer
    const packets: Map

    constructor (maxBuffered: nat)
      ensures Valid() && stream.Abs() == INITIAL && stream.maxBuffered == maxBuffered
      ensures fresh(stream) && fresh(ring) && fresh(ring.allocation) && fresh(packets) && fresh(packets.slots)
    {
      stream := new Stream(maxBuffered);
      ring := new Buffer();
      packets := new Map();
    }

    /** The ring holds the stream's bytes. */
    ghost predicate BytesKept()
      reads stream`bytes, ring, ring.allocation
    {
      ring.Valid() && ring.Contents() == stream.bytes
    }

    /** The map holds the stream's packets in flight. */
    ghost predicate PacketsKept()
      reads stream`inFlight, packets, packets.slots
    {
      packets.Valid() && packets.Entries() == stream.inFlight
    }

    ghost predicate Valid()
      reads stream, ring, ring.allocation, packets, packets.slots
    {
      stream.Valid() && BytesKept() && PacketsKept()
    }

    /** The bytes of a chunk at or above the floor, in one piece. */
    method ChunkBytes(c: Chunk) returns (data: seq<Byte>)
      requires stream.Valid() && BytesKept()
      requires (c.length > 0 ==> stream.baseOffset <= c.offset) && c.offset + c.length <= stream.writeOffset
      ensures data == stream.written[c.offset..c.offset + c.length]
    {
      if c.length == 0 {
        return [];
      }
      data := ring.ChunkBytesContiguous(c.offset - stream.baseOffset, c.length);
    }

    /** Takes as many bytes as the cap allows; without memory for them nothing happens. */
    method Write(data: seq<Byte>, memory: bool) returns (r: Result<nat, StoredError>)
      requires stream.Valid() && BytesKept()
      modifies stream`pending, stream`bytes, stream`written, stream`writeOffset, stream`state, ring, ring.allocation
      ensures stream.Valid() && BytesKept() && (ring.allocation == old(ring.allocation) || fresh(ring.allocation))
      ensures r == Err(Failed(StreamClosed)) <==> stream.finMarked || stream.reset.Some?
      ensures r.Err? ==> stream.Abs() == old(stream.Abs())
      ensures r.Err? ==> r.error == Failed(StreamClosed) || (r.error == OutOfMemory && !memory)
      ensures r.Ok? ==> Next(old(stream.Abs()), EvWrite(data, stream.maxBuffered), stream.Abs())
      ensures r.Ok? ==> r.value == Min(|data|, old(stream.Room()))
    {
      if stream.finMarked || stream.reset.Some? {
        return Err(Failed(StreamClosed));
      }
      var accept := Min(|data|, if ring.live < stream.maxBuffered then stream.maxBuffered - ring.live else 0);
      var ok := Append(data[..accept], memory);
      if !ok {
        return Err(OutOfMemory);
      }
      ghost var bytes := ring.Contents();
      Extend(data, accept);
      assert ring.Valid() && ring.Contents() == bytes;
      r := Ok(accept);
    }

    /** The stream's part of a write. */
    method Extend(data: seq<Byte>, accept: nat)
      requires stream.Valid() && !stream.finMarked && stream.reset == None && accept == Min(|data|, stream.Room())
      modifies stream`pending, stream`bytes, stream`written, stream`writeOffset, stream`state
      ensures stream.Valid() && stream.bytes == old(stream.bytes) + data[..accept]
      ensures Next(old(stream.Abs()), EvWrite(data, stream.maxBuffered), stream.Abs())
    {
      ghost var written, base := stream.written, stream.baseOffset;
      var w := stream.Write(data);
      BytesMore(written, base, data[..accept]);
    }

    method Append(data: seq<Byte>, memory: bool) returns (ok: bool)
      requires BytesKept()
      modifies ring, ring.allocation
      ensures ring.Valid() && (ring.allocation == old(ring.allocation) || fresh(ring.allocation))
      ensures ring.Contents() == if ok then stream.bytes + data else stream.bytes
      ensures memory ==> ok
    {
      ok := ring.AppendSlice(data, memory);
    }

    /** A chunk goes out as packet `pn`; without memory for its slot nothing happens. */
    method RecordSent(pn: nat, c: Chunk, memory: bool) returns (r: Result<(), StoredError>)
      requires stream.Valid() && PacketsKept() && !c.requeued
      modifies stream`pending, stream`probePending, stream`inFlight, stream`finInFlight, packets, packets.slots
      ensures stream.Valid() && PacketsKept() && (packets.slots == old(packets.slots) || fresh(packets.slots))
      ensures r == Err(OutOfMemory) ==> !memory && stream.Abs() == old(stream.Abs())
      ensures r != Err(OutOfMemory) ==> Recorded(old(stream.Abs()), pn, c, stream.Abs(), r)
    {
      var found, requeued := Lookup(pn);
      if found {
        RefusedBusy(stream.Abs(), pn, c);
        return Err(Failed(InvalidChunk));
      }
      r := Launch(pn, c, memory);
    }

    /** The same for a number that is not in flight. */
    method Launch(pn: nat, c: Chunk, memory: bool) returns (r: Result<(), StoredError>)
      requires stream.Valid() && PacketsKept() && !c.requeued && pn !in stream.inFlight
      modifies stream`pending, stream`probePending, stream`inFlight, stream`finInFlight, packets, packets.slots
      ensures stream.Valid() && PacketsKept() && (packets.slots == old(packets.slots) || fresh(packets.slots))
      ensures r == Err(OutOfMemory) ==> !memory && stream.Abs() == old(stream.Abs())
      ensures r != Err(OutOfMemory) ==> Recorded(old(stream.Abs()), pn, c, stream.Abs(), r)
    {
      var ok := MakeRoom(memory);
      if !ok {
        return Err(OutOfMemory);
      }
      r := Send(pn, c);
    }

    /** Makes sure of a slot for one more packet. */
    method MakeRoom(memory: bool) returns (ok: bool)
      requires PacketsKept()
      modifies packets, packets.slots
      ensures PacketsKept() && (packets.slots == old(packets.slots) || fresh(packets.slots))
      ensures (ok ==> packets.live < packets.slots.Length) && (memory ==> ok)
    {
      ok := packets.EnsureUnused(1, memory);
    }

    method Send(pn: nat, c: Chunk) returns (r: Result<(), StoredError>)
      requires stream.Valid() && PacketsKept() && !c.requeued && pn !in stream.inFlight
      requires packets.live < packets.slots.Length
      modifies stream`pending, stream`probePending, stream`inFlight, stream`finInFlight, packets`head, packets`span,
        packets`live, packets.slots
      ensures stream.Valid() && PacketsKept()
      ensures Recorded(old(stream.Abs()), pn, c, stream.Abs(), r) && r != Err(OutOfMemory)
    {
      var sent := stream.RecordSent(pn, c);
      if sent.Err? {
        return Err(Failed(sent.error));
      }
      packets.PutNoClobber(pn, c);
      r := Ok(());
    }

    /** An acknowledgement: the packet leaves its ring, and the bytes below the new floor leave theirs. */
    method OnPacketAcked(pn: nat) returns (r: Result<(), StreamError>)
      requires Valid()
      modifies stream`inFlight, stream`finAcked, stream`pending, stream`probePending, stream`bytes, stream`baseOffset,
        stream`ackedAbove, stream`state, packets`head, packets`span, packets`live, packets.slots, ring`head, ring`live
      ensures Valid()
      ensures if pn in old(stream.inFlight) then r.Ok? && stream.Abs() == AckStep(old(stream.Abs()), pn)
              else r == Err(UnknownPacket) && stream.Abs() == old(stream.Abs())
    {
      var gone;
      r, gone := TakeAck(pn);
      ring.DiscardPrefix(gone);
    }

    /** All but the ring: `gone` bytes are below the new floor. */
    method TakeAck(pn: nat) returns (r: Result<(), StreamError>, gone: nat)
      requires stream.Valid() && PacketsKept()
      modifies stream`inFlight, stream`finAcked, stream`pending, stream`probePending, stream`bytes, stream`baseOffset,
        stream`ackedAbove, stream`state, packets`head, packets`span, packets`live, packets.slots
      ensures stream.Valid() && PacketsKept()
      ensures gone <= old(|stream.bytes|) && stream.bytes == old(stream.bytes)[gone..]
      ensures if pn in old(stream.inFlight) then r.Ok? && stream.Abs() == AckStep(old(stream.Abs()), pn)
              else r == Err(UnknownPacket) && stream.Abs() == old(stream.Abs())
    {
      var found := Forget(pn);
      if !found {
        Absent(stream.inFlight, pn);
        return Err(UnknownPacket), 0;
      }
      ghost var left := packets.Entries();
      r, gone := Acknowledge(pn);
      assert packets.Valid() && packets.Entries() == left;
    }

    /** Takes a packet out of its ring. */
    method Forget(pn: nat) returns (found: bool)
      requires PacketsKept()
      modifies packets`head, packets`span, packets`live, packets.slots
      ensures packets.Valid() && packets.Entries() == stream.inFlight - {pn}
      ensures found <==> pn in stream.inFlight
    {
      var c := packets.FetchRemove(pn);
      found := c.Some?;
    }

    /** The stream's part. */
    method Acknowledge(pn: nat) returns (r: Result<(), StreamError>, gone: nat)
      requires stream.Valid() && pn in stream.inFlight
      modifies stream`inFlight, stream`finAcked, stream`pending, stream`probePending, stream`bytes, stream`baseOffset,
        stream`ackedAbove, stream`state
      ensures stream.Valid() && r.Ok? && stream.Abs() == AckStep(old(stream.Abs()), pn)
      ensures stream.inFlight == old(stream.inFlight) - {pn}
      ensures gone <= old(|stream.bytes|) && stream.bytes == old(stream.bytes)[gone..]
    {
      ghost var h := stream.Abs();
      var base := stream.baseOffset;
      stream.FloorIsBase();
      r := stream.OnPacketAcked(pn);
      stream.FloorIsBase();
      AckMoves(h, pn, base, stream.baseOffset);
      BytesFrom(stream.written, base, stream.baseOffset);
      gone := stream.baseOffset - base;
    }

    /** The stream's part of a loss. */
    method Lose(pn: nat) returns (r: Result<(), StreamError>)
      requires stream.Valid() && pn in stream.inFlight
      modifies stream`inFlight, stream`pending, stream`finInFlight
      ensures stream.Valid() && r.Ok? && LossStep(old(stream.Abs()), pn, stream.Abs())
      ensures stream.inFlight == old(stream.inFlight) - {pn}
    {
      ghost var h := stream.Abs();
      r := stream.OnPacketLost(pn);
      LossTakes(h, pn, stream.Abs());
    }

    /** A loss: the packet leaves its ring. */
    method OnPacketLost(pn: nat) returns (r: Result<(), StreamError>)
      requires stream.Valid() && PacketsKept()
      modifies stream`inFlight, stream`pending, stream`finInFlight, packets`head, packets`span, packets`live,
        packets.slots
      ensures stream.Valid() && PacketsKept()
      ensures if pn in old(stream.inFlight) then r.Ok? && LossStep(old(stream.Abs()), pn, stream.Abs())
              else r == Err(UnknownPacket) && stream.Abs() == old(stream.Abs())
    {
      var found := Forget(pn);
      if !found {
        Absent(stream.inFlight, pn);
        return Err(UnknownPacket);
      }
      ghost var left := packets.Entries();
      r := Lose(pn);
      assert packets.Valid() && packets.Entries() == left;
    }

    /** A probe: the packet stays in its ring, marked. */
    method OnPacketProbeRequeued(pn: nat) returns (r: Result<bool, StreamError>)
      requires stream.Valid() && PacketsKept()
      modifies stream`inFlight, stream`pending, stream`probePending, stream`finInFlight, packets.slots
      ensures stream.Valid() && PacketsKept()
      ensures if pn in old(stream.inFlight) then ProbeStep(old(stream.Abs()), pn, stream.Abs())
              else stream.Abs() == old(stream.Abs())
      ensures r == if pn in old(stream.inFlight) then Ok(!old(stream.inFlight)[pn].requeued && stream.reset == None)
                   else Err(UnknownPacket)
    {
      var found, requeued := Lookup(pn);
      if !found {
        return Err(UnknownPacket);
      }
      if requeued {
        return Ok(false);
      }
      r := ProbeMarked(pn);
    }

    method ProbeMarked(pn: nat) returns (r: Result<bool, StreamError>)
      requires stream.Valid() && PacketsKept() && pn in stream.inFlight && !stream.inFlight[pn].requeued
      modifies stream`inFlight, stream`pending, stream`probePending, stream`finInFlight, packets.slots
      ensures stream.Valid() && PacketsKept()
      ensures ProbeStep(old(stream.Abs()), pn, stream.Abs()) && r == Ok(stream.reset == None)
    {
      ghost var was := packets.Entries();
      r := Probe(pn);
      assert packets.Valid() && packets.Entries() == was;
      Mark(pn);
    }

    method Mark(pn: nat)
      requires packets.Valid() && pn in packets.Entries()
      requires stream.inFlight == packets.Entries()[pn := packets.Entries()[pn].(requeued := true)]
      modifies packets.slots
      ensures PacketsKept()
    {
      packets.MarkRequeued(pn);
    }

    method Lookup(pn: nat) returns (found: bool, requeued: bool)
      requires PacketsKept()
      ensures found <==> pn in stream.inFlight
      ensures found ==> requeued == stream.inFlight[pn].requeued
    {
      var i;
      found, i := packets.Find(pn);
      requeued := found && packets.At(i).value.requeued;
    }

    /** The stream's part of a probe. */
    method Probe(pn: nat) returns (r: Result<bool, StreamError>)
      requires stream.Valid() && pn in stream.inFlight && !stream.inFlight[pn].requeued
      modifies stream`inFlight, stream`pending, stream`probePending, stream`finInFlight
      ensures stream.Valid() && ProbeStep(old(stream.Abs()), pn, stream.Abs()) && r == Ok(stream.reset == None)
      ensures stream.inFlight == old(stream.inFlight)[pn := old(stream.inFlight)[pn].(requeued := true)]
    {
      ghost var h := stream.Abs();
      r := stream.OnPacketProbeRequeued(pn);
      ProbeMarks(h, pn, stream.Abs());
    }
  }
}
