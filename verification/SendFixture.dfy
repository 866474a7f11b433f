/** The send benchmark's run over a whole stream: acknowledge odd packets, lose even ones, send those again. */
module SendFixture {
  import opened Wrappers
  import opened Varint
  import opened RangeList
  import opened InFlightMap
  import opened SendHalf
  import opened SendStream

  const CHUNK: nat := 1024

  /** Bytes of the even chunks of pairs `i` to `n`. */
  ghost function EvenBytes(i: nat, n: nat): (s: set<nat>)
    ensures forall x: nat :: x in s <==> 2 * CHUNK * i <= x < 2 * CHUNK * n && x % (2 * CHUNK) < CHUNK
  {
    set x | x in Span(2 * CHUNK * i, 2 * CHUNK * n) && x % (2 * CHUNK) < CHUNK
  }

  /** Bytes of the odd chunks of pairs below `i`. */
  ghost function OddBytes(i: nat): (s: set<nat>)
    ensures forall x: nat :: x in s <==> x < 2 * CHUNK * i && x % (2 * CHUNK) >= CHUNK
  {
    set x | x in Span(0, 2 * CHUNK * i) && x % (2 * CHUNK) >= CHUNK
  }

  function Packet(pn: nat): Chunk { Chunk(CHUNK * pn, CHUNK, false, false) }

  /** No FIN, no probe, no reset; `n` pairs of chunks written. */
  ghost predicate Plain(h: Half, n: nat) {
    && |h.written| == 2 * CHUNK * n && h.reset == None && h.state == Send
    && !h.finMarked && !h.finInFlight && !h.finAcked && !h.probePending
  }

  ghost predicate Holds(h: Half, pn: nat) {
    pn in h.flight && h.flight[pn] == Packet(pn)
  }

  lemma PairSpans(i: nat)
    ensures ChunkSpan(Packet(2 * i)) == EvenBytes(i, i + 1)
    ensures OddBytes(i + 1) == OddBytes(i) + ChunkSpan(Packet(2 * i + 1))
  {
    forall x: nat
      ensures x in Span(2 * CHUNK * i, 2 * CHUNK * i + CHUNK) <==> x in EvenBytes(i, i + 1)
      ensures x in OddBytes(i + 1) <==> x in OddBytes(i) || x in Span(2 * CHUNK * i + CHUNK, 2 * CHUNK * i + 2 * CHUNK)
    {
      if 2 * CHUNK * i <= x < 2 * CHUNK * (i + 1) {
        Remainder(x, i);
      }
    }
  }

  lemma Remainder(x: nat, i: nat)
    requires 2 * CHUNK * i <= x < 2 * CHUNK * (i + 1)
    ensures x % (2 * CHUNK) == x - 2 * CHUNK * i
  {
  }

  lemma FirstOfSpan(lo: nat, hi: nat, offset: nat, end: nat)
    requires lo < hi && IsFirstRun(Span(lo, hi), offset, end)
    ensures offset == lo && end == hi
  {
    assert lo in Span(lo, hi);
    assert offset in Span(offset, end);
    assert hi - 1 in Span(lo, hi) && end !in Span(lo, hi);
    assert end - 1 in Span(offset, end);
  }

  lemma FirstOfEven(i: nat, n: nat, offset: nat, end: nat)
    requires i < n && IsFirstRun(EvenBytes(i, n), offset, end)
    ensures offset == 2 * CHUNK * i && end == offset + CHUNK
  {
    var s, lo := EvenBytes(i, n), 2 * CHUNK * i;
    Remainder(lo, i);
    Remainder(lo + CHUNK, i);
    assert lo in s && lo + CHUNK !in s;
    assert offset in Span(offset, end);
    assert lo + CHUNK !in Span(offset, end);
    if end < lo + CHUNK {
      Remainder(end, i);
    }
  }

  /** The next chunk of a queue that is one run. */
  lemma NextOfSpan(h: Half, k: nat, n: nat, c: Chunk)
    requires Plain(h, n) && k < 2 * n && h.pending == Span(CHUNK * k, 2 * CHUNK * n) && Offers(h, CHUNK, c)
    ensures c == Packet(k)
  {
    assert CHUNK * k in h.pending;
    var end: nat :| IsFirstRun(h.pending, c.offset, end) && c.length == Min(CHUNK, end - c.offset);
    FirstOfSpan(CHUNK * k, 2 * CHUNK * n, c.offset, end);
  }

  /** The next chunk of a queue of even chunks. */
  lemma NextOfEven(h: Half, i: nat, n: nat, c: Chunk)
    requires Plain(h, n) && i < n && h.pending == EvenBytes(i, n) && Offers(h, CHUNK, c)
    ensures c == Packet(2 * i)
  {
    Remainder(2 * CHUNK * i, i);
    assert 2 * CHUNK * i in h.pending;
    var end: nat :| IsFirstRun(h.pending, c.offset, end) && c.length == Min(CHUNK, end - c.offset);
    FirstOfEven(i, n, c.offset, end);
  }

  /** The packets in flight are those of `keep`, each with its own chunk. */
  ghost predicate Flying(flight: map<nat, Chunk>, keep: set<nat>) {
    flight.Keys == keep && forall pn :: pn in flight ==> flight[pn] == Packet(pn)
  }

  /** All of `2n` packets but the odd ones of the first `i` pairs. */
  ghost function OddDone(i: nat, n: nat): set<nat> {
    set pn: nat | pn < 2 * n && (pn % 2 == 0 || 2 * i <= pn)
  }

  /** The even packets of pairs `i` to `n`. */
  ghost function EvenFrom(i: nat, n: nat): set<nat> {
    set pn: nat | 2 * i <= pn < 2 * n && pn % 2 == 0
  }

  lemma OddStep(i: nat, n: nat)
    requires i < n
    ensures OddDone(i + 1, n) == OddDone(i, n) - {2 * i + 1} && 2 * i + 1 in OddDone(i, n)
  {
    assert (2 * i + 1) % 2 == 1 && (2 * i) % 2 == 0;
    forall pn: nat
      ensures pn in OddDone(i + 1, n) <==> pn in OddDone(i, n) && pn != 2 * i + 1
    {
      assert 2 * i <= pn < 2 * i + 2 ==> pn == 2 * i || pn == 2 * i + 1;
    }
  }

  lemma EvenStep(i: nat, n: nat)
    requires i < n
    ensures EvenFrom(i + 1, n) == EvenFrom(i, n) - {2 * i} && 2 * i in EvenFrom(i, n)
  {
    assert (2 * i + 1) % 2 == 1 && (2 * i) % 2 == 0;
    forall pn: nat
      ensures pn in EvenFrom(i + 1, n) <==> pn in EvenFrom(i, n) && pn != 2 * i
    {
      assert 2 * i <= pn < 2 * i + 2 ==> pn == 2 * i || pn == 2 * i + 1;
    }
  }

  lemma Ends(n: nat)
    ensures OddDone(0, n) == Span(0, 2 * n) && OddDone(n, n) == EvenFrom(0, n) && EvenFrom(n, n) == {}
  {
  }

  lemma FlyWithout(flight: map<nat, Chunk>, p: nat, keep: set<nat>)
    requires Flying(flight, keep) && p in keep
    ensures p in flight && flight[p] == Packet(p) && Flying(flight - {p}, keep - {p})
  {
  }

  lemma FlyWith(flight: map<nat, Chunk>, k: nat)
    requires Flying(flight, Span(0, k))
    ensures k !in flight && Flying(flight[k := Packet(k)], Span(0, k + 1))
  {
  }

  /** Peeks the next chunk and records it as packet `pn`. */
  method SendNext(s: Stream, pn: nat, ghost c: Chunk, ghost n: nat)
    requires s.Valid() && Plain(s.Abs(), n) && pn !in s.inFlight && s.Abs().pending != {}
    requires forall d :: Offers(s.Abs(), CHUNK, d) ==> d == c
    modifies s`pending, s`probePending, s`inFlight, s`finInFlight
    ensures s.Valid() && Plain(s.Abs(), n)
    ensures s.Abs() == old(s.Abs()).(pending := old(s.Abs().pending) - ChunkSpan(c), flight := old(s.inFlight)[pn := c])
  {
    var peeked := s.PeekChunk(CHUNK);
    OffersSomething(s.Abs(), CHUNK);
    var r := s.RecordSent(pn, peeked.value);
    OfferedIsSendable(old(s.Abs()), CHUNK, c, pn);
  }

  /** Every chunk goes out once, in order. */
  method SendAll(s: Stream, n: nat)
    requires s.Valid() && Plain(s.Abs(), n) && s.Abs().acked == {} && s.Abs().flight == map[]
    requires s.Abs().pending == Span(0, 2 * CHUNK * n)
    modifies s`pending, s`probePending, s`inFlight, s`finInFlight
    ensures s.Valid() && Plain(s.Abs(), n) && s.Abs().acked == {} && s.Abs().pending == {}
    ensures Flying(s.inFlight, Span(0, 2 * n))
  {
    for k := 0 to 2 * n
      invariant s.Valid() && Plain(s.Abs(), n)
      invariant s.Abs().acked == {} && s.Abs().pending == Span(CHUNK * k, 2 * CHUNK * n)
      invariant Flying(s.inFlight, Span(0, k))
    {
      SendInOrder(s, k, n);
    }
  }

  method SendInOrder(s: Stream, k: nat, ghost n: nat)
    requires s.Valid() && Plain(s.Abs(), n) && k < 2 * n
    requires s.Abs().acked == {} && s.Abs().pending == Span(CHUNK * k, 2 * CHUNK * n) && Flying(s.inFlight, Span(0, k))
    modifies s`pending, s`probePending, s`inFlight, s`finInFlight
    ensures s.Valid() && Plain(s.Abs(), n)
    ensures s.Abs().acked == {} && s.Abs().pending == Span(CHUNK * (k + 1), 2 * CHUNK * n)
    ensures Flying(s.inFlight, Span(0, k + 1))
  {
    SpanNext(s.Abs(), k, n);
    FlyWith(s.inFlight, k);
    SendNext(s, k, Packet(k), n);
  }

  lemma SpanNext(h: Half, k: nat, n: nat)
    requires Plain(h, n) && k < 2 * n && h.pending == Span(CHUNK * k, 2 * CHUNK * n)
    ensures h.pending != {} && forall c :: Offers(h, CHUNK, c) ==> c == Packet(k)
    ensures h.pending - ChunkSpan(Packet(k)) == Span(CHUNK * (k + 1), 2 * CHUNK * n)
  {
    assert CHUNK * k in h.pending;
    forall c | Offers(h, CHUNK, c)
      ensures c == Packet(k)
    {
      NextOfSpan(h, k, n, c);
    }
  }

  /** Without FIN and probe flag an acknowledgement only moves the chunk's bytes to the acknowledged set. */
  method AckOne(s: Stream, pn: nat, ghost n: nat)
    requires s.Valid() && Plain(s.Abs(), n) && pn in s.inFlight && !s.inFlight[pn].fin
    modifies s`inFlight, s`finAcked, s`pending, s`probePending, s`bytes, s`baseOffset, s`ackedAbove, s`state
    ensures s.Valid() && Plain(s.Abs(), n)
    ensures s.Abs() == old(s.Abs()).(
        flight := old(s.inFlight) - {pn}, acked := old(s.Abs().acked) + ChunkSpan(old(s.inFlight)[pn]))
  {
    var r := s.OnPacketAcked(pn);
  }

  /** The odd packets are acknowledged, above a floor that stays. */
  method AckOdd(s: Stream, n: nat)
    requires s.Valid() && Plain(s.Abs(), n) && s.Abs().acked == {} && s.Abs().pending == {}
    requires Flying(s.inFlight, Span(0, 2 * n))
    modifies s`inFlight, s`finAcked, s`pending, s`probePending, s`bytes, s`baseOffset, s`ackedAbove, s`state
    ensures s.Valid() && Plain(s.Abs(), n) && s.Abs().acked == OddBytes(n) && s.Abs().pending == {}
    ensures Flying(s.inFlight, EvenFrom(0, n))
  {
    Ends(n);
    for i := 0 to n
      invariant s.Valid() && Plain(s.Abs(), n)
      invariant s.Abs().acked == OddBytes(i) && s.Abs().pending == {}
      invariant Flying(s.inFlight, OddDone(i, n))
    {
      AckOddOne(s, i, n);
    }
  }

  method AckOddOne(s: Stream, i: nat, n: nat)
    requires s.Valid() && Plain(s.Abs(), n) && i < n && s.Abs().acked == OddBytes(i) && s.Abs().pending == {}
    requires Flying(s.inFlight, OddDone(i, n))
    modifies s`inFlight, s`finAcked, s`pending, s`probePending, s`bytes, s`baseOffset, s`ackedAbove, s`state
    ensures s.Valid() && Plain(s.Abs(), n) && s.Abs().acked == OddBytes(i + 1) && s.Abs().pending == {}
    ensures Flying(s.inFlight, OddDone(i + 1, n))
  {
    PairSpans(i);
    OddStep(i, n);
    FlyWithout(s.inFlight, 2 * i + 1, OddDone(i, n));
    AckOne(s, 2 * i + 1, n);
  }

  /** A lost plain packet's bytes, none of them acknowledged, are queued again. */
  method LoseOne(s: Stream, pn: nat, ghost n: nat)
    requires s.Valid() && Plain(s.Abs(), n) && Clean(s.Abs())
    requires pn in s.inFlight && s.inFlight[pn] == Packet(pn) && ChunkSpan(Packet(pn)) !! s.Abs().acked
    modifies s`inFlight, s`pending, s`finInFlight
    ensures s.Valid() && Plain(s.Abs(), n)
    ensures s.Abs() == old(s.Abs()).(
        flight := old(s.inFlight) - {pn}, pending := old(s.Abs().pending) + ChunkSpan(Packet(pn)))
  {
    ghost var h := s.Abs();
    var r := s.OnPacketLost(pn);
    RequeueKeepsClean(h, Packet(pn), s.Abs().pending);
    assert s.Abs().pending == s.Abs().pending - h.acked;
    assert h.pending + ChunkSpan(Packet(pn)) == (h.pending + ChunkSpan(Packet(pn))) - h.acked;
  }

  lemma EvenApart(i: nat, n: nat)
    ensures EvenBytes(0, i) !! OddBytes(n)
    ensures EvenBytes(0, i + 1) == EvenBytes(0, i) + ChunkSpan(Packet(2 * i))
    ensures EvenBytes(i, i + 1) !! OddBytes(n)
    ensures i < n ==> EvenBytes(i, n) == EvenBytes(i, i + 1) + EvenBytes(i + 1, n)
  {
    PairSpans(i);
  }

  /** The even packets are lost. */
  method LoseEven(s: Stream, n: nat)
    requires s.Valid() && Plain(s.Abs(), n) && s.Abs().acked == OddBytes(n) && s.Abs().pending == {}
    requires Flying(s.inFlight, EvenFrom(0, n))
    modifies s`inFlight, s`pending, s`finInFlight
    ensures s.Valid() && Plain(s.Abs(), n) && s.Abs().acked == OddBytes(n) && s.Abs().pending == EvenBytes(0, n)
    ensures s.Abs().flight == map[]
  {
    Ends(n);
    for i := 0 to n
      invariant s.Valid() && Plain(s.Abs(), n)
      invariant s.Abs().acked == OddBytes(n) && s.Abs().pending == EvenBytes(0, i)
      invariant Flying(s.inFlight, EvenFrom(i, n))
    {
      LoseEvenOne(s, i, n);
    }
  }

  method LoseEvenOne(s: Stream, i: nat, n: nat)
    requires s.Valid() && Plain(s.Abs(), n) && i < n && s.Abs().acked == OddBytes(n)
    requires s.Abs().pending == EvenBytes(0, i)
    requires Flying(s.inFlight, EvenFrom(i, n))
    modifies s`inFlight, s`pending, s`finInFlight
    ensures s.Valid() && Plain(s.Abs(), n) && s.Abs().acked == OddBytes(n) && s.Abs().pending == EvenBytes(0, i + 1)
    ensures Flying(s.inFlight, EvenFrom(i + 1, n))
  {
    PairSpans(i);
    EvenApart(i, n);
    EvenStep(i, n);
    FlyWithout(s.inFlight, 2 * i, EvenFrom(i, n));
    LoseOne(s, 2 * i, n);
  }

  /** The lost chunks go out again, each acknowledged at once: the floor jumps two chunks at a time. */
  method ResendEven(s: Stream, n: nat)
    requires s.Valid() && Plain(s.Abs(), n) && s.Abs().acked == OddBytes(n) && s.Abs().pending == EvenBytes(0, n)
    requires s.Abs().flight == map[]
    modifies s`inFlight, s`finInFlight, s`finAcked, s`pending, s`probePending, s`bytes, s`baseOffset,
      s`ackedAbove, s`state
    ensures s.Valid() && Plain(s.Abs(), n) && s.Abs().flight == map[] && s.Abs().pending == {}
    ensures s.Abs().acked == OddBytes(n) + EvenBytes(0, n)
  {
    for i := 0 to n
      invariant s.Valid() && Plain(s.Abs(), n) && s.Abs().flight == map[]
      invariant s.Abs().pending == EvenBytes(i, n) && s.Abs().acked == OddBytes(n) + EvenBytes(0, i)
    {
      ResendOne(s, 2 * n + i, i, n);
    }
  }

  lemma EvenNext(h: Half, i: nat, n: nat)
    requires Plain(h, n) && i < n && h.pending == EvenBytes(i, n)
    ensures h.pending != {} && forall c :: Offers(h, CHUNK, c) ==> c == Packet(2 * i)
    ensures h.pending - ChunkSpan(Packet(2 * i)) == EvenBytes(i + 1, n)
  {
    forall c | Offers(h, CHUNK, c)
      ensures c == Packet(2 * i)
    {
      NextOfEven(h, i, n, c);
    }
    PairSpans(i);
    EvenApart(i, n);
    Remainder(2 * CHUNK * i, i);
    assert 2 * CHUNK * i in h.pending;
  }

  method ResendOne(s: Stream, pn: nat, ghost i: nat, ghost n: nat)
    requires s.Valid() && Plain(s.Abs(), n) && s.Abs().flight == map[] && i < n
    requires s.Abs().pending == EvenBytes(i, n) && s.Abs().acked == OddBytes(n) + EvenBytes(0, i)
    modifies s`inFlight, s`finInFlight, s`finAcked, s`pending, s`probePending, s`bytes, s`baseOffset,
      s`ackedAbove, s`state
    ensures s.Valid() && Plain(s.Abs(), n) && s.Abs().flight == map[]
    ensures s.Abs().pending == EvenBytes(i + 1, n) && s.Abs().acked == OddBytes(n) + EvenBytes(0, i + 1)
  {
    EvenNext(s.Abs(), i, n);
    EvenApart(i, n);
    SendNext(s, pn, Packet(2 * i), n);
    AckOne(s, pn, n);
  }

  /** With everything under way, the odd packets are acknowledged and the even ones lost and sent again. */
  method Settle(s: Stream, n: nat)
    requires s.Valid() && Plain(s.Abs(), n) && s.Abs().acked == {} && s.Abs().pending == {}
    requires Flying(s.inFlight, Span(0, 2 * n))
    modifies s`inFlight, s`finInFlight, s`finAcked, s`pending, s`probePending, s`bytes, s`baseOffset,
      s`ackedAbove, s`state
    ensures s.Valid() && s.baseOffset == |s.written| && s.inFlight == map[]
    ensures s.bytes == [] && s.pending == [] && s.ackedAbove == []
  {
    AckOdd(s, n);
    LoseEven(s, n);
    ResendEven(s, n);
    AllAcked(s, n);
  }

  /**
   The whole run, for every number of chunk pairs: everything is acknowledged and nothing is left in the buffer, the
   queue, the packets in flight or the ranges above the floor.
   */
  method AckOddLoseEven(payload: seq<Byte>, n: nat) returns (s: Stream)
    requires |payload| == 2 * CHUNK * n && n > 0
    ensures fresh(s) && s.Valid() && s.written == payload
    ensures s.baseOffset == |payload| && s.bytes == [] && s.pending == [] && s.ackedAbove == [] && s.inFlight == map[]
  {
    s := new Stream(|payload|);
    s.FloorIsBase();
    var accepted := s.Write(payload);
    WroteAll(payload, n, s.Abs());
    SendAll(s, n);
    Settle(s, n);
  }

  lemma EmptyFloor(acked: set<nat>, floor: nat)
    requires acked == {} && IsFloor(acked, floor)
    ensures floor == 0
  {
    assert 0 < floor ==> 0 in acked;
  }

  lemma WroteAll(payload: seq<Byte>, n: nat, h: Half)
    requires |payload| == 2 * CHUNK * n && n > 0 && WriteStep(INITIAL, payload, |payload|, h)
    ensures Plain(h, n) && h.written == payload && h.acked == {} && h.flight == map[]
    ensures h.pending == Span(0, 2 * CHUNK * n)
  {
    var floor: nat :| IsFloor(INITIAL.acked, floor)
      && h == Written(INITIAL, payload[..Min(|payload|, Headroom(INITIAL, floor, |payload|))]);
    EmptyFloor(INITIAL.acked, floor);
    assert payload[..|payload|] == payload && INITIAL.written + payload == payload;
  }

  /** With every byte acknowledged the floor is the end, so nothing lies above it. */
  lemma AllAcked(s: Stream, n: nat)
    requires s.Valid() && Plain(s.Abs(), n) && s.Abs().acked == OddBytes(n) + EvenBytes(0, n) && s.Abs().pending == {}
    ensures s.baseOffset == |s.written| && s.bytes == [] && s.pending == [] && s.ackedAbove == []
  {
    s.FloorIsBase();
    EveryByteAcked(n);
    AtEnd(s.Abs(), s.baseOffset);
    Nonempty(s.pending);
    NothingAbove(s.ackedAbove, s.baseOffset);
  }

  lemma AtEnd(h: Half, floor: nat)
    requires Bounded(h) && IsFloor(h.acked, floor) && floor <= |h.written|
    requires forall x: nat :: x < |h.written| ==> x in h.acked
    ensures floor == |h.written|
  {
  }

  lemma NothingAbove(list: seq<Range>, floor: nat)
    requires Canonical(list) && forall i :: 0 <= i < |list| ==> floor <= list[i].offset
    requires forall x :: x in Points(list) ==> x < floor
    ensures list == []
  {
    Nonempty(list);
    PointsFrom(list, floor);
  }

  /** Odd and even chunks together hold every byte. */
  lemma EveryByteAcked(n: nat)
    ensures forall x: nat :: x < 2 * CHUNK * n ==> x in OddBytes(n) + EvenBytes(0, n)
  {
    forall x: nat | x < 2 * CHUNK * n
      ensures x in OddBytes(n) + EvenBytes(0, n)
    {
    }
  }
}
