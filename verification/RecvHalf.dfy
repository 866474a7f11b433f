/** The receive half of a stream as a state machine: which bytes are held, how far the application has read. */
module RecvHalf {
  import opened Wrappers
  import opened Varint
  import opened RangeList

  datatype State = Recv | SizeKnown | DataRecvd | DataRead | ResetRecvd | ResetRead

  datatype Error = BeyondFinalSize | FinalSizeChanged | BufferLimitExceeded

  /** `have` are the bytes held and not yet read, by stream offset. */
  datatype Half = Half(
    have: map<nat, Byte>,
    readOffset: nat,
    endOffset: nat,
    finalSize: Option<nat>,
    finSeen: bool,
    reset: bool,
    state: State)

  const INITIAL: Half := Half(map[], 0, 0, None, false, false, Recv)

  const MAX_U64: nat := 0xFFFF_FFFF_FFFF_FFFF

  /** The offsets of a frame the application has not read yet. */
  ghost function Unread(h: Half, offset: nat, data: seq<Byte>): set<nat> {
    Span(Max(offset, h.readOffset), offset + |data|)
  }

  /** Adds a frame's bytes; where a byte is already held, the first one stays. */
  ghost function Merge(h: Half, offset: nat, data: seq<Byte>): map<nat, Byte> {
    map x | x in h.have.Keys + Unread(h, offset, data) ::
      if x in h.have then h.have[x] else if offset <= x < offset + |data| then data[x - offset] else 0
  }

  /** Everything up to the final size has been read. */
  ghost predicate AllRead(h: Half) {
    h.finSeen && h.finalSize == Some(h.readOffset) && h.have == map[]
  }

  ghost function Advanced(h: Half): Half {
    if h.reset || !h.finSeen then h
    else if AllRead(h) then (if h.state == DataRead then h else h.(state := DataRecvd))
    else if h.state == Recv then h.(state := SizeKnown)
    else h
  }

  /** Why a frame is refused; a refused frame changes nothing. */
  ghost function Refusal(h: Half, offset: nat, data: seq<Byte>, fin: bool, maxSpan: nat): Option<Error> {
    var end := offset + |data|;
    if h.reset then None
    else if end > MAX_U64 then Some(BufferLimitExceeded)
    else if h.finalSize.Some? && end > h.finalSize.value then Some(BeyondFinalSize)
    else if h.state == DataRecvd || h.state == DataRead then None
    else if fin && (if h.finalSize.Some? then h.finalSize.value != end else h.endOffset > end)
      then Some(FinalSizeChanged)
    else if Max(offset, h.readOffset) < end && end - h.readOffset > maxSpan then Some(BufferLimitExceeded)
    else None
  }

  /** A frame that is not refused. */
  ghost function Accept(h: Half, offset: nat, data: seq<Byte>, fin: bool): Half {
    if h.reset || h.state == DataRecvd || h.state == DataRead then h
    else
      var locked := if fin then h.(finalSize := Some(offset + |data|), finSeen := true,
                                   state := if h.state == Recv then SizeKnown else h.state) else h;
      Advanced(locked.(have := Merge(h, offset, data), endOffset := Max(h.endOffset, offset + |data|)))
  }

  /** The next `n` bytes, all held. */
  ghost function NextOut(h: Half, n: nat): (out: seq<Byte>)
    requires Span(h.readOffset, h.readOffset + n) <= h.have.Keys
    ensures |out| == n && forall i :: 0 <= i < n ==> out[i] == h.have[h.readOffset + i]
  {
    if n == 0 then []
    else
      assert h.readOffset + n - 1 in Span(h.readOffset, h.readOffset + n);
      NextOut(h, n - 1) + [h.have[h.readOffset + n - 1]]
  }

  /** The application reads the next `n` bytes. */
  ghost predicate ReadStep(h: Half, n: nat, out: seq<Byte>, h': Half) {
    && Span(h.readOffset, h.readOffset + n) <= h.have.Keys
    && |out| == n && (forall i :: 0 <= i < n ==> out[i] == h.have[h.readOffset + i])
    && h' == Advanced(Consumed(h, n))
  }

  /** The half with its next `n` bytes gone. */
  ghost function Consumed(h: Half, n: nat): Half {
    h.(have := h.have - Span(h.readOffset, h.readOffset + n), readOffset := h.readOffset + n)
  }

  lemma ConsumedKeeps(h: Half, n: nat)
    requires Inv(h) && Span(h.readOffset, h.readOffset + n) <= h.have.Keys
    ensures Inv(Advanced(Consumed(h, n)))
  {
    ReadKeeps(h, NextOut(h, n), Advanced(Consumed(h, n)));
  }

  ghost function ResetRefused(h: Half, finalSize: nat): bool {
    !h.reset && ((h.finSeen && h.finalSize.Some? && h.finalSize.value != finalSize) || h.endOffset > finalSize)
  }

  ghost function ResetStep(h: Half, finalSize: nat): Half {
    if h.reset then h
    else h.(reset := true, finalSize := Some(finalSize), state := ResetRecvd, have := map[])
  }

  // -- every run --

  datatype Event =
    | EvFrame(offset: nat, data: seq<Byte>, fin: bool, maxSpan: nat)
    | EvRead(out: seq<Byte>)
    | EvReset(finalSize: nat)
    | EvMarkRead

  ghost predicate Next(h: Half, e: Event, h': Half) {
    match e
    case EvFrame(offset, data, fin, maxSpan) =>
      h' == if Refusal(h, offset, data, fin, maxSpan) == None then Accept(h, offset, data, fin) else h
    case EvRead(out) => ReadStep(h, |out|, out, h')
    case EvReset(finalSize) => h' == if ResetRefused(h, finalSize) then h else ResetStep(h, finalSize)
    case EvMarkRead =>
      h' == if h.state == DataRecvd then h.(state := DataRead)
            else if h.state == ResetRecvd then h.(state := ResetRead)
            else h
  }

  /** What was read or is held. */
  ghost function Received(h: Half): set<nat> { Span(0, h.readOffset) + h.have.Keys }

  ghost predicate Inv(h: Half) {
    && (forall x :: x in h.have ==> h.readOffset <= x < h.endOffset)
    && h.readOffset <= h.endOffset
    && (h.finalSize.Some? ==> h.endOffset <= h.finalSize.value)
    && (h.finalSize.Some? <==> h.finSeen || h.reset)
    && (h.reset <==> h.state in {ResetRecvd, ResetRead}) && (h.reset ==> h.have == map[])
    && (h.state == Recv <==> !h.finSeen && !h.reset)
    && (h.state in {DataRecvd, DataRead} <==> AllRead(h) && !h.reset)
  }

  /** The frame carries its slice of the payload. */
  ghost predicate Slice(payload: seq<Byte>, offset: nat, data: seq<Byte>) {
    offset + |data| <= |payload| && data == payload[offset..offset + |data|]
  }

  /** Every byte held is the payload's. */
  ghost predicate Faithful(h: Half, payload: seq<Byte>) {
    h.readOffset <= |payload| && forall x :: x in h.have ==> x < |payload| && h.have[x] == payload[x]
  }

  lemma AcceptKeeps(h: Half, offset: nat, data: seq<Byte>, fin: bool, maxSpan: nat)
    requires Inv(h) && Refusal(h, offset, data, fin, maxSpan) == None
    ensures Inv(Accept(h, offset, data, fin))
    ensures !h.reset ==> Received(Accept(h, offset, data, fin)) == Received(h) + Span(offset, offset + |data|)
  {
    if !h.reset {
      assert Received(h) + Unread(h, offset, data) == Received(h) + Span(offset, offset + |data|);
      if h.state in {DataRecvd, DataRead} {
        assert Received(h) == Span(0, h.finalSize.value);
      } else {
        assert Merge(h, offset, data).Keys == h.have.Keys + Unread(h, offset, data);
      }
    }
  }

  lemma ReadKeeps(h: Half, out: seq<Byte>, h': Half)
    requires Inv(h) && ReadStep(h, |out|, out, h')
    ensures Inv(h') && Received(h') == Received(h) && h'.readOffset == h.readOffset + |out|
  {
    if out != [] {
      assert h.readOffset + |out| - 1 in h.have;
    }
  }

  lemma NextKeeps(h: Half, e: Event, h': Half)
    requires Inv(h) && Next(h, e, h')
    ensures Inv(h')
  {
    match e
    case EvFrame(offset, data, fin, maxSpan) =>
      if Refusal(h, offset, data, fin, maxSpan) == None {
        AcceptKeeps(h, offset, data, fin, maxSpan);
      }
    case EvRead(out) => ReadKeeps(h, out, h');
    case EvReset(finalSize) =>
    case EvMarkRead =>
  }

  /** A final size, once known, never changes, and nothing past it is ever accepted. */
  lemma FinalSizeLocked(h: Half, e: Event, h': Half)
    requires Inv(h) && Next(h, e, h') && h.finalSize.Some?
    ensures h'.finalSize == h.finalSize
    ensures forall x :: x in Received(h') && x !in Received(h) ==> x < h.finalSize.value
  {
    NextKeeps(h, e, h');
  }

  /** Frames that carry the payload keep the held bytes the payload's. */
  lemma AcceptFaithful(h: Half, offset: nat, data: seq<Byte>, fin: bool, payload: seq<Byte>)
    requires Faithful(h, payload) && Slice(payload, offset, data)
    ensures Faithful(Accept(h, offset, data, fin), payload)
  {
    forall x | x in Merge(h, offset, data) && x !in h.have
      ensures x < |payload| && Merge(h, offset, data)[x] == payload[x]
    {
      assert x in Unread(h, offset, data);
    }
  }

  /** What a faithful half reads out is the payload's next bytes. */
  lemma ReadFaithful(h: Half, out: seq<Byte>, h': Half, payload: seq<Byte>)
    requires Inv(h) && Faithful(h, payload) && ReadStep(h, |out|, out, h')
    ensures Faithful(h', payload) && h.readOffset + |out| <= |payload|
    ensures out == payload[h.readOffset..h.readOffset + |out|]
  {
    if out != [] {
      assert h.readOffset + |out| - 1 in h.have;
    }
    forall i | 0 <= i < |out|
      ensures out[i] == payload[h.readOffset + i]
    {
      assert h.readOffset + i in h.have;
    }
  }

  ghost predicate Run(hs: seq<Half>, es: seq<Event>) {
    && |hs| == |es| + 1 && hs[0] == INITIAL
    && forall i :: 0 <= i < |es| ==> Next(hs[i], es[i], hs[i + 1])
  }

  /** All frames of the run carry slices of one payload. */
  ghost predicate Carries(es: seq<Event>, payload: seq<Byte>) {
    forall i :: 0 <= i < |es| && es[i].EvFrame? ==> Slice(payload, es[i].offset, es[i].data)
  }

  /** What the application has read, in order. */
  ghost function ReadOut(es: seq<Event>): seq<Byte> {
    if es == [] then []
    else
      var last := es[|es| - 1];
      ReadOut(es[..|es| - 1]) + if last.EvRead? then last.out else []
  }

  /** The offsets of the frames a run accepted. */
  ghost function Accepted(hs: seq<Half>, es: seq<Event>): set<nat>
    requires |hs| == |es| + 1
  {
    if es == [] then {}
    else
      var n := |es| - 1;
      Accepted(hs[..n + 1], es[..n]) + Gained(hs[n], es[n])
  }

  /** The offsets an accepted frame carries. */
  ghost function Gained(h: Half, e: Event): set<nat> {
    if e.EvFrame? && Refusal(h, e.offset, e.data, e.fin, e.maxSpan) == None then Span(e.offset, e.offset + |e.data|)
    else {}
  }

  /**
   In every run, whatever the order, overlap and repetition of the frames: what was read is a prefix of the payload, and
   without a reset the bytes received are exactly those of the accepted frames.
   */
  lemma {:induction false} RunDelivers(hs: seq<Half>, es: seq<Event>, payload: seq<Byte>)
    requires Run(hs, es) && Carries(es, payload)
    ensures var h := hs[|es|];
      && Inv(h) && Faithful(h, payload)
      && ReadOut(es) == payload[..h.readOffset]
      && (!h.reset ==> Received(h) == Accepted(hs, es))
  {
    if es != [] {
      var n := |es| - 1;
      RunDelivers(hs[..n + 1], es[..n], payload);
      OneMore(hs[n], es[n], hs[n + 1], payload, ReadOut(es[..n]), Accepted(hs[..n + 1], es[..n]));
    }
  }

  lemma OneMore(h: Half, e: Event, h': Half, payload: seq<Byte>, out: seq<Byte>, accepted: set<nat>)
    requires Inv(h) && Faithful(h, payload) && Next(h, e, h') && (e.EvFrame? ==> Slice(payload, e.offset, e.data))
    requires out == payload[..h.readOffset] && (!h.reset ==> Received(h) == accepted)
    ensures Inv(h') && Faithful(h', payload)
    ensures out + (if e.EvRead? then e.out else []) == payload[..h'.readOffset]
    ensures !h'.reset ==> Received(h') == accepted + Gained(h, e)
  {
    NextKeeps(h, e, h');
    StepDelivers(h, e, h', payload);
    assert e.EvRead? ==> payload[..h'.readOffset] == payload[..h.readOffset] + e.out;
  }

  lemma FrameDelivers(h: Half, e: Event, payload: seq<Byte>)
    requires Inv(h) && Faithful(h, payload) && e.EvFrame? && Slice(payload, e.offset, e.data)
    requires Refusal(h, e.offset, e.data, e.fin, e.maxSpan) == None
    ensures var h' := Accept(h, e.offset, e.data, e.fin);
      Faithful(h', payload) && h'.readOffset == h.readOffset && h'.reset == h.reset
      && (!h'.reset ==> Received(h') == Received(h) + Gained(h, e))
  {
    AcceptKeeps(h, e.offset, e.data, e.fin, e.maxSpan);
    AcceptFaithful(h, e.offset, e.data, e.fin, payload);
  }

  lemma StepDelivers(h: Half, e: Event, h': Half, payload: seq<Byte>)
    requires Inv(h) && Faithful(h, payload) && Next(h, e, h')
    requires e.EvFrame? ==> Slice(payload, e.offset, e.data)
    ensures Faithful(h', payload) && (h.reset ==> h'.reset)
    ensures if e.EvRead?
      then h'.readOffset == h.readOffset + |e.out| <= |payload| && e.out == payload[h.readOffset..h'.readOffset]
            else h'.readOffset == h.readOffset
    ensures !h'.reset ==> Received(h') == Received(h) + Gained(h, e)
  {
    match e
    case EvFrame(offset, data, fin, maxSpan) =>
      if Refusal(h, offset, data, fin, maxSpan) == None {
        FrameDelivers(h, e, payload);
      }
    case EvRead(out) =>
      ReadFaithful(h, out, h', payload);
      ReadKeeps(h, out, h');
    case EvReset(finalSize) =>
    case EvMarkRead =>
  }

  /** Once every byte has been received, the next read can take all that is left, and then nothing is held. */
  lemma CompleteReads(h: Half, payload: seq<Byte>, out: seq<Byte>, h': Half)
    requires Inv(h) && Faithful(h, payload) && Received(h) == Span(0, |payload|)
    requires |out| == |payload| - h.readOffset && ReadStep(h, |out|, out, h')
    ensures out == payload[h.readOffset..] && h'.readOffset == |payload| && h'.have == map[]
  {
    ReadFaithful(h, out, h', payload);
    ReadKeeps(h, out, h');
    assert forall x :: x in h'.have ==> x in Received(h') && |payload| <= x;
  }

  lemma CompleteCanRead(h: Half, payload: seq<Byte>)
    requires Inv(h) && Received(h) == Span(0, |payload|)
    ensures h.readOffset <= |payload| && Span(h.readOffset, |payload|) == h.have.Keys
  {
    assert h.readOffset > 0 ==> h.readOffset - 1 in Received(h);
    forall x: nat
      ensures x in Span(h.readOffset, |payload|) <==> x in h.have
    {
      assert x in Received(h) <==> x < |payload|;
    }
  }

  // -- what is refused --

  /** Some final size agrees with what is known and with a frame that ends at `end`. */
  ghost predicate Consistent(h: Half, end: nat, fin: bool) {
    exists size: nat :: Agrees(h, end, fin, size)
  }

  ghost predicate Agrees(h: Half, end: nat, fin: bool, size: nat) {
    && (h.finalSize.Some? ==> h.finalSize.value == size)
    && h.endOffset <= size && end <= size && (fin ==> end == size)
  }

  /** No byte of the frame that is still to be read lies `maxSpan` or more past the read offset. */
  ghost predicate InWindow(h: Half, offset: nat, data: seq<Byte>, maxSpan: nat) {
    Span(offset, offset + |data|) - Span(0, h.readOffset) <= Span(0, h.readOffset + maxSpan)
  }

  lemma WindowEnd(h: Half, offset: nat, data: seq<Byte>, maxSpan: nat)
    ensures InWindow(h, offset, data, maxSpan) <==>
      (Max(offset, h.readOffset) < offset + |data| ==> offset + |data| - h.readOffset <= maxSpan)
  {
    var x := offset + |data| - 1;
    if Max(offset, h.readOffset) < offset + |data| && InWindow(h, offset, data, maxSpan) {
      assert x in Span(offset, offset + |data|) - Span(0, h.readOffset);
    }
  }

  lemma ConsistentIff(h: Half, end: nat, fin: bool)
    requires Inv(h)
    ensures Consistent(h, end, fin) <==>
      (if h.finalSize.Some? then end <= h.finalSize.value && (fin ==> end == h.finalSize.value)
       else fin ==> h.endOffset <= end)
  {
    var size := if h.finalSize.Some? then h.finalSize.value else if fin then end else Max(h.endOffset, end);
    if Consistent(h, end, fin) {
      var s: nat :| Agrees(h, end, fin, s);
    } else {
      assert !Agrees(h, end, fin, size);
    }
  }

  /**
   While a stream is being received a frame is refused exactly if no final size could agree with it, or a byte of it
   lies past the window that moves with the read offset; the window is looked at second.
   */
  lemma TakenIff(h: Half, offset: nat, data: seq<Byte>, fin: bool, maxSpan: nat)
    requires Inv(h) && h.state in {Recv, SizeKnown} && offset + |data| <= MAX_U64
    ensures var r := Refusal(h, offset, data, fin, maxSpan);
      && (r == None <==> Consistent(h, offset + |data|, fin) && InWindow(h, offset, data, maxSpan))
      && (r == Some(BufferLimitExceeded) <==>
            Consistent(h, offset + |data|, fin) && !InWindow(h, offset, data, maxSpan))
      && (r == Some(BeyondFinalSize) ==> h.finalSize.Some? && offset + |data| > h.finalSize.value)
      && (r == Some(FinalSizeChanged) ==> fin)
  {
    WindowEnd(h, offset, data, maxSpan);
    ConsistentIff(h, offset + |data|, fin);
  }

  /** A reset stream ignores every frame; a complete one takes no byte past its end and ignores the rest. */
  lemma TakenWhenOver(h: Half, offset: nat, data: seq<Byte>, fin: bool, maxSpan: nat)
    requires Inv(h) && h.state !in {Recv, SizeKnown}
    ensures var r := Refusal(h, offset, data, fin, maxSpan);
      && (h.reset ==> r == None)
      && (!h.reset && offset + |data| <= MAX_U64 ==>
            r == if offset + |data| <= h.finalSize.value then None else Some(BeyondFinalSize))
      && (r == None ==> Accept(h, offset, data, fin) == h)
  {
  }

  /** However far a stream has been read, a frame that fits the window at the read offset is taken. */
  lemma RoomIsUsed(h: Half, offset: nat, data: seq<Byte>, maxSpan: nat)
    requires Inv(h) && h.finalSize == None && offset + |data| <= Min(h.readOffset + maxSpan, MAX_U64)
    ensures Refusal(h, offset, data, false, maxSpan) == None
  {
    TakenIff(h, offset, data, false, maxSpan);
    ConsistentIff(h, offset + |data|, false);
  }

  /** A reset is refused exactly if its size cannot be the final one, and else ends the stream with that size. */
  lemma ResetTakenIff(h: Half, size: nat)
    requires Inv(h) && !h.reset
    ensures ResetRefused(h, size) <==> !Agrees(h, 0, false, size)
    ensures var h' := ResetStep(h, size);
      h'.reset && h'.finalSize == Some(size) && h'.have == map[] && h'.readOffset == h.readOffset
  {
  }

  /** What has been read to its end, or reset and noticed, stays so; a reset stream stays reset with its size. */
  lemma EndsAreFinal(h: Half, e: Event, h': Half)
    requires Inv(h) && Next(h, e, h')
    ensures h.state == DataRead && !e.EvReset? ==> h'.state == DataRead
    ensures h.state == DataRecvd && !e.EvReset? ==> h'.state == if e.EvMarkRead? then DataRead else DataRecvd
    ensures h.reset ==> h'.reset && h'.finalSize == h.finalSize && h'.have == map[]
    ensures h.state == ResetRead ==> h'.state == ResetRead
    ensures h.state == ResetRecvd ==> h'.state == if e.EvMarkRead? then ResetRead else ResetRecvd
    ensures h'.state == DataRead && h.state != DataRead ==> e.EvMarkRead? && h.state == DataRecvd
  {
    if e.EvRead? && e.out != [] {
      assert h.readOffset in h.have;
    }
  }

  /**
   A held byte stays as it first came until it is read or dropped by a reset, whatever later frames say; a new one is
   the frame's.
   */
  lemma FirstCopyStays(h: Half, e: Event, h': Half, x: nat)
    requires Inv(h) && Next(h, e, h')
    ensures x in h.have && x !in h'.have ==> x < h'.readOffset || h'.reset
    ensures x in h.have && x in h'.have ==> h'.have[x] == h.have[x]
    ensures x !in h.have && x in h'.have ==>
      e.EvFrame? && e.offset <= x < e.offset + |e.data| && h'.have[x] == e.data[x - e.offset]
  {
  }

  // -- how much is held --

  ghost predicate OneLimit(es: seq<Event>, maxSpan: nat) {
    forall i :: 0 <= i < |es| && es[i].EvFrame? ==> es[i].maxSpan == maxSpan
  }

  ghost predicate Held(h: Half, maxSpan: nat) {
    forall x :: x in h.have ==> x < h.readOffset + maxSpan
  }

  lemma NextKeepsHeld(h: Half, e: Event, h': Half, maxSpan: nat)
    requires Inv(h) && Held(h, maxSpan) && Next(h, e, h') && (e.EvFrame? ==> e.maxSpan == maxSpan)
    ensures Held(h', maxSpan)
  {
    match e
    case EvFrame(offset, data, fin, _) =>
      if h' != h {
        WindowEnd(h, offset, data, maxSpan);
        assert forall x :: x in h'.have ==> x in h.have || x in Unread(h, offset, data);
      }
    case _ =>
  }

  /** In every run with one limit, what is held lies within that many bytes of the read offset. */
  lemma {:induction false} RunWithinWindow(hs: seq<Half>, es: seq<Event>, maxSpan: nat)
    requires Run(hs, es) && OneLimit(es, maxSpan)
    ensures Inv(hs[|es|]) && Held(hs[|es|], maxSpan)
  {
    if es != [] {
      var n := |es| - 1;
      RunWithinWindow(hs[..n + 1], es[..n], maxSpan);
      NextKeeps(hs[n], es[n], hs[n + 1]);
      NextKeepsHeld(hs[n], es[n], hs[n + 1], maxSpan);
    }
  }

  /** Where the furthest frame accepted ended. */
  ghost function Furthest(hs: seq<Half>, es: seq<Event>): nat
    requires |hs| == |es| + 1
  {
    if es == [] then 0
    else
      var n := |es| - 1;
      var before, e := Furthest(hs[..n + 1], es[..n]), es[n];
      if e.EvFrame? && Refusal(hs[n], e.offset, e.data, e.fin, e.maxSpan) == None
        then Max(before, e.offset + |e.data|)
      else before
  }

  /** In every run without a reset the end offset is where the furthest accepted frame ended. */
  lemma {:induction false} RunHighWater(hs: seq<Half>, es: seq<Event>)
    requires Run(hs, es)
    ensures Inv(hs[|es|]) && (!hs[|es|].reset ==> hs[|es|].endOffset == Furthest(hs, es))
  {
    if es != [] {
      var n := |es| - 1;
      RunHighWater(hs[..n + 1], es[..n]);
      NextKeeps(hs[n], es[n], hs[n + 1]);
      EndsAreFinal(hs[n], es[n], hs[n + 1]);
      if !hs[n + 1].reset {
        EndMoves(hs[n], es[n], hs[n + 1]);
      }
    }
  }

  lemma EndMoves(h: Half, e: Event, h': Half)
    requires Inv(h) && Next(h, e, h') && !h'.reset
    ensures h'.endOffset == if e.EvFrame? && Refusal(h, e.offset, e.data, e.fin, e.maxSpan) == None
      then Max(h.endOffset, e.offset + |e.data|) else h.endOffset
  {
  }
}
