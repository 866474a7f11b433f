/**
 A stream end to end: a sender, a receiver, and a network that may drop, repeat and reorder packets. Losses are declared
 by the sender whenever it likes; an acknowledgement is only ever for a packet the receiver took.
 */
module StreamTransfer {
  import opened Wrappers
  import opened Varint
  import opened RangeList
  import opened InFlightMap
  import S = SendHalf
  import R = RecvHalf

  /** `sent` remembers every packet that ever left, `received` the ones the receiver took, `readOut` what was read. */
  datatype World = World(
    send: S.Half,
    recv: R.Half,
    sent: map<nat, Chunk>,
    received: set<nat>,
    readOut: seq<Byte>)

  const INITIAL: World := World(S.INITIAL, R.INITIAL, map[], {}, [])

  datatype Step =
    | Local(e: S.Event)
    | Arrive(pn: nat, maxSpan: nat)
    | Acknowledge(pn: nat)
    | ArriveReset
    | AcknowledgeReset
    | Read(out: seq<Byte>)

  /** The frame a packet carries. */
  ghost function Frame(w: World, pn: nat, maxSpan: nat): R.Event
    requires pn in w.sent && w.sent[pn].offset + w.sent[pn].length <= |w.send.written|
  {
    var c := w.sent[pn];
    R.EvFrame(c.offset, w.send.written[c.offset..c.offset + c.length], c.fin, maxSpan)
  }

  ghost predicate Taken(w: World, e: R.Event)
    requires e.EvFrame?
  {
    R.Refusal(w.recv, e.offset, e.data, e.fin, e.maxSpan) == None
  }

  ghost predicate Next(w: World, step: Step, w': World) {
    match step
    case Local(e) =>
      && !e.EvAck? && !e.EvResetAcked? && (e.EvSend? ==> e.pn !in w.sent)
      && S.Next(w.send, e, w'.send)
      && w' == w.(send := w'.send, sent := if e.EvSend? then w.sent[e.pn := e.chunk] else w.sent)
    case Arrive(pn, maxSpan) =>
      && pn in w.sent && w.sent[pn].offset + w.sent[pn].length <= |w.send.written|
      && R.Next(w.recv, Frame(w, pn, maxSpan), w'.recv)
      && w' == w.(
           recv := w'.recv, received := if Taken(w, Frame(w, pn, maxSpan)) then w.received + {pn} else w.received)
    case Acknowledge(pn) =>
      pn in w.received && S.Next(w.send, S.EvAck(pn), w'.send) && w' == w.(send := w'.send)
    case ArriveReset =>
      && w.send.reset.Some?
      && R.Next(w.recv, R.EvReset(w.send.reset.value.finalSize), w'.recv) && w' == w.(recv := w'.recv)
    case AcknowledgeReset =>
      w.recv.reset && S.Next(w.send, S.EvResetAcked, w'.send) && w' == w.(send := w'.send)
    case Read(out) =>
      R.Next(w.recv, R.EvRead(out), w'.recv) && w' == w.(recv := w'.recv, readOut := w.readOut + out)
  }

  ghost predicate Run(ws: seq<World>, steps: seq<Step>) {
    && |ws| == |steps| + 1 && ws[0] == INITIAL
    && forall i :: 0 <= i < |steps| ==> Next(ws[i], steps[i], ws[i + 1])
  }

  // -- the invariant --

  /** Packets on the way carry what was written, and what is in flight is one of them. */
  ghost predicate PacketsHonest(send: S.Half, sent: map<nat, Chunk>) {
    && (forall pn :: pn in sent ==> sent[pn].offset + sent[pn].length <= |send.written|)
    && (forall pn :: pn in sent && sent[pn].fin ==>
          send.finMarked && sent[pn].offset + sent[pn].length == |send.written|)
    && (forall pn :: pn in send.flight ==>
          pn in sent && send.flight[pn] == sent[pn].(requeued := send.flight[pn].requeued))
  }

  /** The receiver holds only what was written, and a final size only once the sender has fixed it. */
  ghost predicate ReceiverHonest(send: S.Half, recv: R.Half) {
    && R.Faithful(recv, send.written) && recv.endOffset <= |send.written|
    && (recv.finalSize.Some? ==> recv.finalSize == Some(|send.written|))
    && (recv.finSeen ==> send.finMarked)
    && (recv.reset ==> send.reset.Some?)
  }

  /** The packets taken have been stored. */
  ghost predicate TakenStored(recv: R.Half, sent: map<nat, Chunk>, received: set<nat>) {
    forall pn :: pn in received ==>
      pn in sent && (!recv.reset ==> S.ChunkSpan(sent[pn]) <= R.Received(recv) && (sent[pn].fin ==> recv.finSeen))
  }

  /** What the sender believes delivered is with the receiver. */
  ghost predicate AckedReceived(send: S.Half, recv: R.Half) {
    !recv.reset ==> send.acked <= R.Received(recv) && (send.finAcked ==> recv.finSeen)
  }

  ghost predicate ResetFixed(send: S.Half) {
    send.reset.Some? ==> send.reset.value.finalSize == |send.written|
  }

  ghost predicate Inv(w: World) {
    && S.Inv(w.send) && R.Inv(w.recv) && ResetFixed(w.send)
    && PacketsHonest(w.send, w.sent)
    && ReceiverHonest(w.send, w.recv)
    && TakenStored(w.recv, w.sent, w.received)
    && AckedReceived(w.send, w.recv)
    && w.readOut == w.send.written[..w.recv.readOffset]
  }

  /** Whatever the sender does, written bytes stay written; no more are written once the size is fixed. */
  lemma LocalFrame(h: S.Half, e: S.Event, h': S.Half)
    requires S.Inv(h) && S.Next(h, e, h') && ResetFixed(h)
    ensures |h.written| <= |h'.written| && h'.written[..|h.written|] == h.written
    ensures h.finMarked || h.reset.Some? ==> h'.written == h.written
    ensures (h.finMarked ==> h'.finMarked) && (h.reset.Some? ==> h'.reset.Some?) && ResetFixed(h')
    ensures !e.EvAck? ==> h'.acked == h.acked && h'.finAcked == h.finAcked
  {
  }

  /** A packet enters flight only by being sent. */
  lemma LocalFlight(h: S.Half, e: S.Event, h': S.Half)
    requires S.Next(h, e, h')
    ensures forall pn :: pn in h'.flight ==>
      (e.EvSend? && pn == e.pn && h'.flight[pn] == e.chunk)
      || (pn in h.flight && h'.flight[pn] == h.flight[pn].(requeued := h'.flight[pn].requeued))
  {
    match e
    case EvWrite(data, maxBuffered) => assert h'.flight == h.flight;
    case EvSend(pn, c) => assert h'.flight == h.flight[pn := c];
    case EvAck(pn) => assert h'.flight == h.flight - {pn};
    case EvLost(pn) => assert h'.flight == h.flight - {pn};
    case EvProbe(pn) => assert h'.flight == h.flight || h'.flight == h.flight[pn := h.flight[pn].(requeued := true)];
    case _ => assert h'.flight == h.flight;
  }

  lemma LocalPackets(w: World, e: S.Event, send': S.Half, sent': map<nat, Chunk>)
    requires S.Inv(w.send) && ResetFixed(w.send) && PacketsHonest(w.send, w.sent) && S.Next(w.send, e, send')
    requires S.Inv(send')
    requires e.EvSend? ==> e.pn !in w.sent
    requires sent' == if e.EvSend? then w.sent[e.pn := e.chunk] else w.sent
    ensures PacketsHonest(send', sent')
  {
    LocalFrame(w.send, e, send');
    LocalFlight(w.send, e, send');
    if e.EvSend? {
      assert e.pn in send'.flight && send'.flight[e.pn] == e.chunk;
    }
  }

  lemma FaithfulGrows(recv: R.Half, was: seq<Byte>, now: seq<Byte>)
    requires R.Faithful(recv, was) && |was| <= |now| && now[..|was|] == was
    ensures R.Faithful(recv, now) && now[..recv.readOffset] == was[..recv.readOffset]
  {
    assert forall x: nat :: x < |was| ==> now[x] == now[..|was|][x];
  }

  lemma LocalKeeps(w: World, e: S.Event, w': World)
    requires Inv(w) && Next(w, Local(e), w')
    ensures Inv(w')
  {
    S.NextKeeps(w.send, e, w'.send);
    LocalFrame(w.send, e, w'.send);
    LocalPackets(w, e, w'.send, w'.sent);
    FaithfulGrows(w.recv, w.send.written, w'.send.written);
  }

  lemma AckKeeps(w: World, pn: nat, w': World)
    requires Inv(w) && Next(w, Acknowledge(pn), w')
    ensures Inv(w')
  {
    S.NextKeeps(w.send, S.EvAck(pn), w'.send);
    LocalFrame(w.send, S.EvAck(pn), w'.send);
    LocalPackets(w, S.EvAck(pn), w'.send, w'.sent);
    assert w'.send.acked == w.send.acked + S.ChunkSpan(w.sent[pn]);
  }

  lemma ResetAckKeeps(w: World, w': World)
    requires Inv(w) && Next(w, AcknowledgeReset, w')
    ensures Inv(w')
  {
    S.NextKeeps(w.send, S.EvResetAcked, w'.send);
  }

  /** An honest sender's frame is never refused over the final size; only the receiver's buffer limit can refuse it. */
  lemma OnlyTheLimitRefuses(w: World, pn: nat, maxSpan: nat)
    requires Inv(w) && pn in w.sent
    ensures var f := Frame(w, pn, maxSpan);
      R.Refusal(w.recv, f.offset, f.data, f.fin, maxSpan) in {None, Some(R.BufferLimitExceeded)}
  {
  }

  /** The final size of an honest reset is never refused. */
  lemma ResetIsTaken(w: World)
    requires Inv(w) && w.send.reset.Some?
    ensures !R.ResetRefused(w.recv, w.send.reset.value.finalSize)
  {
  }

  /** A frame taken leaves nothing it carries missing and takes nothing away. */
  lemma FrameStored(recv: R.Half, c: Chunk, data: seq<Byte>, maxSpan: nat)
    requires R.Inv(recv) && |data| == c.length && R.Refusal(recv, c.offset, data, c.fin, maxSpan) == None
    ensures var r := R.Accept(recv, c.offset, data, c.fin);
      && R.Inv(r) && r.readOffset == recv.readOffset && r.reset == recv.reset
      && (!recv.reset ==> R.Received(r) == R.Received(recv) + S.ChunkSpan(c))
      && (recv.finSeen ==> r.finSeen) && r.endOffset <= Max(recv.endOffset, c.offset + c.length)
      && (r.finSeen ==> recv.finSeen || c.fin)
      && (r.finalSize.Some? ==> r.finalSize == recv.finalSize || (c.fin && r.finalSize == Some(c.offset + c.length)))
  {
    R.AcceptKeeps(recv, c.offset, data, c.fin, maxSpan);
  }

  /** A FIN taken is a FIN seen. */
  lemma FinStored(send: S.Half, recv: R.Half, c: Chunk, data: seq<Byte>, maxSpan: nat)
    requires R.Inv(recv) && ReceiverHonest(send, recv) && !recv.reset && c.fin
    requires |data| == c.length && R.Refusal(recv, c.offset, data, c.fin, maxSpan) == None
    ensures R.Accept(recv, c.offset, data, c.fin).finSeen
  {
  }

  lemma TakenStores(send: S.Half, recv: R.Half, c: Chunk, data: seq<Byte>, maxSpan: nat)
    requires R.Inv(recv) && ReceiverHonest(send, recv) && |data| == c.length
    requires R.Refusal(recv, c.offset, data, c.fin, maxSpan) == None
    ensures var r := R.Accept(recv, c.offset, data, c.fin);
      && R.Inv(r) && r.readOffset == recv.readOffset && r.reset == recv.reset
      && (!recv.reset ==> R.Received(r) == R.Received(recv) + S.ChunkSpan(c))
      && (recv.finSeen ==> r.finSeen) && (!recv.reset && c.fin ==> r.finSeen)
  {
    FrameStored(recv, c, data, maxSpan);
    if !recv.reset && c.fin {
      FinStored(send, recv, c, data, maxSpan);
    }
  }

  lemma StillStored(was: R.Half, now: R.Half, sent: map<nat, Chunk>, received: set<nat>, pn: nat)
    requires TakenStored(was, sent, received) && pn in sent && now.reset == was.reset
    requires !was.reset ==> R.Received(now) == R.Received(was) + S.ChunkSpan(sent[pn])
    requires was.finSeen ==> now.finSeen
    requires !was.reset && sent[pn].fin ==> now.finSeen
    ensures TakenStored(now, sent, received + {pn})
  {
  }

  lemma TakenHonest(send: S.Half, recv: R.Half, c: Chunk, data: seq<Byte>, maxSpan: nat)
    requires R.Inv(recv) && ReceiverHonest(send, recv)
    requires R.Slice(send.written, c.offset, data) && |data| == c.length
    requires c.fin ==> send.finMarked && c.offset + c.length == |send.written|
    requires R.Refusal(recv, c.offset, data, c.fin, maxSpan) == None
    ensures ReceiverHonest(send, R.Accept(recv, c.offset, data, c.fin))
  {
    FrameStored(recv, c, data, maxSpan);
    R.AcceptFaithful(recv, c.offset, data, c.fin, send.written);
  }

  lemma ArriveTaken(w: World, pn: nat, maxSpan: nat, c: Chunk, data: seq<Byte>, r: R.Half)
    requires Inv(w) && pn in w.sent && c == w.sent[pn] && data == w.send.written[c.offset..c.offset + c.length]
    requires R.Refusal(w.recv, c.offset, data, c.fin, maxSpan) == None && r == R.Accept(w.recv, c.offset, data, c.fin)
    ensures Inv(w.(recv := r, received := w.received + {pn}))
  {
    TakenStores(w.send, w.recv, c, data, maxSpan);
    StillStored(w.recv, r, w.sent, w.received, pn);
    TakenHonest(w.send, w.recv, c, data, maxSpan);
  }

  /** An arrival is a frame taken, or nothing at all. */
  lemma ArriveIs(w: World, pn: nat, maxSpan: nat, w': World)
    returns (c: Chunk, data: seq<Byte>)
    requires Next(w, Arrive(pn, maxSpan), w')
    ensures pn in w.sent && c == w.sent[pn] && c.offset + c.length <= |w.send.written|
    ensures data == w.send.written[c.offset..c.offset + c.length]
    ensures if R.Refusal(w.recv, c.offset, data, c.fin, maxSpan) == None
      then w' == w.(recv := R.Accept(w.recv, c.offset, data, c.fin), received := w.received + {pn})
      else w' == w
  {
    c := w.sent[pn];
    data := w.send.written[c.offset..c.offset + c.length];
    assert Frame(w, pn, maxSpan) == R.EvFrame(c.offset, data, c.fin, maxSpan);
  }

  lemma ArriveKeeps(w: World, pn: nat, maxSpan: nat, w': World)
    requires Inv(w) && Next(w, Arrive(pn, maxSpan), w')
    ensures Inv(w')
  {
    var c, data := ArriveIs(w, pn, maxSpan, w');
    if R.Refusal(w.recv, c.offset, data, c.fin, maxSpan) == None {
      ArriveTaken(w, pn, maxSpan, c, data, R.Accept(w.recv, c.offset, data, c.fin));
    }
  }

  lemma ReadKeeps(w: World, out: seq<Byte>, w': World)
    requires Inv(w) && Next(w, Read(out), w')
    ensures Inv(w')
  {
    R.ReadKeeps(w.recv, out, w'.recv);
    R.ReadFaithful(w.recv, out, w'.recv, w.send.written);
    var t := w.send.written;
    assert t[..w'.recv.readOffset] == t[..w.recv.readOffset] + out;
  }

  lemma ArriveResetKeeps(w: World, w': World)
    requires Inv(w) && Next(w, ArriveReset, w')
    ensures Inv(w')
  {
    R.NextKeeps(w.recv, R.EvReset(w.send.reset.value.finalSize), w'.recv);
  }

  lemma NextKeeps(w: World, step: Step, w': World)
    requires Inv(w) && Next(w, step, w')
    ensures Inv(w')
  {
    match step
    case Local(e) => LocalKeeps(w, e, w');
    case Arrive(pn, maxSpan) => ArriveKeeps(w, pn, maxSpan, w');
    case Acknowledge(pn) => AckKeeps(w, pn, w');
    case ArriveReset => ArriveResetKeeps(w, w');
    case AcknowledgeReset => ResetAckKeeps(w, w');
    case Read(out) => ReadKeeps(w, out, w');
  }

  lemma {:induction false} RunKeeps(ws: seq<World>, steps: seq<Step>)
    requires Run(ws, steps)
    ensures Inv(ws[|steps|])
  {
    if steps == [] {
      S.RunKeeps([S.INITIAL], []);
    } else {
      var n := |steps| - 1;
      RunKeeps(ws[..n + 1], steps[..n]);
      NextKeeps(ws[n], steps[n], ws[n + 1]);
    }
  }

  // -- what it means for the two applications --

  /** In every run, what was read is a prefix of what was written, and every acknowledged byte is with the receiver. */
  lemma ReadsAPrefix(ws: seq<World>, steps: seq<Step>)
    requires Run(ws, steps)
    ensures var w := ws[|steps|];
      && w.readOut <= w.send.written
      && (!w.recv.reset ==> w.send.acked <= R.Received(w.recv))
  {
    RunKeeps(ws, steps);
  }

  ghost predicate AllAcked(h: S.Half) {
    h.finMarked && h.finAcked && forall x: nat :: x < |h.written| ==> x in h.acked
  }

  /**
   A sender in `DataRecvd` is right exactly if the receiver took no reset, or took it with everything read already: only
   then has every byte arrived. Then one read takes all that is left. A receiver that took the reset earlier has dropped
   what it held, and goes on acknowledging what it drops.
   */
  lemma DeliveredIsReceivedIff(ws: seq<World>, steps: seq<Step>)
    requires Run(ws, steps) && ws[|steps|].send.state == S.DataRecvd
    ensures var w := ws[|steps|];
      && (R.Received(w.recv) == Span(0, |w.send.written|)
          <==> !w.recv.reset || w.recv.readOffset == |w.send.written|)
      && w.recv.finalSize == Some(|w.send.written|)
      && (!w.recv.reset ==> w.recv.finSeen && w.recv.have.Keys == Span(w.recv.readOffset, |w.send.written|))
  {
    RunKeeps(ws, steps);
    ReceivedIff(ws[|steps|]);
  }

  lemma ReceivedIff(w: World)
    requires Inv(w) && AllAcked(w.send)
    ensures R.Received(w.recv) == Span(0, |w.send.written|)
      <==> !w.recv.reset || w.recv.readOffset == |w.send.written|
    ensures w.recv.finalSize == Some(|w.send.written|)
    ensures !w.recv.reset ==> w.recv.finSeen && w.recv.have.Keys == Span(w.recv.readOffset, |w.send.written|)
  {
    if w.recv.reset {
      SpanIs(w.recv.readOffset, |w.send.written|);
      assert R.Received(w.recv) == Span(0, w.recv.readOffset);
    } else {
      EverythingReceived(w);
      R.CompleteCanRead(w.recv, w.send.written);
    }
  }

  lemma SpanIs(m: nat, n: nat)
    ensures Span(0, m) == Span(0, n) <==> m == n
  {
    if m < n {
      assert m in Span(0, n);
    } else if n < m {
      assert n in Span(0, m);
    }
  }

  /** A sender in `DataRecvd` that never reset the stream is right: the receiver has every byte and the end. */
  lemma DeliveredIsReceived(ws: seq<World>, steps: seq<Step>)
    requires Run(ws, steps) && ws[|steps|].send.state == S.DataRecvd && ws[|steps|].send.reset == None
    ensures var w := ws[|steps|];
      && R.Received(w.recv) == Span(0, |w.send.written|)
      && w.recv.finSeen && w.recv.finalSize == Some(|w.send.written|)
      && w.recv.have.Keys == Span(w.recv.readOffset, |w.send.written|)
  {
    RunKeeps(ws, steps);
    DeliveredIsReceivedIff(ws, steps);
  }

  lemma EverythingReceived(w: World)
    requires Inv(w) && AllAcked(w.send) && !w.recv.reset
    ensures R.Received(w.recv) == Span(0, |w.send.written|) && w.recv.finSeen
  {
    forall x: nat
      ensures x in R.Received(w.recv) <==> x < |w.send.written|
    {
    }
  }

  /** A finished sender with nothing in flight and nothing to offer has delivered the whole stream. */
  lemma QuietMeansDelivered(ws: seq<World>, steps: seq<Step>)
    requires Run(ws, steps)
    requires var h := ws[|steps|].send;
      h.reset == None && h.finMarked && h.flight == map[] && forall c :: !S.Offers(h, 1, c)
    ensures R.Received(ws[|steps|].recv) == Span(0, |ws[|steps|].send.written|)
  {
    RunKeeps(ws, steps);
    S.Drained(ws[|steps|].send);
    EverythingReceived(ws[|steps|]);
  }

  // -- what is sent below the floor --

  /** The sender acts as one packet number space does. */
  ghost predicate RunInOrder(ws: seq<World>, steps: seq<Step>) {
    Run(ws, steps) && forall i :: 0 <= i < |steps| && steps[i].Local? ==> S.InOrder(ws[i].send, steps[i].e)
  }

  lemma {:induction false} InOrderStaysOrderly(ws: seq<World>, steps: seq<Step>)
    requires RunInOrder(ws, steps)
    ensures Inv(ws[|steps|]) && S.Orderly(ws[|steps|].send)
  {
    RunKeeps(ws, steps);
    if steps != [] {
      var n := |steps| - 1;
      InOrderStaysOrderly(ws[..n + 1], steps[..n]);
      StepKeepsOrderly(ws[n], steps[n], ws[n + 1]);
    }
  }

  lemma StepKeepsOrderly(w: World, step: Step, w': World)
    requires S.Inv(w.send) && S.Orderly(w.send) && Next(w, step, w')
    requires step.Local? ==> S.InOrder(w.send, step.e)
    ensures S.Orderly(w'.send)
  {
    match step
    case Local(e) => S.NextKeepsOrderly(w.send, e, w'.send);
    case Acknowledge(pn) => S.NextKeepsOrderly(w.send, S.EvAck(pn), w'.send);
    case AcknowledgeReset => S.NextKeepsOrderly(w.send, S.EvResetAcked, w'.send);
    case _ =>
  }

  /** In every run in order a chunk sent lies at or above the floor: its bytes are still in the buffer. */
  lemma SentFromBuffer(ws: seq<World>, steps: seq<Step>, i: nat, floor: nat)
    requires RunInOrder(ws, steps) && i < |steps| && steps[i].Local? && steps[i].e.EvSend?
    requires S.IsFloor(ws[i].send.acked, floor)
    ensures steps[i].e.chunk.length > 0 ==> floor <= steps[i].e.chunk.offset
  {
    InOrderStaysOrderly(ws[..i + 1], steps[..i]);
    var h, c := ws[i].send, steps[i].e.chunk;
    assert Next(ws[i], steps[i], ws[i + 1]);
    assert c.length > 0 ==> c.offset in S.ChunkSpan(c);
  }

  function LateSender(b: Byte, i: nat): S.Half
    requires i < 8
  {
    if i == 0 then S.INITIAL
    else if i == 1 then S.Written1(b)
    else if i == 2 then S.Sent2(b)
    else if i == 3 then S.Probed3(b)
    else if i == 4 then S.Copied4(b)
    else if i <= 6 then S.Lost5(b)
    else S.Acked6(b)
  }

  function LateWorld(b: Byte, i: nat): World
    requires i < 8
  {
    World(LateSender(b, i), if i < 6 then R.INITIAL else R.INITIAL.(have := map[0 := b], endOffset := 1),
          if i < 2 then map[] else if i < 4 then map[0 := S.ONE] else map[0 := S.ONE, 1 := S.ONE],
          if i < 6 then {} else {0}, [])
  }

  function LateStep(b: Byte, i: nat): Step {
    if i == 0 then Local(S.EvWrite([b], 1))
    else if i == 1 then Local(S.EvSend(0, S.ONE))
    else if i == 2 then Local(S.EvProbe(0))
    else if i == 3 then Local(S.EvSend(1, S.ONE))
    else if i == 4 then Local(S.EvLost(1))
    else if i == 5 then Arrive(0, 10)
    else if i == 6 then Acknowledge(0)
    else Local(S.EvSend(2, S.ONE))
  }

  lemma LateSends(b: Byte, i: nat)
    requires i < 5
    ensures Next(LateWorld(b, i), LateStep(b, i), LateWorld(b, i + 1))
  {
    S.LateAckFirst(b);
    S.LateAckLast(b);
  }

  lemma LateArrives(b: Byte)
    ensures Next(LateWorld(b, 5), LateStep(b, 5), LateWorld(b, 6))
  {
    assert [b][0..1] == [b];
  }

  lemma LateAcknowledged(b: Byte)
    ensures Next(LateWorld(b, 6), LateStep(b, 6), LateWorld(b, 7))
  {
    S.LateAckLast(b);
  }

  /** Out of order it may not: a run whose last step sends the byte below the floor. */
  lemma SentBelowFloor(b: Byte) returns (ws: seq<World>, steps: seq<Step>)
    ensures Run(ws, steps) && steps != [] && steps[|steps| - 1] == Local(S.EvSend(2, S.ONE))
    ensures S.IsFloor(ws[|steps| - 1].send.acked, 1) && S.ONE.offset == 0
  {
    ws := seq(8, i requires 0 <= i < 8 => LateWorld(b, i));
    steps := seq(8, i requires 0 <= i < 8 => LateStep(b, i));
    var last := ws[7];
    ws := ws + [last.(send := S.SendStep(last.send, 2, S.ONE), sent := last.sent[2 := S.ONE])];
    forall i | 0 <= i < 8
      ensures Next(ws[i], steps[i], ws[i + 1])
    {
      if i < 5 {
        LateSends(b, i);
      } else if i == 5 {
        LateArrives(b);
      } else if i == 6 {
        LateAcknowledged(b);
      }
    }
  }
}
