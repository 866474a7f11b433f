/**
 The upload benchmark's client: writes a payload as the stream takes it, finishes, and is done once all is acknowledged.
 */
module UploadFlow {
  import opened Wrappers
  import opened Varint
  import opened RangeList
  import S = SendHalf
  import R = RecvHalf
  import T = StreamTransfer
  import opened SendStream

  datatype Stage = AwaitingHandshake | Uploading | AwaitingAcks | Done

  datatype Flow = Flow(stage: Stage, sent: nat, closes: nat)

  datatype FlowError = BenchTimedOut | StreamFailed

  const DEADLINE_US: nat := 180_000_000
  const WRITE_CHUNK: nat := 65536

  /** `data` starts the unsent rest of the payload, and is no longer than one write. */
  ghost predicate NextChunk(payload: seq<Byte>, sent: nat, data: seq<Byte>) {
    sent + |data| <= |payload| && |data| <= WRITE_CHUNK && data == payload[sent..sent + |data|]
  }

  ghost predicate Writes(payload: seq<Byte>, sent: nat, h: S.Half, e: S.Event, h': S.Half) {
    e.EvWrite? && NextChunk(payload, sent, e.data) && S.Next(h, e, h')
  }

  /** What the flow does in one act: begin, write, finish, or find everything acknowledged. */
  ghost predicate Acts(payload: seq<Byte>, f: Flow, h: S.Half, e: Option<S.Event>, f': Flow, h': S.Half) {
    match f.stage
    case AwaitingHandshake => e == None && h' == h && f' == f.(stage := Uploading)
    case Uploading =>
      e.Some? &&
      (if f.sent < |payload| then
         && Writes(payload, f.sent, h, e.value, h') && |h'.written| >= |h.written|
         && f' == f.(sent := f.sent + |h'.written| - |h.written|)
       else
         e.value == S.EvFinish && S.Next(h, S.EvFinish, h') && f' == f.(stage := AwaitingAcks))
    case AwaitingAcks =>
      e == None && h' == h && h.state == S.DataRecvd && f' == f.(stage := Done, closes := f.closes + 1)
    case Done => false
  }

  /** What the connection lets through in one callback, up to the first write it takes nothing of. */
  function Allowance(credits: seq<nat>): nat {
    if credits == [] || credits[0] == 0 then 0 else Min(WRITE_CHUNK, credits[0]) + Allowance(credits[1..])
  }

  /** How much goes out in one callback: what is left, unless the stream's room or the connection allows less. */
  function Takes(left: nat, room: nat, credits: seq<nat>): (n: nat)
    ensures n <= left && (n > 0 <==> left > 0 && room > 0 && credits != [] && credits[0] > 0)
  {
    Min(left, Min(room, Allowance(credits)))
  }

  /** A write and what the rest of the credits then allow make up what the credits allow. */
  lemma TakesOn(left: nat, room: nat, credits: seq<nat>, w: nat)
    requires w == Min(Min(WRITE_CHUNK, if credits == [] then 0 else credits[0]), Min(left, room))
    ensures if w == 0 then Takes(left, room, credits) == 0
            else credits != [] && Takes(left, room, credits) == w + Takes(left - w, room - w, credits[1..])
  {
  }

  /** The flow's account agrees with the stream's. */
  ghost predicate Agrees(payload: seq<Byte>, f: Flow, h: S.Half) {
    && f.sent <= |payload| && h.written == payload[..f.sent]
    && (h.finMarked <==> f.stage in {AwaitingAcks, Done})
    && (f.stage in {AwaitingAcks, Done} ==> f.sent == |payload|)
    && (f.stage == AwaitingHandshake ==> f.sent == 0)
    && f.closes == if f.stage == Done then 1 else 0
  }

  lemma ActKeepsAgree(payload: seq<Byte>, f: Flow, h: S.Half, e: Option<S.Event>, f': Flow, h': S.Half)
    requires Agrees(payload, f, h) && Acts(payload, f, h, e, f', h')
    ensures Agrees(payload, f', h')
  {
    if f.stage == Uploading && f.sent < |payload| {
      var n := |h'.written| - |h.written|;
      var data := e.value.data;
      assert h'.written == h.written + data[..n];
      assert payload[..f.sent] + data[..n] == payload[..f.sent + n];
    }
  }

  /** A sequence of acts. */
  ghost predicate Trail(payload: seq<Byte>, fs: seq<Flow>, hs: seq<S.Half>, es: seq<Option<S.Event>>) {
    && |fs| == |hs| == |es| + 1
    && forall i :: 0 <= i < |es| ==> Acts(payload, fs[i], hs[i], es[i], fs[i + 1], hs[i + 1])
  }

  /** The acts that lead from one pair of flow and stream to another. */
  ghost predicate Leads(payload: seq<Byte>, f: Flow, h: S.Half, f': Flow, h': S.Half) {
    exists fs, hs, es :: Trail(payload, fs, hs, es) && fs[0] == f && hs[0] == h && fs[|es|] == f' && hs[|es|] == h'
  }

  lemma LeadsNowhere(payload: seq<Byte>, f: Flow, h: S.Half)
    ensures Leads(payload, f, h, f, h)
  {
    assert Trail(payload, [f], [h], []);
  }

  lemma LeadsOn(payload: seq<Byte>, f0: Flow, h0: S.Half, f: Flow, h: S.Half, e: Option<S.Event>, f': Flow, h': S.Half)
    requires Leads(payload, f0, h0, f, h) && Acts(payload, f, h, e, f', h')
    ensures Leads(payload, f0, h0, f', h')
  {
    var fs, hs, es :| Trail(payload, fs, hs, es) && fs[0] == f0 && hs[0] == h0 && fs[|es|] == f && hs[|es|] == h;
    assert Trail(payload, fs + [f'], hs + [h'], es + [e]);
  }

  /** The connection's event queue, of which the flow hears one event: the handshake, behind a latch. */
  class Events {
    var surfaced: bool
    /** How often the event was raised. */
    ghost var raised: nat

    constructor ()
      ensures Valid() && !surfaced && raised == 0
    {
      surfaced, raised := false, 0;
    }

    /** Over all polls so far the event was raised once if at all. */
    ghost predicate Valid()
      reads this
    {
      raised == if surfaced then 1 else 0
    }

    /** Polls all events there are: was the handshake among them? It is at the first poll after it was done. */
    method Drain(handshakeDone: bool) returns (handshake: bool)
      requires Valid()
      modifies this
      ensures Valid() && raised == old(raised) + if handshake then 1 else 0
      ensures handshake <==> handshakeDone && !old(surfaced)
      ensures surfaced <==> handshakeDone || old(surfaced)
    {
      handshake := !surfaced && handshakeDone;
      surfaced := surfaced || handshake;
      raised := raised + if handshake then 1 else 0;
    }
  }

  class Upload {
    const payload: seq<Byte>
    var stage: Stage
    var sent: nat
    var closes: nat
    var iterations: nat
    var handshakeUs: Option<nat>
    var startUs: Option<nat>
    var finishUs: Option<nat>

    constructor (payload: seq<Byte>)
      ensures this.payload == payload && Now() == Flow(AwaitingHandshake, 0, 0)
    {
      this.payload := payload;
      stage, sent, closes, iterations := AwaitingHandshake, 0, 0, 0;
      handshakeUs, startUs, finishUs := None, None, None;
    }

    ghost function Now(): Flow
      reads this`stage, this`sent, this`closes
    {
      Flow(stage, sent, closes)
    }

    /** One write of at most a chunk, cut short by the connection's credit and by the stream's cap. */
    method WriteOnce(s: Stream, credit: nat) returns (r: Option<nat>)
      requires s.Valid() && stage == Uploading && sent < |payload| && Agrees(payload, Now(), s.Abs())
      modifies this`sent, s`pending, s`bytes, s`written, s`writeOffset, s`state
      ensures s.Valid() && Agrees(payload, Now(), s.Abs())
      ensures r == None ==> Now() == old(Now()) && s.Abs() == old(s.Abs())
      ensures r == None <==> s.reset.Some?
      ensures r.Some? ==> sent == old(sent) + r.value
      ensures r.Some? ==> r.value == Min(Min(WRITE_CHUNK, credit), Min(|payload| - old(sent), old(s.Room())))
      ensures r.Some? ==> s.Room() == old(s.Room()) - r.value
      ensures r.Some? ==> exists e :: Acts(payload, old(Now()), old(s.Abs()), Some(e), Now(), s.Abs())
    {
      var end := Min(sent + WRITE_CHUNK, |payload|);
      var data := payload[sent..Min(end, sent + credit)];
      ghost var f, h := Now(), s.Abs();
      var w := s.Write(data);
      if w.Err? {
        return None;
      }
      sent := sent + w.value;
      assert |s.Abs().written| - |h.written| == w.value;
      assert Acts(payload, f, h, Some(S.EvWrite(data, s.maxBuffered)), Now(), s.Abs());
      ActKeepsAgree(payload, f, h, Some(S.EvWrite(data, s.maxBuffered)), Now(), s.Abs());
      r := Some(w.value);
    }

    /** The next write of a callback: of what the rest of the credits allow, nothing is lost. */
    method WriteNext(s: Stream, credits: seq<nat>, ghost f0: Flow, ghost h0: S.Half) returns (r: Option<nat>)
      requires s.Valid() && stage == Uploading && sent < |payload| && Agrees(payload, Now(), s.Abs())
      requires Leads(payload, f0, h0, Now(), s.Abs())
      modifies this`sent, s`pending, s`bytes, s`written, s`writeOffset, s`state
      ensures s.Valid() && Agrees(payload, Now(), s.Abs()) && Leads(payload, f0, h0, Now(), s.Abs())
      ensures if r == None then s.reset.Some? && sent == old(sent) else s.reset == None && sent == old(sent) + r.value
      ensures r == Some(0) ==> old(Takes(|payload| - sent, s.Room(), credits)) == 0
      ensures r.Some? && r.value > 0 ==> credits != []
      ensures r.Some? && r.value > 0 ==>
        sent + Takes(|payload| - sent, s.Room(), credits[1..])
        == old(sent + Takes(|payload| - sent, s.Room(), credits))
    {
      ghost var f, h := Now(), s.Abs();
      ghost var left, room := |payload| - sent, s.Room();
      r := WriteOnce(s, if credits == [] then 0 else credits[0]);
      if r.Some? {
        TakesOn(left, room, credits, r.value);
        ghost var e :| Acts(payload, f, h, Some(e), Now(), s.Abs());
        LeadsOn(payload, f0, h0, f, h, Some(e), Now(), s.Abs());
      }
    }

    /**
     Writes until everything is written (`Ok(true)`), the stream takes nothing more, or it fails. What gets written is
     all that is left, that the stream has room for, and that the connection allows.
     */
    method WriteAll(s: Stream, credits: seq<nat>, ghost f0: Flow, ghost h0: S.Half) returns (r: Result<bool, FlowError>)
      requires s.Valid() && stage == Uploading && Agrees(payload, Now(), s.Abs())
      requires Leads(payload, f0, h0, Now(), s.Abs())
      modifies this`sent, s`pending, s`bytes, s`written, s`writeOffset, s`state
      ensures s.Valid() && Agrees(payload, Now(), s.Abs()) && Leads(payload, f0, h0, Now(), s.Abs())
      ensures r.Err? ==> r.error == StreamFailed
      ensures r.Err? <==> old(sent) < |payload| && s.reset.Some?
      ensures r.Err? ==> sent == old(sent)
      ensures r.Ok? ==> r.value == (sent == |payload|) && sent == old(sent + Takes(|payload| - sent, s.Room(), credits))
    {
      var rest := credits;
      while sent < |payload|
        invariant s.Valid() && Agrees(payload, Now(), s.Abs()) && Leads(payload, f0, h0, Now(), s.Abs())
        invariant s.reset == None || sent == old(sent)
        invariant sent + Takes(|payload| - sent, s.Room(), rest)
               == old(sent + Takes(|payload| - sent, s.Room(), credits))
        decreases |payload| - sent
      {
        var accepted := WriteNext(s, rest, f0, h0);
        if accepted == None {
          return Err(StreamFailed);
        }
        if accepted.value == 0 {
          return Ok(false);
        }
        rest := rest[1..];
      }
      r := Ok(true);
    }

    method FinishAll(s: Stream, ghost f0: Flow, ghost h0: S.Half) returns (r: Result<(), FlowError>)
      requires s.Valid() && stage == Uploading && sent == |payload|
      requires Agrees(payload, Now(), s.Abs()) && Leads(payload, f0, h0, Now(), s.Abs())
      modifies this`stage, s`finMarked, s`finalSize, s`state
      ensures s.Valid() && Agrees(payload, Now(), s.Abs()) && Leads(payload, f0, h0, Now(), s.Abs())
      ensures r == if s.reset.Some? then Err(StreamFailed) else Ok(())
      ensures stage == if r.Ok? then AwaitingAcks else Uploading
    {
      ghost var f, h := Now(), s.Abs();
      var finished := s.Finish();
      if finished.Err? {
        return Err(StreamFailed);
      }
      stage := AwaitingAcks;
      ActKeepsAgree(payload, f, h, Some(S.EvFinish), Now(), s.Abs());
      LeadsOn(payload, f0, h0, f, h, Some(S.EvFinish), Now(), s.Abs());
      r := Ok(());
    }

    /** Polls the events; the handshake begins the upload. */
    method Begin(events: Events, handshakeDone: bool, now: nat, ghost h: S.Half)
      requires Agrees(payload, Now(), h) && events.Valid() && (stage != AwaitingHandshake ==> events.surfaced)
      modifies this`stage, this`handshakeUs, this`startUs, events
      ensures Agrees(payload, Now(), h) && Leads(payload, old(Now()), h, Now(), h)
      ensures events.Valid() && (stage != AwaitingHandshake ==> events.surfaced)
      ensures stage == if handshakeDone && !old(events.surfaced) then Uploading else old(stage)
      ensures stage != old(stage) ==> handshakeUs == startUs == Some(now)
    {
      ghost var f := Now();
      LeadsNowhere(payload, f, h);
      var handshake := events.Drain(handshakeDone);
      if handshake {
        stage := Uploading;
        handshakeUs, startUs := Some(now), Some(now);
        LeadsOn(payload, f, h, f, h, None, Now(), h);
      }
    }

    method Check(s: Stream, now: nat, ghost f0: Flow, ghost h0: S.Half)
      requires stage == AwaitingAcks && Agrees(payload, Now(), s.Abs()) && Leads(payload, f0, h0, Now(), s.Abs())
      modifies this`stage, this`closes, this`finishUs
      ensures Agrees(payload, Now(), s.Abs()) && Leads(payload, f0, h0, Now(), s.Abs())
      ensures if s.state == S.DataRecvd then stage == Done && finishUs == Some(now)
              else stage == AwaitingAcks && finishUs == old(finishUs)
    {
      if s.state != S.DataRecvd {
        return;
      }
      ghost var f := Now();
      finishUs, stage, closes := Some(now), Done, closes + 1;
      LeadsOn(payload, f0, h0, f, s.Abs(), None, Now(), s.Abs());
    }

    /** What the stage calls for. */
    method Proceed(s: Stream, credits: seq<nat>, now: nat, ghost f0: Flow, ghost h0: S.Half)
      returns (r: Result<(), FlowError>)
      requires s.Valid() && Agrees(payload, Now(), s.Abs()) && Leads(payload, f0, h0, Now(), s.Abs())
      modifies this`stage, this`sent, this`closes, this`finishUs
      modifies s`pending, s`bytes, s`written, s`writeOffset, s`state, s`finMarked, s`finalSize
      ensures s.Valid() && Agrees(payload, Now(), s.Abs()) && Leads(payload, f0, h0, Now(), s.Abs())
      ensures r == if old(stage) == Uploading && s.reset.Some? then Err(StreamFailed) else Ok(())
      ensures old(stage) == Uploading && r.Ok? ==> sent == old(sent + Takes(|payload| - sent, s.Room(), credits))
      ensures old(stage) == Uploading ==> stage == if r.Ok? && sent == |payload| then AwaitingAcks else Uploading
      ensures r.Err? ==> sent == old(sent)
      ensures old(stage) == AwaitingAcks ==> stage == if old(s.state) == S.DataRecvd then Done else AwaitingAcks
      ensures finishUs == if old(stage) == AwaitingAcks && stage == Done then Some(now) else old(finishUs)
      ensures old(stage) in {AwaitingHandshake, Done} ==> Now() == old(Now()) && s.Abs() == old(s.Abs())
    {
      match stage
      case AwaitingHandshake | Done => r := Ok(());
      case Uploading =>
        var all := WriteAll(s, credits, f0, h0);
        if all == Ok(true) {
          r := FinishAll(s, f0, h0);
        } else {
          r := if all.Ok? then Ok(()) else Err(StreamFailed);
        }
      case AwaitingAcks =>
        Check(s, now, f0, h0);
        r := Ok(());
    }

    /**
     A callback in time: the handshake begins the upload, once. On a stream that was not reset, an upload writes all it
     can, finishes with its last byte, and is done once the stream is.
     */
    method InTime(s: Stream, events: Events, handshakeDone: bool, credits: seq<nat>, now: nat)
      returns (r: Result<(), FlowError>)
      requires s.Valid() && stage != Done && Agrees(payload, Now(), s.Abs())
      requires events.Valid() && (stage != AwaitingHandshake ==> events.surfaced)
      modifies this`stage, this`sent, this`closes, this`handshakeUs, this`startUs, this`finishUs, events
      modifies s`pending, s`bytes, s`written, s`writeOffset, s`state, s`finMarked, s`finalSize
      ensures s.Valid() && Agrees(payload, Now(), s.Abs())
      ensures events.Valid() && (stage != AwaitingHandshake ==> events.surfaced)
      ensures Leads(payload, old(Now()), old(s.Abs()), Now(), s.Abs())
      ensures stage == AwaitingHandshake <==>
        old(stage) == AwaitingHandshake && !(handshakeDone && !old(events.surfaced))
      ensures old(stage) == AwaitingHandshake && stage != AwaitingHandshake ==> handshakeUs == startUs == Some(now)
      ensures r == if stage == Uploading && s.reset.Some? then Err(StreamFailed) else Ok(())
      ensures old(stage) != AwaitingAcks && stage != AwaitingHandshake && r.Ok? ==>
        sent == old(sent + Takes(|payload| - sent, s.Room(), credits))
      ensures old(stage) != AwaitingAcks && stage != AwaitingHandshake && r.Ok? ==>
        stage == if sent == |payload| then AwaitingAcks else Uploading
      ensures old(stage) == AwaitingAcks ==> stage == if old(s.state) == S.DataRecvd then Done else AwaitingAcks
      ensures finishUs == if stage == Done then Some(now) else old(finishUs)
    {
      ghost var f, h := Now(), s.Abs();
      Begin(events, handshakeDone, now, h);
      r := Proceed(s, credits, now, f, h);
    }

    /**
     One callback; `credits` is what the connection lets through at each write. Whatever happens, flow and stream move
     by acts alone. Before the deadline the upload proceeds as far as stream and connection let it.
     */
    method OnIteration(s: Stream, events: Events, handshakeDone: bool, credits: seq<nat>, now: nat)
      returns (r: Result<(), FlowError>)
      requires s.Valid() && Agrees(payload, Now(), s.Abs())
      requires events.Valid() && (stage != AwaitingHandshake ==> events.surfaced)
      modifies this, events
      modifies s`pending, s`bytes, s`written, s`writeOffset, s`state, s`finMarked, s`finalSize
      ensures s.Valid() && Agrees(payload, Now(), s.Abs())
      ensures events.Valid() && (stage != AwaitingHandshake ==> events.surfaced)
      ensures Leads(payload, old(Now()), old(s.Abs()), Now(), s.Abs())
      ensures iterations == old(iterations) + 1
      ensures r == Err(BenchTimedOut) <==> old(stage) != Done && now > DEADLINE_US
      ensures now > DEADLINE_US || old(stage) == Done ==> Now() == old(Now()) && s.Abs() == old(s.Abs())
      ensures now <= DEADLINE_US ==>
        (stage == AwaitingHandshake <==> old(stage) == AwaitingHandshake && !(handshakeDone && !old(events.surfaced)))
      ensures old(stage) == AwaitingHandshake && stage != AwaitingHandshake ==> handshakeUs == startUs == Some(now)
      ensures now <= DEADLINE_US ==> r == if stage == Uploading && s.reset.Some? then Err(StreamFailed) else Ok(())
      ensures r.Ok? && old(stage) in {AwaitingHandshake, Uploading} && stage != AwaitingHandshake ==>
        sent == old(sent + Takes(|payload| - sent, s.Room(), credits))
      ensures r.Ok? && old(stage) in {AwaitingHandshake, Uploading} && stage != AwaitingHandshake ==>
        stage == if sent == |payload| then AwaitingAcks else Uploading
      ensures r.Ok? && old(stage) == AwaitingAcks ==>
        stage == if old(s.state) == S.DataRecvd then Done else AwaitingAcks
      ensures finishUs == if old(stage) != Done && stage == Done then Some(now) else old(finishUs)
    {
      iterations := iterations + 1;
      if stage == Done {
        LeadsNowhere(payload, Now(), s.Abs());
        return Ok(());
      }
      if now > DEADLINE_US {
        LeadsNowhere(payload, Now(), s.Abs());
        return Err(BenchTimedOut);
      }
      r := InTime(s, events, handshakeDone, credits, now);
    }
  }

  // -- over the network --

  datatype App = App(flow: Flow, world: T.World)

  datatype Step = Act(e: Option<S.Event>) | Net(step: T.Step)

  /** The application writes and finishes; the network and the stream do the rest. */
  ghost predicate Next(payload: seq<Byte>, a: App, step: Step, a': App) {
    match step
    case Act(e) =>
      && Acts(payload, a.flow, a.world.send, e, a'.flow, a'.world.send)
      && if e.Some? then T.Next(a.world, T.Local(e.value), a'.world) else a'.world == a.world
    case Net(t) =>
      && (t.Local? ==> !t.e.EvWrite? && !t.e.EvFinish?)
      && T.Next(a.world, t, a'.world) && a'.flow == a.flow
  }

  ghost predicate Inv(payload: seq<Byte>, a: App) {
    && T.Inv(a.world) && Agrees(payload, a.flow, a.world.send)
    && (a.flow.stage == Done ==> T.AllAcked(a.world.send))
  }

  /** Between the flow's acts nothing it relies on changes. */
  lemma NetFrame(w: T.World, t: T.Step, w': T.World)
    requires T.Inv(w) && T.Next(w, t, w') && (t.Local? ==> !t.e.EvWrite? && !t.e.EvFinish?)
    ensures w'.send.written == w.send.written && w'.send.finMarked == w.send.finMarked
    ensures T.AllAcked(w.send) ==> T.AllAcked(w'.send)
  {
    match t
    case Local(e) => T.LocalFrame(w.send, e, w'.send);
    case Acknowledge(pn) => AckFrame(w.send, pn, w'.send);
    case _ =>
  }

  lemma AckFrame(h: S.Half, pn: nat, h': S.Half)
    requires S.Next(h, S.EvAck(pn), h')
    ensures h'.written == h.written && h'.finMarked == h.finMarked && h.acked <= h'.acked
    ensures h.finAcked ==> h'.finAcked
  {
  }

  lemma NextKeeps(payload: seq<Byte>, a: App, step: Step, a': App)
    requires Inv(payload, a) && Next(payload, a, step, a')
    ensures Inv(payload, a')
  {
    match step
    case Act(e) =>
      ActKeepsAgree(payload, a.flow, a.world.send, e, a'.flow, a'.world.send);
      if e.Some? {
        T.NextKeeps(a.world, T.Local(e.value), a'.world);
      }
    case Net(t) =>
      T.NextKeeps(a.world, t, a'.world);
      NetFrame(a.world, t, a'.world);
  }

  ghost predicate Run(payload: seq<Byte>, apps: seq<App>, steps: seq<Step>) {
    && |apps| == |steps| + 1 && apps[0] == App(Flow(AwaitingHandshake, 0, 0), T.INITIAL)
    && forall i :: 0 <= i < |steps| ==> Next(payload, apps[i], steps[i], apps[i + 1])
  }

  lemma {:induction false} RunKeeps(payload: seq<Byte>, apps: seq<App>, steps: seq<Step>)
    requires Run(payload, apps, steps)
    ensures Inv(payload, apps[|steps|])
  {
    if steps == [] {
      T.RunKeeps([T.INITIAL], []);
    } else {
      var n := |steps| - 1;
      RunKeeps(payload, apps[..n + 1], steps[..n]);
      NextKeeps(payload, apps[n], steps[n], apps[n + 1]);
    }
  }

  /**
   In every run: what was written is the payload up to `sent`; the FIN is out only with all of it; at most one close,
   and that only when every byte and the FIN are acknowledged.
   */
  lemma UploadIsOrderly(payload: seq<Byte>, apps: seq<App>, steps: seq<Step>)
    requires Run(payload, apps, steps)
    ensures var a := apps[|steps|];
      && a.flow.sent <= |payload| && a.world.send.written == payload[..a.flow.sent]
      && (a.world.send.finMarked ==> a.flow.sent == |payload|)
      && a.world.readOut <= payload
      && a.flow.closes <= 1 && (a.flow.closes == 1 ==> T.AllAcked(a.world.send) && a.world.send.written == payload)
  {
    RunKeeps(payload, apps, steps);
  }

  /**
   A finished upload has been received exactly if the receiver took no reset, or took it with everything read already.
   Without one, all of it is there to be read.
   */
  lemma DoneMeansReceivedIff(payload: seq<Byte>, apps: seq<App>, steps: seq<Step>)
    requires Run(payload, apps, steps) && apps[|steps|].flow.stage == Done
    ensures var w := apps[|steps|].world;
      && (R.Received(w.recv) == Span(0, |payload|) <==> !w.recv.reset || w.recv.readOffset == |payload|)
      && w.recv.finalSize == Some(|payload|) && w.readOut <= payload
      && (!w.recv.reset ==> w.recv.have.Keys == Span(w.recv.readOffset, |payload|))
  {
    RunKeeps(payload, apps, steps);
    var w := apps[|steps|].world;
    assert payload[..|payload|] == payload;
    T.ReceivedIff(w);
  }

  /** A finished upload whose stream was never reset has been received in full. */
  lemma DoneMeansReceived(payload: seq<Byte>, apps: seq<App>, steps: seq<Step>)
    requires Run(payload, apps, steps) && apps[|steps|].flow.stage == Done && apps[|steps|].world.send.reset == None
    ensures var w := apps[|steps|].world;
      && R.Received(w.recv) == Span(0, |payload|) && w.recv.finalSize == Some(|payload|)
      && w.readOut <= payload && w.recv.have.Keys == Span(w.recv.readOffset, |payload|)
  {
    RunKeeps(payload, apps, steps);
    DoneMeansReceivedIff(payload, apps, steps);
  }

  /** How often a run finishes the stream. */
  ghost function Finishes(steps: seq<Step>): nat {
    if steps == [] then 0
    else Finishes(steps[..|steps| - 1]) + if steps[|steps| - 1] == Act(Some(S.EvFinish)) then 1 else 0
  }

  /** The stream is finished once, on the way to waiting for acknowledgements. */
  lemma {:induction false} FinishesOnce(payload: seq<Byte>, apps: seq<App>, steps: seq<Step>)
    requires Run(payload, apps, steps)
    ensures Finishes(steps) == if apps[|steps|].flow.stage in {AwaitingAcks, Done} then 1 else 0
  {
    if steps != [] {
      var n := |steps| - 1;
      FinishesOnce(payload, apps[..n + 1], steps[..n]);
      assert Next(payload, apps[n], steps[n], apps[n + 1]);
    }
  }

  // -- a finished upload that nobody received --

  function Sender(b: Byte, i: nat): S.Half
    requires i <= 10
  {
    if i <= 1 then S.INITIAL
    else if i == 2 then S.Written1(b)
    else if i == 3 then S.Ended(b)
    else if i == 4 then S.Final(b)
    else if i <= 6 then S.Stopped(b)
    else if i <= 8 then S.StoppedAcked(b)
    else S.AllIn(b)
  }

  const DROPPED: R.Half := R.INITIAL.(finalSize := Some(1), reset := true, state := R.ResetRecvd)

  /**
   The world after `i` steps: the packet leaves, the reset overtakes it, and it arrives at a receiver that drops it.
   */
  function DroppedWorld(b: Byte, i: nat): T.World
    requires i <= 10
  {
    T.World(Sender(b, i), if i < 6 then R.INITIAL else DROPPED, if i < 4 then map[] else map[0 := S.LAST],
            if i < 8 then {} else {0}, [])
  }

  function DroppedFlow(i: nat): Flow {
    if i == 0 then Flow(AwaitingHandshake, 0, 0)
    else if i == 1 then Flow(Uploading, 0, 0)
    else if i == 2 then Flow(Uploading, 1, 0)
    else if i < 10 then Flow(AwaitingAcks, 1, 0)
    else Flow(Done, 1, 1)
  }

  function DroppedStep(b: Byte, i: nat): Step {
    if i == 0 then Act(None)
    else if i == 1 then Act(Some(S.EvWrite([b], 1)))
    else if i == 2 then Act(Some(S.EvFinish))
    else if i == 3 then Net(T.Local(S.EvSend(0, S.LAST)))
    else if i == 4 then Net(T.Local(S.EvReset(7)))
    else if i == 5 then Net(T.ArriveReset)
    else if i == 6 then Net(T.AcknowledgeReset)
    else if i == 7 then Net(T.Arrive(0, 10))
    else if i == 8 then Net(T.Acknowledge(0))
    else Act(None)
  }

  function DroppedApp(b: Byte, i: nat): App
    requires i <= 10
  {
    App(DroppedFlow(i), DroppedWorld(b, i))
  }

  lemma DroppedActs(b: Byte, i: nat)
    requires i in {0, 1, 2, 9}
    ensures Next([b], DroppedApp(b, i), DroppedStep(b, i), DroppedApp(b, i + 1))
  {
    S.LateDeliverySteps(b);
    assert [b][0..1] == [b];
  }

  lemma DroppedNet(b: Byte, i: nat)
    requires 3 <= i < 9
    ensures Next([b], DroppedApp(b, i), DroppedStep(b, i), DroppedApp(b, i + 1))
  {
    S.LateDeliverySteps(b);
    assert map[][0 := S.LAST] == map[0 := S.LAST];
  }

  /**
   A run in which an upload ends as done, with its one close, although its one byte was never held or read by the
   receiver: the stream was reset while the packet was under way.
   */
  lemma DoneCanBeDropped(b: Byte) returns (apps: seq<App>, steps: seq<Step>)
    ensures Run([b], apps, steps)
    ensures var a := apps[|steps|];
      && a.flow.stage == Done && a.flow.closes == 1 && a.world.send.state == S.DataRecvd
      && R.Received(a.world.recv) == {} && a.world.readOut == []
  {
    apps := seq(11, i requires 0 <= i < 11 => DroppedApp(b, i));
    steps := seq(10, i requires 0 <= i < 10 => DroppedStep(b, i));
    forall i | 0 <= i < 10
      ensures Next([b], apps[i], steps[i], apps[i + 1])
    {
      if i in {0, 1, 2, 9} {
        DroppedActs(b, i);
      } else {
        DroppedNet(b, i);
      }
    }
  }

  function Rank(s: Stage): nat {
    match s case AwaitingHandshake => 0 case Uploading => 1 case AwaitingAcks => 2 case Done => 3
  }

  /** The stage never goes back. */
  lemma {:induction false} StageOnlyAdvances(payload: seq<Byte>, apps: seq<App>, steps: seq<Step>, i: nat)
    requires Run(payload, apps, steps) && i <= |steps|
    ensures Rank(apps[i].flow.stage) <= Rank(apps[|steps|].flow.stage)
    ensures apps[i].flow.sent <= apps[|steps|].flow.sent
    decreases |steps|
  {
    if i < |steps| {
      var n := |steps| - 1;
      StageOnlyAdvances(payload, apps[..n + 1], steps[..n], i);
      assert Next(payload, apps[n], steps[n], apps[n + 1]);
    }
  }
}
