/**
 The echo benchmark's client: one ping at a time, each round trip measured; and the percentiles of what was measured.
 */
module EchoFlow {
  import opened Wrappers
  import opened Varint
  import opened Seqs

  datatype Stage = AwaitingHandshake | Pinging | Done

  datatype EchoError = BenchTimedOut | PingLost | EchoMismatch | SendFailed

  const DEADLINE_US: nat := 120_000_000
  const PING_STALL_US: nat := 2_000_000
  const U64: nat := 0x1_0000_0000_0000_0000

  /** Eight bytes, lowest first. */
  function LittleEndian(n: nat, k: nat): (b: seq<Byte>)
    ensures |b| == k
  {
    if k == 0 then [] else [n % 256] + LittleEndian(n / 256, k - 1)
  }

  function ReadLittle(b: seq<Byte>): nat {
    if b == [] then 0 else b[0] + 256 * ReadLittle(b[1..])
  }

  lemma {:induction false} LittleRoundTrip(n: nat, k: nat)
    requires n < Pow256(k)
    ensures ReadLittle(LittleEndian(n, k)) == n
  {
    if k > 0 {
      LittleRoundTrip(n / 256, k - 1);
      assert LittleEndian(n, k)[1..] == LittleEndian(n / 256, k - 1);
    }
  }

  function Ping(s: nat, now: nat): (b: seq<Byte>)
    ensures |b| == 16
  {
    LittleEndian(s, 8) + LittleEndian(now, 8)
  }

  lemma LittleZero(k: nat)
    ensures LittleEndian(0, k) == seq(k, _ => 0)
  {
  }

  /** The number comes first and the clock second, each with its lowest byte first. */
  lemma PingLayout(s: nat, now: nat)
    requires s < 0x10000 && now < 0x10000
    ensures Ping(s, now) == [s % 256, s / 256, 0, 0, 0, 0, 0, 0] + [now % 256, now / 256, 0, 0, 0, 0, 0, 0]
  {
    TwoBytes(s);
    TwoBytes(now);
  }

  lemma TwoBytes(n: nat)
    requires n < 0x10000
    ensures LittleEndian(n, 8) == [n % 256, n / 256, 0, 0, 0, 0, 0, 0]
  {
    var low, mid := LittleEndian(n / 256, 7), LittleEndian(n / 256 / 256, 6);
    LittleZero(6);
    assert mid == LittleEndian(0, 6) == [0, 0, 0, 0, 0, 0];
    assert low == [n / 256] + mid;
  }

  /** The outcome of a callback that comes to send a ping. */
  function Sending(s: nat, now: nat, sendOk: bool): Result<Option<seq<Byte>>, EchoError> {
    if sendOk then Ok(Some(Ping(s, now))) else Err(SendFailed)
  }

  /** The echo of the ping that is out. */
  predicate Echoes(pong: seq<Byte>, s: nat) {
    |pong| == 16 && ReadLittle(pong[..8]) == s
  }

  /** A ping comes back as the echo of itself and of no other. */
  lemma PingEchoesItself(s: nat, now: nat, other: nat)
    requires s < U64
    ensures Echoes(Ping(s, now), other) <==> other == s
  {
    assert Pow256(8) == U64 by {
      assert Pow256(4) == 0x1_0000_0000;
    }
    LittleRoundTrip(s, 8);
    assert Ping(s, now)[..8] == LittleEndian(s, 8);
  }

  function Sum(v: seq<nat>): nat {
    if v == [] then 0 else Sum(v[..|v| - 1]) + v[|v| - 1]
  }

  class Echo {
    const rtts: array<nat>
    var doneCount: nat
    var stage: Stage
    var seqNo: nat
    var inFlightSent: Option<nat>
    var handshakeUs: Option<nat>
    var firstPing: Option<nat>
    var lastPong: Option<nat>
    var iterations: nat
    var closes: nat
    /** The clock at the last callback, and how many pings went out. */
    ghost var clock: nat
    ghost var pings: nat

    constructor (rtts: array<nat>)
      requires rtts.Length > 0
      ensures Valid() && this.rtts == rtts && stage == AwaitingHandshake && clock == 0
    {
      this.rtts := rtts;
      doneCount, stage, seqNo, iterations, closes, clock, pings := 0, AwaitingHandshake, 0, 0, 0, 0, 0;
      inFlightSent, handshakeUs, firstPing, lastPong := None, None, None, None;
    }

    ghost function Measured(): seq<nat>
      requires doneCount <= rtts.Length
      reads this`doneCount, rtts
    {
      rtts[..doneCount]
    }

    /** One ping at a time; the round trips so far add up to the time since the first ping. */
    ghost predicate Valid()
      reads this, rtts
    {
      && rtts.Length > 0 && doneCount <= rtts.Length && seqNo == doneCount
      && pings == doneCount + (if inFlightSent.Some? then 1 else 0)
      && closes == (if stage == Done then 1 else 0)
      && match stage
         case AwaitingHandshake => doneCount == 0 && inFlightSent == None && firstPing == None
         case Pinging =>
           && doneCount < rtts.Length
           && (firstPing == None <==> inFlightSent == None) && (firstPing == None ==> doneCount == 0)
           && (inFlightSent.Some? ==> inFlightSent.value <= clock)
           && (inFlightSent.Some? ==> firstPing.value + Sum(Measured()) == inFlightSent.value)
         case Done =>
           && doneCount == rtts.Length && inFlightSent == None && firstPing.Some? && lastPong.Some?
           && firstPing.value + Sum(Measured()) == lastPong.value
    }

    /** Takes a pong: records the round trip. */
    method Record(now: nat)
      requires Valid() && stage == Pinging && inFlightSent.Some? && clock <= now
      modifies this`doneCount, this`seqNo, this`inFlightSent, this`lastPong, rtts
      ensures doneCount == seqNo == old(doneCount) + 1 <= rtts.Length && inFlightSent == None && lastPong == Some(now)
      ensures Measured() == old(Measured()) + [now - old(inFlightSent).value]
      ensures firstPing.value + Sum(Measured()) == now
    {
      rtts[doneCount] := now - inFlightSent.value;
      doneCount, seqNo, inFlightSent, lastPong := doneCount + 1, seqNo + 1, None, Some(now);
      assert Measured()[..doneCount - 1] == old(Measured());
    }

    /** Sends the next ping. */
    method Send(now: nat, sendOk: bool) returns (r: Result<Option<seq<Byte>>, EchoError>)
      requires doneCount < rtts.Length && seqNo == doneCount && pings == doneCount && inFlightSent == None
      requires closes == 0
      requires stage == Pinging && clock <= now
      requires if firstPing == None then doneCount == 0 else firstPing.value + Sum(Measured()) == now
      modifies this`inFlightSent, this`firstPing, this`clock, this`pings
      ensures r == Sending(seqNo, now, sendOk)
      ensures sendOk ==> Valid() && clock == now && inFlightSent == Some(now)
    {
      if !sendOk {
        return Err(SendFailed);
      }
      if firstPing == None {
        firstPing := Some(now);
      }
      inFlightSent, clock, pings := Some(now), now, pings + 1;
      r := Ok(Some(Ping(seqNo, now)));
    }

    /** The ping is out: is its echo back, is it overdue, or is it still under way? */
    method TakePong(pong: Option<seq<Byte>>, now: nat) returns (r: Result<bool, EchoError>)
      requires Valid() && stage == Pinging && inFlightSent.Some? && clock <= now
      modifies this`doneCount, this`seqNo, this`inFlightSent, this`lastPong, this`stage, this`closes, this`clock, rtts
      ensures pong == None ==> r == if now - old(inFlightSent).value > PING_STALL_US then Err(PingLost) else Ok(false)
      ensures pong.Some? ==> r == if Echoes(pong.value, old(seqNo)) then Ok(true) else Err(EchoMismatch)
      ensures r != Ok(true) ==> Valid() && stage == Pinging
      ensures r != Ok(true) ==> Measured() == old(Measured()) && doneCount == old(doneCount)
      ensures r == Ok(true) ==> doneCount == seqNo == pings == old(doneCount) + 1 <= rtts.Length && inFlightSent == None
      ensures r == Ok(true) ==> stage == (if doneCount == rtts.Length then Done else Pinging) && lastPong == Some(now)
      ensures r == Ok(true) ==> closes == (if stage == Done then 1 else 0) && clock == old(clock)
      ensures r == Ok(true) ==> firstPing.value + Sum(Measured()) == now
      ensures r == Ok(true) ==> Measured() == old(Measured()) + [now - old(inFlightSent).value]
    {
      if pong == None {
        if now - inFlightSent.value > PING_STALL_US {
          return Err(PingLost);
        }
        clock := now;
        return Ok(false);
      }
      if !Echoes(pong.value, seqNo) {
        return Err(EchoMismatch);
      }
      Record(now);
      if doneCount == rtts.Length {
        stage, closes := Done, closes + 1;
      }
      r := Ok(true);
    }

    /**
     One exchange: the first ping goes out; a ping that is out is waited for, given up once it stalls, or answered by
     its echo alone; and an echo is measured and followed by the next ping, until the last one closes the flow.
     */
    method Exchange(pong: Option<seq<Byte>>, sendOk: bool, now: nat) returns (r: Result<Option<seq<Byte>>, EchoError>)
      requires Valid() && stage == Pinging && clock <= now
      modifies this`doneCount, this`seqNo, this`inFlightSent, this`firstPing, this`lastPong, this`stage, this`closes
      modifies this`clock, this`pings, rtts
      ensures r != Err(SendFailed) ==> Valid()
      ensures r.Ok? && r.value.Some? ==> inFlightSent == Some(now)
      ensures doneCount <= rtts.Length && stage == if doneCount == rtts.Length then Done else Pinging
      ensures old(inFlightSent) == None ==> r == Sending(old(seqNo), now, sendOk) && Measured() == old(Measured())
      ensures old(inFlightSent).Some? && pong == None ==>
        r == (if now - old(inFlightSent).value > PING_STALL_US then Err(PingLost) else Ok(None))
        && Measured() == old(Measured()) && inFlightSent == old(inFlightSent)
      ensures old(inFlightSent).Some? && pong.Some? && !Echoes(pong.value, old(seqNo)) ==>
        r == Err(EchoMismatch) && Measured() == old(Measured()) && inFlightSent == old(inFlightSent)
      ensures old(inFlightSent).Some? && pong.Some? && Echoes(pong.value, old(seqNo)) ==>
        && Measured() == old(Measured()) + [now - old(inFlightSent).value] && lastPong == Some(now)
        && r == if stage == Done then Ok(None) else Sending(old(seqNo) + 1, now, sendOk)
    {
      if inFlightSent.Some? {
        var taken := TakePong(pong, now);
        if taken.Err? {
          return Err(taken.error);
        }
        if !taken.value || stage == Done {
          return Ok(None);
        }
      }
      r := Send(now, sendOk);
    }

    /** Does this callback get to the pings? */
    ghost predicate Open(handshake: bool, now: nat)
      reads this`stage
    {
      now <= DEADLINE_US && (stage == Pinging || (stage == AwaitingHandshake && handshake))
    }

    /** One callback, under a clock that does not go back: the ping sent, if one was. */
    method OnIteration(handshake: bool, pong: Option<seq<Byte>>, sendOk: bool, now: nat)
      returns (r: Result<Option<seq<Byte>>, EchoError>)
      requires Valid() && clock <= now
      modifies this, rtts
      ensures r != Err(SendFailed) ==> Valid()
      ensures r.Ok? && r.value.Some? ==> inFlightSent == Some(now)
      ensures doneCount <= rtts.Length && iterations == old(iterations) + 1
      ensures r == Err(BenchTimedOut) <==> old(stage) != Done && now > DEADLINE_US
      ensures old(!Open(handshake, now)) ==> r in {Ok(None), Err(BenchTimedOut)} && Measured() == old(Measured())
      ensures old(!Open(handshake, now)) ==> stage == old(stage) && inFlightSent == old(inFlightSent)
      ensures old(Open(handshake, now)) ==> stage == if doneCount == rtts.Length then Done else Pinging
      ensures old(Open(handshake, now)) && handshake ==> handshakeUs == Some(now)
      ensures old(Open(handshake, now) && inFlightSent == None) ==>
        r == Sending(old(seqNo), now, sendOk) && Measured() == old(Measured())
      ensures old(Open(handshake, now) && inFlightSent.Some? && pong == None) ==>
        r == (if now - old(inFlightSent).value > PING_STALL_US then Err(PingLost) else Ok(None))
        && Measured() == old(Measured()) && inFlightSent == old(inFlightSent)
      ensures old(Open(handshake, now) && inFlightSent.Some? && pong.Some? && !Echoes(pong.value, seqNo)) ==>
        r == Err(EchoMismatch) && Measured() == old(Measured()) && inFlightSent == old(inFlightSent)
      ensures old(Open(handshake, now) && inFlightSent.Some? && pong.Some? && Echoes(pong.value, seqNo)) ==>
        && Measured() == old(Measured()) + [now - old(inFlightSent).value] && lastPong == Some(now)
        && r == if stage == Done then Ok(None) else Sending(old(seqNo) + 1, now, sendOk)
    {
      iterations := iterations + 1;
      if stage == Done {
        return Ok(None);
      }
      if now > DEADLINE_US {
        return Err(BenchTimedOut);
      }
      if handshake {
        stage, handshakeUs := Pinging, Some(now);
      }
      if stage != Pinging {
        return Ok(None);
      }
      r := Exchange(pong, sendOk, now);
    }

    /** When the last echo is in, the round trips add up to the whole span from the first ping to the last pong. */
    lemma Telescopes()
      requires Valid() && stage == Done
      ensures Sum(rtts[..]) == lastPong.value - firstPing.value && pings == doneCount == rtts.Length && closes == 1
    {
      assert rtts[..] == rtts[..doneCount];
    }
  }

  // -- what is made of the round trips --

  ghost predicate Sorted(v: seq<nat>) {
    forall i, j :: 0 <= i < j < |v| ==> v[i] <= v[j]
  }

  lemma {:induction false} SumWithout(v: seq<nat>, i: nat)
    requires i < |v|
    ensures Sum(v) == Sum(Without(v, i)) + v[i]
  {
    var n := |v| - 1;
    if i == n {
      assert Without(v, i) == v[..n];
    } else {
      SumWithout(v[..n], i);
      assert Without(v, i)[..n - 1] == Without(v[..n], i) && Without(v, i)[n - 1] == v[n];
    }
  }

  /** Sorting keeps the sum. */
  lemma {:induction false} SumOfBag(v: seq<nat>, w: seq<nat>)
    requires multiset(v) == multiset(w)
    ensures Sum(v) == Sum(w)
    decreases |v|
  {
    assert |v| == |multiset(v)| && |w| == |multiset(w)|;
    if v != [] {
      var j := Find(w, v[0]);
      WithoutBag(v, 0);
      WithoutBag(w, j);
      assert multiset(Without(v, 0)) == multiset(v) - multiset{v[0]};
      assert multiset(Without(w, j)) == multiset(w) - multiset{w[j]};
      SumOfBag(Without(v, 0), Without(w, j));
      SumWithout(v, 0);
      SumWithout(w, j);
    }
  }

  lemma Find(w: seq<nat>, x: nat) returns (j: nat)
    requires x in multiset(w)
    ensures j < |w| && w[j] == x
  {
    j :| 0 <= j < |w| && w[j] == x;
  }

  function Percentile(sorted: seq<nat>, p: nat): nat
    requires p <= 100
  {
    if sorted == [] then 0
    else
      PercentileIndex(|sorted|, p);
      sorted[(|sorted| - 1) * p / 100]
  }

  lemma PercentileIndex(n: nat, p: nat)
    requires n > 0 && p <= 100
    ensures 0 <= (n - 1) * p / 100 < n
  {
    TimesLe(n - 1, p, 100);
  }

  lemma TimesLe(a: nat, p: nat, q: nat)
    requires p <= q
    ensures a * p <= a * q
  {
  }

  /**
   Percentile `p` of `n` sorted values is the one at `p` hundredths of the way from the first to the last, rounded down:
   the lowest for 0, the highest for 100, and for 50 the lower of the middle ones.
   */
  lemma PercentileRank(sorted: seq<nat>, p: nat) returns (k: nat)
    requires sorted != [] && p <= 100
    ensures k < |sorted| && Percentile(sorted, p) == sorted[k]
    ensures 100 * k <= (|sorted| - 1) * p < 100 * (k + 1)
    ensures (p == 0 ==> k == 0) && (p == 100 ==> k == |sorted| - 1) && (p == 50 ==> k == (|sorted| - 1) / 2)
  {
    PercentileIndex(|sorted|, p);
    k := (|sorted| - 1) * p / 100;
  }

  /** Percentiles come in order, up to the greatest value. */
  lemma PercentilesOrdered(sorted: seq<nat>, p: nat, q: nat)
    requires Sorted(sorted) && p <= q <= 100 && sorted != []
    ensures Percentile(sorted, p) <= Percentile(sorted, q) <= sorted[|sorted| - 1]
  {
    var n := |sorted|;
    PercentileIndex(n, p);
    PercentileIndex(n, q);
    TimesLe(n - 1, p, q);
  }
}
