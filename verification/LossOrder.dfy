/**
 Loss detection and a stream together: the tracker's sweep tells the stream of its lost packets lowest first, as the
 stream needs it to keep its queue clean.
 */
module LossOrder {
  import opened Tombstones
  import opened SentPacketTracker
  import opened LossRecovery
  import S = SendHalf

  /** The stream hears of each packet declared lost that carries something of it. */
  ghost predicate Hears(hs: seq<S.Half>, lost: seq<Slot<Packet>>) {
    && |hs| == |lost| + 1
    && forall i :: 0 <= i < |lost| ==> HearsOne(hs[i], lost[i].key, hs[i + 1])
  }

  ghost predicate HearsOne(h: S.Half, pn: nat, h': S.Half) {
    if pn in h.flight then S.Next(h, S.EvLost(pn), h') else h' == h
  }

  /** Every packet of the stream's is tracked, before the sweep and after each loss. */
  lemma {:induction false} StaysTracked(was: map<nat, Packet>, lost: seq<Slot<Packet>>, hs: seq<S.Half>, i: nat)
    requires Hears(hs, lost) && i <= |lost| && hs[0].flight.Keys <= was.Keys
    ensures hs[i].flight.Keys <= After(was, lost[..i]).Keys
  {
    if i > 0 {
      var k := i - 1;
      StaysTracked(was, lost, hs, k);
      assert HearsOne(hs[k], lost[k].key, hs[i]);
      assert Init(lost[..i]) == lost[..k] && Last(lost[..i]) == lost[k];
    }
  }

  /** The loss of packet `i` is in order: no packet of the stream's in flight is lower. */
  lemma LossInOrder(was: map<nat, Packet>, lost: seq<Slot<Packet>>, largestAcked: nat, threshold: nat, now: nat,
      hs: seq<S.Half>, i: nat)
    requires SentInOrder(was) && LostInOrder(was, lost, largestAcked, threshold, now)
    requires Hears(hs, lost) && hs[0].flight.Keys <= was.Keys && i < |lost|
    ensures S.InOrder(hs[i], S.EvLost(lost[i].key))
  {
    StaysTracked(was, lost, hs, i);
    forall q | q in hs[i].flight
      ensures lost[i].key <= q
    {
      LossesAreLowest(was, lost, largestAcked, threshold, now, i, q);
    }
  }

  /** A whole sweep keeps the stream's queue clean, and each of its packets the newest copy unless probed. */
  lemma {:induction false} SweepKeepsOrderly(was: map<nat, Packet>, lost: seq<Slot<Packet>>, largestAcked: nat,
      threshold: nat, now: nat, hs: seq<S.Half>, i: nat)
    requires SentInOrder(was) && LostInOrder(was, lost, largestAcked, threshold, now)
    requires Hears(hs, lost) && hs[0].flight.Keys <= was.Keys && i <= |lost|
    requires S.Inv(hs[0]) && S.Orderly(hs[0])
    ensures S.Inv(hs[i]) && S.Orderly(hs[i]) && S.Clean(hs[i])
  {
    if i > 0 {
      var k := i - 1;
      SweepKeepsOrderly(was, lost, largestAcked, threshold, now, hs, k);
      LossInOrder(was, lost, largestAcked, threshold, now, hs, k);
      assert HearsOne(hs[k], lost[k].key, hs[i]);
      if lost[k].key in hs[k].flight {
        S.NextKeeps(hs[k], S.EvLost(lost[k].key), hs[i]);
        S.NextKeepsOrderly(hs[k], S.EvLost(lost[k].key), hs[i]);
      }
    }
  }
}
