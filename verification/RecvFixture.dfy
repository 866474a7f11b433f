/**
 The receive benchmark's run: a payload's chunks arrive in any order, possibly again and again, and one read returns it.
 */
module RecvFixture {
  import opened Wrappers
  import opened Varint
  import opened RangeList
  import opened RecvHalf
  import opened RecvStream

  const CHUNK: nat := 1024

  /** Chunk numbers below `n`, each exactly once. */
  ghost predicate Permutation(order: seq<nat>, n: nat) {
    && |order| == n
    && (forall k :: 0 <= k < n ==> order[k] < n)
    && (forall j, k :: 0 <= j < k < n ==> order[j] != order[k])
    && (forall c: nat :: c < n ==> c in order)
  }

  /** The `k`th entry of the sparse order: odd numbers downward, then even numbers upward. */
  function SparseAt(n: nat, k: nat): int {
    if k < n / 2 then n - 1 - 2 * k else 2 * (k - n / 2)
  }

  lemma SparseOnto(n: nat, c: nat) returns (k: nat)
    requires n % 2 == 0 && c < n
    ensures k < n && SparseAt(n, k) == c
  {
    k := if c % 2 == 1 then (n - 1 - c) / 2 else n / 2 + c / 2;
  }

  /** Fills the array with an order that leaves a hole after every arrival of the first half. */
  method FillSparseOrder(order: array<nat>)
    requires order.Length % 2 == 0 && order.Length > 0
    modifies order
    ensures Permutation(order[..], order.Length)
    ensures forall k :: 0 <= k < order.Length ==> order[k] == SparseAt(order.Length, k)
    ensures forall j, k :: 0 <= j < k < order.Length / 2 ==> order[j] > order[k]
    ensures forall j, k :: order.Length / 2 <= j < k < order.Length ==> order[j] < order[k]
    ensures forall k :: 0 <= k < order.Length ==> (order[k] % 2 == 1 <==> k < order.Length / 2)
  {
    var n := order.Length;
    var out, odd := 0, n - 1;
    while true
      invariant 0 <= out < n / 2 && odd == n - 1 - 2 * out
      invariant forall k :: 0 <= k < out ==> order[k] == SparseAt(n, k)
      decreases odd
    {
      order[out] := odd;
      out := out + 1;
      if odd == 1 {
        break;
      }
      odd := odd - 2;
    }
    var even := 0;
    while even < n
      invariant n / 2 <= out <= n && even == 2 * (out - n / 2)
      invariant forall k :: 0 <= k < out ==> order[k] == SparseAt(n, k)
    {
      order[out] := even;
      out := out + 1;
      even := even + 2;
    }
    forall c: nat | c < n
      ensures c in order[..]
    {
      var k := SparseOnto(n, c);
      assert order[..][k] == c;
    }
  }

  function ChunkOf(payload: seq<Byte>, c: nat): seq<Byte>
    requires CHUNK * (c + 1) <= |payload|
  {
    payload[CHUNK * c..CHUNK * (c + 1)]
  }

  /** The offsets of the chunks listed. */
  ghost function Arrived(order: seq<nat>): set<nat> {
    if order == [] then {}
    else Arrived(order[..|order| - 1]) + Span(CHUNK * order[|order| - 1], CHUNK * (order[|order| - 1] + 1))
  }

  lemma {:induction false} ArrivedHas(order: seq<nat>, c: nat)
    requires c in order
    ensures Span(CHUNK * c, CHUNK * (c + 1)) <= Arrived(order)
  {
    var last := order[|order| - 1];
    if c != last {
      assert order == order[..|order| - 1] + [last];
      ArrivedHas(order[..|order| - 1], c);
    }
  }

  lemma {:induction false} ArrivedBelow(order: seq<nat>, n: nat)
    requires forall k :: 0 <= k < |order| ==> order[k] < n
    ensures forall x :: x in Arrived(order) ==> x < CHUNK * n
  {
    if order != [] {
      assert CHUNK * (order[|order| - 1] + 1) <= CHUNK * n;
      ArrivedBelow(order[..|order| - 1], n);
    }
  }

  /** Once every chunk has arrived, so has every byte. */
  lemma AllArrived(order: seq<nat>, n: nat)
    requires forall k :: 0 <= k < |order| ==> order[k] < n
    requires forall c: nat :: c < n ==> c in order
    ensures Arrived(order) == Span(0, CHUNK * n)
  {
    ArrivedBelow(order, n);
    forall x: nat | x < CHUNK * n
      ensures x in Arrived(order)
    {
      ArrivedHas(order, x / CHUNK);
      assert x in Span(CHUNK * (x / CHUNK), CHUNK * (x / CHUNK + 1));
    }
  }

  /** A stream some chunks of a payload have reached: nothing read, nothing closed, the bytes held are the payload's. */
  ghost predicate Gathering(h: Half, payload: seq<Byte>) {
    && Faithful(h, payload) && h.readOffset == 0 && h.endOffset <= |payload|
    && h.finalSize == None && !h.finSeen && !h.reset && h.state == Recv
  }

  lemma GatherOne(h: Half, payload: seq<Byte>, c: nat, maxSpan: nat)
    requires Inv(h) && Gathering(h, payload) && CHUNK * (c + 1) <= |payload| <= Min(maxSpan, MAX_U64)
    ensures var data := ChunkOf(payload, c);
      && Refusal(h, CHUNK * c, data, false, maxSpan) == None
      && Gathering(Accept(h, CHUNK * c, data, false), payload)
      && Received(Accept(h, CHUNK * c, data, false)) == Received(h) + Span(CHUNK * c, CHUNK * (c + 1))
  {
    var data := ChunkOf(payload, c);
    AcceptKeeps(h, CHUNK * c, data, false, maxSpan);
    AcceptFaithful(h, CHUNK * c, data, false, payload);
  }

  /** One chunk arrives. */
  method Deliver(s: Stream, payload: seq<Byte>, c: nat)
    requires s.Valid() && Gathering(s.Abs(), payload)
    requires CHUNK * (c + 1) <= |payload| <= Min(s.maxBufferedSpan, MAX_U64)
    modifies s
    ensures s.Valid() && Gathering(s.Abs(), payload) && s.maxBufferedSpan == old(s.maxBufferedSpan)
    ensures Received(s.Abs()) == old(Received(s.Abs())) + Span(CHUNK * c, CHUNK * (c + 1))
  {
    GatherOne(s.Abs(), payload, c, s.maxBufferedSpan);
    var refused := s.Receive(CHUNK * c, ChunkOf(payload, c), false);
  }

  /** Everything can be read at once, and then nothing is left. */
  method ReadAll(s: Stream, payload: seq<Byte>) returns (readable: nat, out: seq<Byte>)
    requires s.Valid() && Gathering(s.Abs(), payload) && Received(s.Abs()) == Span(0, |payload|)
    modifies s
    ensures s.Valid() && readable == |payload| && out == payload
    ensures s.readOffset == |payload| && s.bytes == [] && s.ranges == []
  {
    CompleteCanRead(s.Abs(), payload);
    ghost var h := s.Abs();
    var src := s.Peek();
    readable := |src|;
    WholeSpan(h.have.Keys, |src|, |payload|);
    out := s.Read(|payload|);
    WholeSpan(h.have.Keys, |out|, |payload|);
    CompleteReads(h, payload, out, s.Abs());
    assert payload[0..] == payload;
    EmptyRanges(s.ranges, s.have);
  }

  /** A prefix of a whole span that stops where the span stops is all of it. */
  lemma WholeSpan(s: set<nat>, n: nat, length: nat)
    requires s == Span(0, length) && Span(0, n) <= s && (n < length ==> n !in s)
    ensures n == length
  {
    assert length in Span(0, n) <==> length < n;
  }

  /**
   For every order of arrival, with any repeats, in which each chunk turns up: the whole payload can be read, one read
   returns it, and no byte or range stays behind.
   */
  method Reassemble(payload: seq<Byte>, n: nat, order: seq<nat>) returns (s: Stream, readable: nat, out: seq<Byte>)
    requires |payload| == CHUNK * n <= MAX_U64
    requires forall k :: 0 <= k < |order| ==> order[k] < n
    requires forall c: nat :: c < n ==> c in order
    ensures fresh(s) && s.Valid() && readable == |payload| && out == payload
    ensures s.readOffset == |payload| && s.bytes == [] && s.ranges == []
  {
    s := new Stream(|payload|);
    var k := 0;
    while k < |order|
      invariant k <= |order| && fresh(s) && s.Valid() && s.maxBufferedSpan == |payload|
      invariant Gathering(s.Abs(), payload) && Received(s.Abs()) == Arrived(order[..k])
    {
      assert order[..k + 1][..k] == order[..k];
      Deliver(s, payload, order[k]);
      k := k + 1;
    }
    assert order[..k] == order;
    AllArrived(order, n);
    readable, out := ReadAll(s, payload);
  }
}
