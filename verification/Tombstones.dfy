/**
 Slots sorted by key in which a removal only marks the slot dead. Such a sequence stands for the
 finite map of its live slots; the lemmas say what each slot operation does to that map.
 */
module Tombstones {

  datatype Slot<V> = Slot(key: nat, value: V, dead: bool)

  ghost predicate Sorted<V>(s: seq<Slot<V>>) {
    forall i, j :: 0 <= i < j < |s| ==> s[i].key < s[j].key
  }

  ghost function Init<V>(s: seq<Slot<V>>): seq<Slot<V>>
    requires s != []
  {
    s[..|s| - 1]
  }

  ghost function Last<V>(s: seq<Slot<V>>): Slot<V>
    requires s != []
  {
    s[|s| - 1]
  }

  /** The map the live slots stand for. */
  ghost function View<V>(s: seq<Slot<V>>): map<nat, V> {
    if s == [] then map[]
    else if Last(s).dead then View(Init(s))
    else View(Init(s))[Last(s).key := Last(s).value]
  }

  /** The sum of `w` over the live slots. */
  ghost function Weight<V>(s: seq<Slot<V>>, w: V -> nat): nat {
    if s == [] then 0
    else Weight(Init(s), w) + if Last(s).dead then 0 else w(Last(s).value)
  }

  /** The number of live slots. */
  ghost function Live<V>(s: seq<Slot<V>>): (n: nat)
    ensures n <= |s|
  {
    if s == [] then 0
    else Live(Init(s)) + if Last(s).dead then 0 else 1
  }

  /** The live slots, in order. */
  ghost function Compacted<V>(s: seq<Slot<V>>): seq<Slot<V>> {
    if s == [] then []
    else if Last(s).dead then Compacted(Init(s))
    else Compacted(Init(s)) + [Last(s)]
  }

  ghost predicate IsLargest<V>(m: map<nat, V>, k: nat) {
    k in m && forall j :: j in m ==> j <= k
  }

  lemma {:induction false} HasLargest<V>(m: map<nat, V>)
    requires m != map[]
    ensures exists k :: IsLargest(m, k)
    decreases |m|
  {
    var k :| k in m;
    var rest := m - {k};
    assert forall j :: j in m ==> j == k || j in rest;
    if rest == map[] {
      assert IsLargest(m, k);
    } else {
      HasLargest(rest);
      var j :| IsLargest(rest, j);
      assert IsLargest(m, if j < k then k else j);
    }
  }

  /** The sum of `w` over a map, taken from the largest key down. */
  ghost function MapWeight<V>(m: map<nat, V>, w: V -> nat): nat
    decreases |m|
  {
    if m == map[] then 0
    else
      HasLargest(m);
      var k :| IsLargest(m, k);
      MapWeight(m - {k}, w) + w(m[k])
  }

  lemma MapWeightStep<V>(m: map<nat, V>, k: nat, w: V -> nat)
    requires IsLargest(m, k)
    ensures MapWeight(m, w) == MapWeight(m - {k}, w) + w(m[k])
  {
    forall j | IsLargest(m, j) ensures j == k {}
  }

  /** Taking any key out lowers the total by that key's share. */
  lemma {:induction false} MapWeightRemove<V>(m: map<nat, V>, k: nat, w: V -> nat)
    requires k in m
    ensures MapWeight(m, w) == MapWeight(m - {k}, w) + w(m[k])
    decreases |m|
  {
    HasLargest(m);
    var j :| IsLargest(m, j);
    MapWeightStep(m, j, w);
    if j != k {
      MapWeightRemove(m - {j}, k, w);
      assert IsLargest(m - {k}, j);
      MapWeightStep(m - {k}, j, w);
      assert m - {k} - {j} == m - {j} - {k};
    }
  }

  lemma {:induction false} KeysAtMost<V>(s: seq<Slot<V>>, bound: nat)
    requires forall i :: 0 <= i < |s| ==> s[i].key <= bound
    ensures forall k :: k in View(s) ==> k <= bound
  {
    if s != [] {
      KeysAtMost(Init(s), bound);
    }
  }

  /** The last key is new to the slots before it. */
  lemma LastIsNew<V>(s: seq<Slot<V>>)
    requires Sorted(s) && s != []
    ensures forall k :: k in View(Init(s)) ==> k < Last(s).key
  {
    if |s| > 1 {
      KeysAtMost(Init(s), Last(Init(s)).key);
    }
  }

  /** The running total over the slots is the total over the map they stand for. */
  lemma {:induction false} WeightIsMapWeight<V>(s: seq<Slot<V>>, w: V -> nat)
    requires Sorted(s)
    ensures Weight(s, w) == MapWeight(View(s), w)
  {
    if s != [] {
      WeightIsMapWeight(Init(s), w);
      LastIsNew(s);
      if !Last(s).dead {
        MapWeightStep(View(s), Last(s).key, w);
        assert View(s) - {Last(s).key} == View(Init(s));
      }
    }
  }

  lemma {:induction false} LiveIsSize<V>(s: seq<Slot<V>>)
    requires Sorted(s)
    ensures Live(s) == |View(s)|
  {
    if s != [] {
      LiveIsSize(Init(s));
      LastIsNew(s);
    }
  }

  /** A slot's key is in the map exactly when the slot is live, with its value. */
  lemma {:induction false} ViewAt<V>(s: seq<Slot<V>>, i: nat)
    requires Sorted(s) && i < |s|
    ensures s[i].key in View(s) <==> !s[i].dead
    ensures !s[i].dead ==> View(s)[s[i].key] == s[i].value
  {
    LastIsNew(s);
    if i < |s| - 1 {
      ViewAt(Init(s), i);
    }
  }

  /** Every key of the map is the key of some live slot. */
  lemma {:induction false} SlotOf<V>(s: seq<Slot<V>>, k: nat) returns (i: nat)
    requires k in View(s)
    ensures i < |s| && !s[i].dead && s[i].key == k
  {
    if !Last(s).dead && Last(s).key == k {
      i := |s| - 1;
    } else {
      i := SlotOf(Init(s), k);
    }
  }

  /** Writing over slot `i` under the same key: the map loses or sets that key, the count of live slots follows. */
  lemma Overwrite<V>(s: seq<Slot<V>>, i: nat, x: Slot<V>)
    requires Sorted(s) && i < |s| && x.key == s[i].key
    ensures Sorted(s[i := x])
    ensures View(s[i := x]) == if x.dead then View(s) - {x.key} else View(s)[x.key := x.value]
    ensures Live(s[i := x]) + (if s[i].dead then 0 else 1) == Live(s) + (if x.dead then 0 else 1)
  {
    OverwriteView(s, i, x);
    OverwriteLive(s, i, x);
  }

  lemma {:induction false} OverwriteView<V>(s: seq<Slot<V>>, i: nat, x: Slot<V>)
    requires Sorted(s) && i < |s| && x.key == s[i].key
    ensures View(s[i := x]) == if x.dead then View(s) - {x.key} else View(s)[x.key := x.value]
  {
    LastIsNew(s);
    if i == |s| - 1 {
      assert Init(s[i := x]) == Init(s);
    } else {
      assert Init(s[i := x]) == Init(s)[i := x];
      assert x.key < Last(s).key;
      OverwriteView(Init(s), i, x);
    }
  }

  lemma {:induction false} OverwriteLive<V>(s: seq<Slot<V>>, i: nat, x: Slot<V>)
    requires i < |s|
    ensures Live(s[i := x]) + (if s[i].dead then 0 else 1) == Live(s) + (if x.dead then 0 else 1)
  {
    if i == |s| - 1 {
      assert Init(s[i := x]) == Init(s);
    } else {
      assert Init(s[i := x]) == Init(s)[i := x];
      OverwriteLive(Init(s), i, x);
    }
  }

  lemma {:induction false} OverwriteWeight<V>(s: seq<Slot<V>>, i: nat, x: Slot<V>, w: V -> nat)
    requires i < |s|
    ensures Weight(s[i := x], w) + (if s[i].dead then 0 else w(s[i].value))
         == Weight(s, w) + (if x.dead then 0 else w(x.value))
  {
    var t := s[i := x];
    if i == |s| - 1 {
      assert Init(t) == Init(s);
    } else {
      assert Init(t) == Init(s)[i := x];
      OverwriteWeight(Init(s), i, x, w);
    }
  }

  ghost function Inserted<V>(s: seq<Slot<V>>, i: nat, x: Slot<V>): seq<Slot<V>>
    requires i <= |s|
  {
    s[..i] + [x] + s[i..]
  }

  lemma InsertedInit<V>(s: seq<Slot<V>>, i: nat, x: Slot<V>)
    requires i <= |s|
    ensures i == |s| ==> Init(Inserted(s, i, x)) == s && Last(Inserted(s, i, x)) == x
    ensures i < |s| ==> Init(Inserted(s, i, x)) == Inserted(Init(s), i, x) && Last(Inserted(s, i, x)) == Last(s)
  {
  }

  /** Inserting a live slot where its key belongs adds that key. */
  lemma Insert<V>(s: seq<Slot<V>>, i: nat, x: Slot<V>)
    requires Sorted(s) && i <= |s| && !x.dead
    requires forall k :: 0 <= k < i ==> s[k].key < x.key
    requires forall k :: i <= k < |s| ==> x.key < s[k].key
    ensures Sorted(Inserted(s, i, x)) && x.key !in View(s)
    ensures View(Inserted(s, i, x)) == View(s)[x.key := x.value]
    ensures Live(Inserted(s, i, x)) == Live(s) + 1
  {
    InsertSorted(s, i, x);
    InsertView(s, i, x);
    InsertLive(s, i, x);
  }

  lemma InsertSorted<V>(s: seq<Slot<V>>, i: nat, x: Slot<V>)
    requires Sorted(s) && i <= |s|
    requires forall k :: 0 <= k < i ==> s[k].key < x.key
    requires forall k :: i <= k < |s| ==> x.key < s[k].key
    ensures Sorted(Inserted(s, i, x))
  {
    var t := Inserted(s, i, x);
    forall a, b | 0 <= a < b < |t|
      ensures t[a].key < t[b].key
    {
      assert t[a] == if a < i then s[a] else if a == i then x else s[a - 1];
    }
  }

  lemma {:induction false} InsertView<V>(s: seq<Slot<V>>, i: nat, x: Slot<V>)
    requires Sorted(s) && i <= |s| && !x.dead
    requires forall k :: 0 <= k < i ==> s[k].key < x.key
    requires forall k :: i <= k < |s| ==> x.key < s[k].key
    ensures x.key !in View(s) && View(Inserted(s, i, x)) == View(s)[x.key := x.value]
  {
    InsertedInit(s, i, x);
    if i < |s| {
      InsertView(Init(s), i, x);
    } else if s != [] {
      KeysAtMost(s, Last(s).key);
    }
  }

  lemma {:induction false} InsertLive<V>(s: seq<Slot<V>>, i: nat, x: Slot<V>)
    requires i <= |s| && !x.dead
    ensures Live(Inserted(s, i, x)) == Live(s) + 1
  {
    InsertedInit(s, i, x);
    if i < |s| {
      InsertLive(Init(s), i, x);
    }
  }

  /** A live slot after the last adds its key. */
  lemma Append<V>(s: seq<Slot<V>>, x: Slot<V>)
    requires Sorted(s) && !x.dead && (s != [] ==> Last(s).key < x.key)
    ensures Sorted(s + [x]) && x.key !in View(s)
    ensures View(s + [x]) == View(s)[x.key := x.value]
    ensures Live(s + [x]) == Live(s) + 1
  {
    assert Init(s + [x]) == s;
    LastIsNew(s + [x]);
  }

  lemma AppendWeight<V>(s: seq<Slot<V>>, x: Slot<V>, w: V -> nat)
    requires !x.dead
    ensures Weight(s + [x], w) == Weight(s, w) + w(x.value)
  {
    assert Init(s + [x]) == s;
  }

  /** A dead first slot can be dropped. */
  lemma {:induction false} DropDead<V>(s: seq<Slot<V>>)
    requires s != [] && s[0].dead
    ensures View(s[1..]) == View(s) && Live(s[1..]) == Live(s)
  {
    if |s| > 1 {
      assert Init(s[1..]) == Init(s)[1..];
      DropDead(Init(s));
    }
  }

  lemma {:induction false} CompactedSorted<V>(s: seq<Slot<V>>)
    requires Sorted(s)
    ensures Sorted(Compacted(s)) && |Compacted(s)| == Live(s)
    ensures forall i :: 0 <= i < |Compacted(s)| ==> !Compacted(s)[i].dead && Compacted(s)[i].key <= Last(s).key
  {
    if s != [] {
      CompactedSorted(Init(s));
    }
  }

  /** A live first slot stays the first. */
  lemma {:induction false} CompactedFirst<V>(s: seq<Slot<V>>)
    requires s != [] && !s[0].dead
    ensures Compacted(s) != [] && Compacted(s)[0] == s[0]
  {
    if |s| > 1 {
      CompactedFirst(Init(s));
    }
  }

  /** Sweeping the dead slots out changes nothing the map can see. */
  lemma {:induction false} CompactedSame<V>(s: seq<Slot<V>>)
    ensures View(Compacted(s)) == View(s) && Live(Compacted(s)) == Live(s)
  {
    if s != [] {
      CompactedSame(Init(s));
      if !Last(s).dead {
        assert Init(Compacted(s)) == Compacted(Init(s));
      }
    }
  }

  lemma {:induction false} CompactedWeight<V>(s: seq<Slot<V>>, w: V -> nat)
    ensures Weight(Compacted(s), w) == Weight(s, w)
  {
    if s != [] {
      CompactedWeight(Init(s), w);
      var c := Compacted(Init(s)) + [Last(s)];
      assert Init(c) == Compacted(Init(s));
    }
  }

  /** With every slot live there is nothing to sweep. */
  lemma {:induction false} CompactedNothing<V>(s: seq<Slot<V>>)
    requires Live(s) == |s|
    ensures Compacted(s) == s
  {
    if s != [] {
      CompactedNothing(Init(s));
    }
  }
}
