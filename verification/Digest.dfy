/**
 The byte stream hashed over a source tree: names and contents of the runtime and build files, each after its length.
 */
module Digest {
  import opened Varint
  import opened Seqs

  type Bytes = seq<Byte>

  const SRC: Bytes := [0x73, 0x72, 0x63, 0x2F]
  const BUILD_ZIG: Bytes := [0x62, 0x75, 0x69, 0x6C, 0x64, 0x2E, 0x7A, 0x69, 0x67]
  const BUILD_ZIG_ZON: Bytes := BUILD_ZIG + [0x2E, 0x7A, 0x6F, 0x6E]

  /** The files that count: below `src/`, or one of the two build files. */
  predicate Counts(name: Bytes) {
    SRC <= name || name == BUILD_ZIG || name == BUILD_ZIG_ZON
  }

  /** The counting files by their names. */
  lemma CountsByName(name: Bytes)
    ensures Counts(name) <==> Ascii("src/") <= name || name in {Ascii("build.zig"), Ascii("build.zig.zon")}
  {
    assert Ascii("src/") == SRC && Ascii("build.zig") == BUILD_ZIG && Ascii("build.zig.zon") == BUILD_ZIG_ZON;
  }

  /** Below `256^k` the bytes determine the number. */
  lemma {:induction false} BigEndianInjective(n: nat, m: nat, k: nat)
    requires n < Pow256(k) && m < Pow256(k) && BigEndian(n, k) == BigEndian(m, k)
    ensures n == m
  {
    if k > 0 {
      var a, b := BigEndian(n, k), BigEndian(m, k);
      assert a[k - 1] == n % 256 && b[k - 1] == m % 256;
      assert a[..k - 1] == BigEndian(n / 256, k - 1) && b[..k - 1] == BigEndian(m / 256, k - 1);
      BigEndianInjective(n / 256, m / 256, k - 1);
    }
  }

  /** A byte string after its length in eight bytes. */
  function Frame(data: Bytes): Bytes {
    BigEndian(|data|, 8) + data
  }

  /** The length has its highest byte first. */
  lemma FrameLayout(data: Bytes)
    requires |data| < 0x10000
    ensures Frame(data) == [0, 0, 0, 0, 0, 0, |data| / 256, |data| % 256] + data
  {
    var n := |data|;
    BigZero(6);
    assert BigEndian(n / 256, 7) == BigEndian(n / 256 / 256, 6) + [n / 256];
    assert BigEndian(n, 8) == [0, 0, 0, 0, 0, 0, n / 256, n % 256];
  }

  lemma BigZero(k: nat)
    ensures BigEndian(0, k) == seq(k, _ => 0)
  {
  }

  /** Eight bytes hold the length. */
  ghost predicate Fits(data: Bytes) { |data| < Pow256(8) }

  lemma FramesSplit(a: Bytes, restA: Bytes, b: Bytes, restB: Bytes)
    requires Fits(a) && Fits(b) && Frame(a) + restA == Frame(b) + restB
    ensures a == b && restA == restB
  {
    var s, t := Frame(a) + restA, Frame(b) + restB;
    assert s[..8] == BigEndian(|a|, 8) && t[..8] == BigEndian(|b|, 8);
    BigEndianInjective(|a|, |b|, 8);
    assert s[8..8 + |a|] == a && t[8..8 + |b|] == b;
    assert s[8 + |a|..] == restA && t[8 + |b|..] == restB;
  }

  /** What is fed for the files of a list of names, in that order. */
  function Fed(tree: map<Bytes, Bytes>, names: seq<Bytes>): Bytes
    requires forall i :: 0 <= i < |names| ==> names[i] in tree
  {
    if names == [] then []
    else if Counts(names[0]) then Frame(names[0]) + Frame(tree[names[0]]) + Fed(tree, names[1..])
    else Fed(tree, names[1..])
  }

  lemma {:induction false} FedSnoc(tree: map<Bytes, Bytes>, names: seq<Bytes>, last: Bytes)
    requires (forall i :: 0 <= i < |names| ==> names[i] in tree) && last in tree
    ensures Fed(tree, names + [last])
      == Fed(tree, names) + if Counts(last) then Frame(last) + Frame(tree[last]) else []
  {
    if names == [] {
      assert names + [last] == [last] && Fed(tree, [last][1..]) == [];
    } else {
      assert (names + [last])[1..] == names[1..] + [last];
      FedSnoc(tree, names[1..], last);
    }
  }

  /** The hash takes bytes piece by piece; only their concatenation matters. */
  class Hash {
    var fed: Bytes

    constructor ()
      ensures fed == []
    {
      fed := [];
    }

    method Update(data: Bytes)
      modifies this
      ensures fed == old(fed) + data
    {
      fed := fed + data;
    }
  }

  method RuntimeDigest(tree: map<Bytes, Bytes>, names: seq<Bytes>) returns (digest: Hash)
    requires forall i :: 0 <= i < |names| ==> names[i] in tree
    ensures fresh(digest) && digest.fed == Fed(tree, names)
  {
    digest := new Hash();
    for i := 0 to |names|
      invariant fresh(digest) && digest.fed == Fed(tree, names[..i])
    {
      var name := names[i];
      FedSnoc(tree, names[..i], name);
      assert names[..i + 1] == names[..i] + [name];
      if !Counts(name) {
        continue;
      }
      digest.Update(Frame(name));
      digest.Update(Frame(tree[name]));
    }
    assert names[..|names|] == names;
  }

  // -- sorted names --

  /** Byte order, a prefix first. */
  predicate Less(a: Bytes, b: Bytes) {
    if b == [] then false
    else if a == [] then true
    else a[0] < b[0] || (a[0] == b[0] && Less(a[1..], b[1..]))
  }

  lemma {:induction false} LessTrans(a: Bytes, b: Bytes, c: Bytes)
    requires Less(a, b) && Less(b, c)
    ensures Less(a, c)
  {
    if a != [] && a[0] == b[0] == c[0] {
      LessTrans(a[1..], b[1..], c[1..]);
    }
  }

  lemma {:induction false} LessIrreflexive(a: Bytes)
    ensures !Less(a, a)
  {
    if a != [] {
      LessIrreflexive(a[1..]);
    }
  }

  ghost predicate Ascending(names: seq<Bytes>) {
    forall i, j :: 0 <= i < j < |names| ==> Less(names[i], names[j])
  }

  /** The sorted names of a tree. */
  ghost predicate Listing(tree: map<Bytes, Bytes>, names: seq<Bytes>) {
    Ascending(names) && forall name :: name in names <==> name in tree
  }

  /** The part of a tree that counts. */
  ghost function Runtime(tree: map<Bytes, Bytes>): map<Bytes, Bytes> {
    map name | name in tree && Counts(name) :: tree[name]
  }

  /** The pairs that are fed, in order. */
  function Pairs(tree: map<Bytes, Bytes>, names: seq<Bytes>): seq<(Bytes, Bytes)>
    requires forall i :: 0 <= i < |names| ==> names[i] in tree
  {
    if names == [] then []
    else if Counts(names[0]) then [(names[0], tree[names[0]])] + Pairs(tree, names[1..])
    else Pairs(tree, names[1..])
  }

  function FeedPairs(pairs: seq<(Bytes, Bytes)>): Bytes {
    if pairs == [] then [] else Frame(pairs[0].0) + Frame(pairs[0].1) + FeedPairs(pairs[1..])
  }

  lemma {:induction false} FedIsPairs(tree: map<Bytes, Bytes>, names: seq<Bytes>)
    requires forall i :: 0 <= i < |names| ==> names[i] in tree
    ensures Fed(tree, names) == FeedPairs(Pairs(tree, names))
  {
    if names != [] {
      FedIsPairs(tree, names[1..]);
    }
  }

  ghost predicate AllFit(pairs: seq<(Bytes, Bytes)>) {
    forall i :: 0 <= i < |pairs| ==> Fits(pairs[i].0) && Fits(pairs[i].1)
  }

  lemma {:induction false} FeedInjective(p: seq<(Bytes, Bytes)>, q: seq<(Bytes, Bytes)>)
    requires AllFit(p) && AllFit(q) && FeedPairs(p) == FeedPairs(q)
    ensures p == q
  {
    if p != [] && q != [] {
      var restP, restQ := FeedPairs(p[1..]), FeedPairs(q[1..]);
      Assoc(Frame(p[0].0), Frame(p[0].1), restP);
      Assoc(Frame(q[0].0), Frame(q[0].1), restQ);
      FramesSplit(p[0].0, Frame(p[0].1) + restP, q[0].0, Frame(q[0].1) + restQ);
      FramesSplit(p[0].1, restP, q[0].1, restQ);
      FeedInjective(p[1..], q[1..]);
      assert p == [p[0]] + p[1..] && q == [q[0]] + q[1..];
    }
  }

  /** The pairs fed are the counting part of the tree. */
  lemma {:induction false} PairsHave(tree: map<Bytes, Bytes>, names: seq<Bytes>, name: Bytes, data: Bytes)
    requires forall i :: 0 <= i < |names| ==> names[i] in tree
    ensures (name, data) in Pairs(tree, names) <==> name in names && Counts(name) && tree[name] == data
  {
    if names != [] {
      PairsHave(tree, names[1..], name, data);
      assert name in names <==> name == names[0] || name in names[1..];
    }
  }

  ghost predicate NamesAscend(pairs: seq<(Bytes, Bytes)>) {
    forall i, j :: 0 <= i < j < |pairs| ==> Less(pairs[i].0, pairs[j].0)
  }

  lemma {:induction false} PairsAscend(tree: map<Bytes, Bytes>, names: seq<Bytes>)
    requires (forall i :: 0 <= i < |names| ==> names[i] in tree) && Ascending(names)
    ensures NamesAscend(Pairs(tree, names))
    ensures forall i :: 0 <= i < |Pairs(tree, names)| ==> Pairs(tree, names)[i].0 in names
  {
    if names != [] {
      PairsAscend(tree, names[1..]);
    }
  }

  lemma HasMember(p: seq<(Bytes, Bytes)>)
    ensures p != [] ==> exists x :: x in p
  {
    assert p != [] ==> p[0] in p;
  }

  /** Ascending pairs are determined by which they are. */
  lemma {:induction false} AscendingUnique(p: seq<(Bytes, Bytes)>, q: seq<(Bytes, Bytes)>)
    requires NamesAscend(p) && NamesAscend(q) && forall x :: x in p <==> x in q
    ensures p == q
  {
    HasMember(p);
    HasMember(q);
    if p != [] {
      SameFirst(p, q);
      SameRest(p, q);
      AscendingUnique(p[1..], q[1..]);
      assert p == [p[0]] + p[1..] && q == [q[0]] + q[1..];
    }
  }

  lemma SameFirst(p: seq<(Bytes, Bytes)>, q: seq<(Bytes, Bytes)>)
    requires NamesAscend(p) && NamesAscend(q) && p != [] && q != [] && p[0] in q && q[0] in p
    ensures p[0] == q[0]
  {
    var i :| 0 <= i < |q| && q[i] == p[0];
    var j :| 0 <= j < |p| && p[j] == q[0];
    if i > 0 && j > 0 {
      LessTrans(p[0].0, p[j].0, p[0].0);
      LessIrreflexive(p[0].0);
    }
  }

  lemma SameRest(p: seq<(Bytes, Bytes)>, q: seq<(Bytes, Bytes)>)
    requires NamesAscend(p) && NamesAscend(q) && p != [] && q != [] && p[0] == q[0]
    requires forall x :: x in p <==> x in q
    ensures forall x :: x in p[1..] <==> x in q[1..]
  {
    LessIrreflexive(p[0].0);
    forall x
      ensures x in p[1..] <==> x in q[1..]
    {
      assert x in p <==> x == p[0] || x in p[1..];
      assert x in q <==> x == q[0] || x in q[1..];
    }
  }

  lemma SamePairs(a: map<Bytes, Bytes>, namesA: seq<Bytes>, b: map<Bytes, Bytes>, namesB: seq<Bytes>)
    requires Listing(a, namesA) && Listing(b, namesB)
    ensures Pairs(a, namesA) == Pairs(b, namesB) <==> Runtime(a) == Runtime(b)
  {
    var p, q := Pairs(a, namesA), Pairs(b, namesB);
    forall name, data
      ensures (name, data) in p <==> name in Runtime(a) && Runtime(a)[name] == data
      ensures (name, data) in q <==> name in Runtime(b) && Runtime(b)[name] == data
    {
      PairsHave(a, namesA, name, data);
      PairsHave(b, namesB, name, data);
    }
    if Runtime(a) == Runtime(b) {
      PairsAscend(a, namesA);
      PairsAscend(b, namesB);
      forall x
        ensures x in p <==> x in q
      {
        assert x == (x.0, x.1);
      }
      AscendingUnique(p, q);
    } else if p == q {
      SameMaps(Runtime(a), Runtime(b), p);
    }
  }

  lemma SameMaps(a: map<Bytes, Bytes>, b: map<Bytes, Bytes>, p: seq<(Bytes, Bytes)>)
    requires forall name, data :: (name, data) in p <==> name in a && a[name] == data
    requires forall name, data :: (name, data) in p <==> name in b && b[name] == data
    ensures a == b
  {
    forall name
      ensures name in a <==> name in b
      ensures name in a && name in b ==> a[name] == b[name]
    {
      assert name in a ==> (name, a[name]) in p;
      assert name in b ==> (name, b[name]) in p;
    }
  }

  lemma {:induction false} PairsFit(tree: map<Bytes, Bytes>, names: seq<Bytes>)
    requires forall i :: 0 <= i < |names| ==> names[i] in tree && Fits(names[i]) && Fits(tree[names[i]])
    ensures AllFit(Pairs(tree, names))
  {
    if names != [] {
      PairsFit(tree, names[1..]);
    }
  }

  ghost predicate TreeFits(tree: map<Bytes, Bytes>) {
    forall name :: name in tree ==> Fits(name) && Fits(tree[name])
  }

  /** Two trees feed the same bytes exactly when their runtime and build files agree, names and contents. */
  lemma FedSameIff(a: map<Bytes, Bytes>, namesA: seq<Bytes>, b: map<Bytes, Bytes>, namesB: seq<Bytes>)
    requires TreeFits(a) && TreeFits(b) && Listing(a, namesA) && Listing(b, namesB)
    ensures Fed(a, namesA) == Fed(b, namesB) <==> Runtime(a) == Runtime(b)
  {
    FedIsPairs(a, namesA);
    FedIsPairs(b, namesB);
    PairsFit(a, namesA);
    PairsFit(b, namesB);
    if Fed(a, namesA) == Fed(b, namesB) {
      FeedInjective(Pairs(a, namesA), Pairs(b, namesB));
    }
    SamePairs(a, namesA, b, namesB);
  }
}
