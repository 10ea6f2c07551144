/** Block headers and the parent chains (lineages) they form in a header store.
    Everything the chain store, the header chain and the uncle rules prove about
    ancestry is reduced to the few facts about `LineageOf` below. */
module Lineage {

  /** A header hash. Hashing is modelled as a field of the header; the steps that
      store headers demand that distinct headers carry distinct hashes. */
  type Hash = nat

  type Address = nat

  /** What the database getters return for a missing hash. */
  const ZERO_HASH: Hash := 0

  datatype Option<+T> = None | Some(value: T)

  datatype Header = Header(
    hash: Hash,
    parentHash: Hash,
    number: nat,
    time: nat,
    difficulty: nat,
    gasLimit: nat,
    gasUsed: nat,
    coinbase: Address,
    extra: seq<nat>)

  type Headers = map<Hash, Header>

  /** Header `h` sits under its own hash and, unless it is the genesis, right above its parent. */
  ghost predicate Placed(hs: Headers, g: Header, h: Hash)
    requires h in hs
  {
    && hs[h].hash == h
    && h != ZERO_HASH
    && (hs[h] == g || (hs[h].number > 0 && hs[h].parentHash in hs && hs[hs[h].parentHash].number + 1 == hs[h].number))
  }

  /** Every stored header reaches the genesis `g` through stored parents. */
  ghost predicate Linked(hs: Headers, g: Header) {
    && g.number == 0
    && g.parentHash == ZERO_HASH
    && g.hash in hs
    && hs[g.hash] == g
    && forall h {:trigger Placed(hs, g, h)} | h in hs :: Placed(hs, g, h)
  }

  /** A header that may join the store: unused hash, known parent, consecutive number. */
  ghost predicate Attachable(hs: Headers, b: Header) {
    && b.hash !in hs
    && b.hash != ZERO_HASH
    && b.parentHash in hs
    && b.number == hs[b.parentHash].number + 1
  }

  /** The headers from the genesis up to `h`, indexed by block number. */
  ghost function LineageOf(hs: Headers, h: Hash): (l: seq<Header>)
    decreases if h in hs then hs[h].number else 0
  {
    if h !in hs then []
    else if hs[h].parentHash in hs
      && hs[hs[h].parentHash].number < hs[h].number then LineageOf(hs, hs[h].parentHash) + [hs[h]]
    else [hs[h]]
  }

  /** In a linked store a lineage runs from the genesis up, one header per number,
      all of them stored. */
  lemma {:induction false} LineageShape(hs: Headers, g: Header, h: Hash)
    requires Linked(hs, g) && h in hs
    ensures var l := LineageOf(hs, h);
            && |l| == hs[h].number + 1
            && l[0] == g
            && l[|l| - 1] == hs[h]
            && hs[h].hash == h
            && forall n | 0 <= n < |l| :: l[n].number == n && l[n].hash in hs && hs[l[n].hash] == l[n]
    decreases hs[h].number
  {
    assert Placed(hs, g, h);
    if hs[h].number > 0 {
      LineageShape(hs, g, hs[h].parentHash);
    } else {
      ZeroNotStored(hs, g);
    }
  }

  lemma {:induction false} ZeroNotStored(hs: Headers, g: Header)
    requires Linked(hs, g)
    ensures ZERO_HASH !in hs
  {
    assert Placed(hs, g, if ZERO_HASH in hs then ZERO_HASH else g.hash);
  }

  /** Neighbours in a lineage are parent and child. */
  lemma {:induction false} LineageParent(hs: Headers, g: Header, h: Hash, n: nat)
    requires Linked(hs, g) && h in hs && 0 < n <= hs[h].number
    ensures var l := LineageOf(hs, h); |l| == hs[h].number + 1 && l[n].parentHash == l[n - 1].hash
    decreases hs[h].number
  {
    assert Placed(hs, g, h);
    LineageShape(hs, g, hs[h].parentHash);
    if n < hs[h].number {
      LineageParent(hs, g, hs[h].parentHash, n);
    }
  }

  /** The lineage of an ancestor is the matching prefix. */
  lemma {:induction false} LineagePrefix(hs: Headers, g: Header, h: Hash, n: nat)
    requires Linked(hs, g) && h in hs && n <= hs[h].number
    ensures var l := LineageOf(hs, h); |l| == hs[h].number + 1 && LineageOf(hs, l[n].hash) == l[..n + 1]
    decreases hs[h].number
  {
    LineageShape(hs, g, h);
    assert Placed(hs, g, h);
    var l := LineageOf(hs, h);
    if n == hs[h].number {
      assert l[..n + 1] == l;
    } else {
      LineagePrefix(hs, g, hs[h].parentHash, n);
      assert l[..n + 1] == LineageOf(hs, hs[h].parentHash)[..n + 1];
    }
  }

  /** Two lineages that meet at one number agree on everything below it. */
  lemma {:induction false} SharedPrefix(hs: Headers, g: Header, a: Hash, b: Hash, n: nat)
    requires Linked(hs, g) && a in hs && b in hs
    requires n < |LineageOf(hs, a)| && n < |LineageOf(hs, b)|
    requires LineageOf(hs, a)[n].hash == LineageOf(hs, b)[n].hash
    ensures LineageOf(hs, a)[..n + 1] == LineageOf(hs, b)[..n + 1]
  {
    LineageShape(hs, g, a);
    LineageShape(hs, g, b);
    LineagePrefix(hs, g, a, n);
    LineagePrefix(hs, g, b, n);
  }

  /** Storing an attachable header keeps the store linked. */
  lemma {:induction false} AttachKeepsLinked(hs: Headers, g: Header, b: Header)
    requires Linked(hs, g) && Attachable(hs, b)
    ensures Linked(hs[b.hash := b], g)
  {
    var hs' := hs[b.hash := b];
    forall h | h in hs'
      ensures Placed(hs', g, h)
    {
      if h != b.hash {
        assert Placed(hs, g, h);
      }
    }
  }

  /** Storing an attachable header changes no older lineage. */
  lemma {:induction false} AttachKeepsLineage(hs: Headers, g: Header, b: Header, h: Hash)
    requires Linked(hs, g) && Attachable(hs, b) && h in hs
    ensures LineageOf(hs[b.hash := b], h) == LineageOf(hs, h)
    decreases hs[h].number
  {
    assert Placed(hs, g, h);
    if hs[h].number > 0 {
      AttachKeepsLineage(hs, g, b, hs[h].parentHash);
    } else {
      ZeroNotStored(hs, g);
    }
  }

  /** The new header's lineage is its parent's lineage with the header on top. */
  lemma {:induction false} AttachExtendsLineage(hs: Headers, g: Header, b: Header)
    requires Linked(hs, g) && Attachable(hs, b)
    ensures LineageOf(hs[b.hash := b], b.hash) == LineageOf(hs, b.parentHash) + [b]
  {
    AttachKeepsLineage(hs, g, b, b.parentHash);
  }

  /** The sum of difficulties along a chain of headers. */
  ghost function Work(l: seq<Header>): (w: int) {
    if l == [] then 0 else Work(l[..|l| - 1]) + l[|l| - 1].difficulty
  }

  /** Work is monotone in the prefix when every added header is positive. */
  lemma {:induction false} WorkGrows(l: seq<Header>, n: nat)
    requires n <= |l|
    requires forall i | n <= i < |l| :: l[i].difficulty > 0
    ensures Work(l[..n]) <= Work(l)
    ensures n < |l| ==> Work(l[..n]) < Work(l)
  {
    if n == |l| {
      assert l[..n] == l;
    } else {
      var m := l[..|l| - 1];
      WorkGrows(m, n);
      assert m[..n] == l[..n];
    }
  }
}
