/** The transaction lookup index: which block of the canonical chain holds a transaction. */
module TxIndex {
  import opened Lineage
  import opened Uncles

  datatype TxMeta = TxMeta(blockHash: Hash, number: nat, index: nat)

  type Index = map<Hash, TxMeta>

  /** Transaction `t` is at position `m` of the chain `l`. */
  ghost predicate At(bodies: Bodies, l: seq<Header>, t: Hash, m: TxMeta) {
    && m.number < |l|
    && l[m.number].hash == m.blockHash
    && m.blockHash in bodies
    && m.index < |bodies[m.blockHash].txs|
    && bodies[m.blockHash].txs[m.index] == t
  }

  /** No transaction occurs twice on the chain `l`. */
  ghost predicate Once(bodies: Bodies, l: seq<Header>) {
    forall t, m, m' :: At(bodies, l, t, m) && At(bodies, l, t, m') ==> m == m'
  }

  /** The index holds exactly the transactions of `l`, each with its true position. */
  ghost predicate Exact(idx: Index, bodies: Bodies, l: seq<Header>) {
    forall t, m :: At(bodies, l, t, m) <==> Maps(idx, t, m)
  }

  /** Looking a transaction up in an exact index finds it, in the block of that number and hash
      and at that place; and it finds every transaction of the chain. */
  lemma {:induction false} LookupFinds(idx: Index, bodies: Bodies, l: seq<Header>, t: Hash)
    requires Exact(idx, bodies, l)
    ensures t in idx ==>
              && idx[t].number < |l| && l[idx[t].number].hash == idx[t].blockHash && idx[t].blockHash in bodies
              && idx[t].index < |bodies[idx[t].blockHash].txs| && bodies[idx[t].blockHash].txs[idx[t].index] == t
    ensures forall n | 0 <= n < |l| && l[n].hash in bodies && t in bodies[l[n].hash].txs :: t in idx
  {
    if t in idx {
      assert Maps(idx, t, idx[t]);
    }
    forall n | 0 <= n < |l| && l[n].hash in bodies && t in bodies[l[n].hash].txs
      ensures t in idx
    {
      var txs := bodies[l[n].hash].txs;
      var i :| 0 <= i < |txs| && txs[i] == t;
      assert At(bodies, l, t, TxMeta(l[n].hash, n, i));
    }
  }

  ghost predicate Maps(idx: Index, t: Hash, m: TxMeta) {
    t in idx && idx[t] == m
  }

  /** Transaction `t` occurs on `l` above number `f`. */
  ghost predicate Above(bodies: Bodies, l: seq<Header>, f: int, t: Hash) {
    exists m :: At(bodies, l, t, m) && m.number > f
  }

  /** `idx` is `base` overwritten with the transactions of `l` above number `f`. */
  ghost predicate Overlaid(base: Index, idx: Index, bodies: Bodies, l: seq<Header>, f: int) {
    forall t, m :: Maps(idx, t, m) <==>
      (At(bodies, l, t, m) && m.number > f) || (Maps(base, t, m) && !Above(bodies, l, f, t))
  }

  /** The index after writing the first `n` transactions of a block. */
  ghost function WithTxs(idx: Index, h: Header, txs: seq<Hash>, n: nat): (r: Index)
    requires n <= |txs|
  {
    if n == 0 then idx else WithTxs(idx, h, txs, n - 1)[txs[n - 1] := TxMeta(h.hash, h.number, n - 1)]
  }

  method WriteTransactions(idx: Index, b: Block) returns (r: Index)
    ensures r == WithTxs(idx, b.header, b.body.txs, |b.body.txs|)
  {
    r := idx;
    for i := 0 to |b.body.txs|
      invariant r == WithTxs(idx, b.header, b.body.txs, i)
    {
      r := r[b.body.txs[i] := TxMeta(b.header.hash, b.header.number, i)];
    }
  }

  lemma {:induction false} WithTxsMaps(idx: Index, h: Header, txs: seq<Hash>, n: nat, t: Hash, m: TxMeta)
    requires n <= |txs|
    requires forall i, j | 0 <= i < j < |txs| :: txs[i] != txs[j]
    ensures Maps(WithTxs(idx, h, txs, n), t, m) <==>
            (m == TxMeta(h.hash, h.number, m.index) && m.index < n && txs[m.index] == t)
              || (Maps(idx, t, m) && t !in txs[..n])
  {
    if n > 0 {
      WithTxsMaps(idx, h, txs, n - 1, t, m);
      assert txs[..n] == txs[..n - 1] + [txs[n - 1]];
      assert txs[n - 1] !in txs[..n - 1];
    }
  }

  /** Writing the block at number `n` on top of an overlay that reaches down to `n`
      extends the overlay by one block. */
  lemma {:induction false} OverlayOneMore(base: Index, idx: Index, bodies: Bodies, l: seq<Header>, n: nat)
    requires n < |l| && l[n].number == n && l[n].hash in bodies
    requires Once(bodies, l) && Overlaid(base, idx, bodies, l, n)
    ensures var txs := bodies[l[n].hash].txs;
            Overlaid(base, WithTxs(idx, l[n], txs, |txs|), bodies, l, n - 1)
  {
    var h, txs := l[n], bodies[l[n].hash].txs;
    var idx' := WithTxs(idx, h, txs, |txs|);
    DistinctInBlock(bodies, l, n);
    forall t, m
      ensures Maps(idx', t, m) <==>
        (At(bodies, l, t, m) && m.number > n - 1) || (Maps(base, t, m) && !Above(bodies, l, n - 1, t))
    {
      WithTxsMaps(idx, h, txs, |txs|, t, m);
      assert txs[..|txs|] == txs;
      AboveSplit(bodies, l, n, t);
      assert m.number == n
             ==> (At(bodies, l, t, m) <==> m == TxMeta(h.hash, n, m.index) && m.index < |txs| && txs[m.index] == t);
      if t in txs && At(bodies, l, t, m) {
        var i :| 0 <= i < |txs| && txs[i] == t;
        assert At(bodies, l, t, TxMeta(h.hash, n, i));
      }
    }
  }

  lemma {:induction false} AboveSplit(bodies: Bodies, l: seq<Header>, n: nat, t: Hash)
    requires n < |l| && l[n].hash in bodies
    ensures Above(bodies, l, n - 1, t) <==> Above(bodies, l, n, t) || t in bodies[l[n].hash].txs
  {
    var txs := bodies[l[n].hash].txs;
    if t in txs {
      var i :| 0 <= i < |txs| && txs[i] == t;
      assert At(bodies, l, t, TxMeta(l[n].hash, n, i));
    }
  }

  lemma {:induction false} DistinctInBlock(bodies: Bodies, l: seq<Header>, n: nat)
    requires n < |l| && l[n].hash in bodies && Once(bodies, l)
    ensures var txs := bodies[l[n].hash].txs; forall i, j | 0 <= i < j < |txs| :: txs[i] != txs[j]
  {
    var txs := bodies[l[n].hash].txs;
    forall i, j | 0 <= i < j < |txs|
      ensures txs[i] != txs[j]
    {
      assert At(bodies, l, txs[i], TxMeta(l[n].hash, n, i));
      assert At(bodies, l, txs[j], TxMeta(l[n].hash, n, j));
    }
  }

  /** The heart of a reorganisation: start from the old chain's exact index, overlay
      the new branch, drop what only the old branch held, and the index is exact for
      the new chain. */
  lemma {:induction false} ReorgIndexExact(idx: Index, over: Index, bodies: Bodies, lo: seq<Header>, ln: seq<Header>,
                                           f: nat, dropped: set<Hash>)
    requires Exact(idx, bodies, lo) && Once(bodies, ln)
    requires f < |lo| && f < |ln| && lo[..f + 1] == ln[..f + 1]
    requires Overlaid(idx, over, bodies, ln, f)
    requires forall t :: t in dropped <==> Above(bodies, lo, f, t) && !Above(bodies, ln, f, t)
    ensures Exact(over - dropped, bodies, ln)
  {
    var r := over - dropped;
    forall t, m
      ensures At(bodies, ln, t, m) <==> Maps(r, t, m)
    {
      PrefixAt(bodies, lo, ln, f, t, m);
      assert At(bodies, lo, t, m) <==> Maps(idx, t, m);
    }
  }

  lemma {:induction false} PrefixAt(bodies: Bodies, lo: seq<Header>, ln: seq<Header>, f: nat, t: Hash, m: TxMeta)
    requires f < |lo| && f < |ln| && lo[..f + 1] == ln[..f + 1]
    ensures m.number <= f ==> (At(bodies, lo, t, m) <==> At(bodies, ln, t, m))
  {
    assert m.number <= f ==> lo[m.number] == lo[..f + 1][m.number] && ln[m.number] == ln[..f + 1][m.number];
  }

  /** Writing the top block once more changes nothing about exactness; writing it the
      first time extends exactness by that block. */
  lemma {:induction false} TopBlockExact(idx: Index, bodies: Bodies, l: seq<Header>, lo: seq<Header>)
    requires |l| > 0 && l[|l| - 1].number == |l| - 1 && l[|l| - 1].hash in bodies
    requires Once(bodies, l)
    requires lo == l || lo == l[..|l| - 1]
    requires Exact(idx, bodies, lo)
    ensures var h := l[|l| - 1]; var txs := bodies[h.hash].txs; Exact(WithTxs(idx, h, txs, |txs|), bodies, l)
  {
    var n := |l| - 1;
    var txs := bodies[l[n].hash].txs;
    forall t, m
      ensures Maps(idx, t, m) <==> (At(bodies, l, t, m) && m.number > n) || (Maps(idx, t, m) && !Above(bodies, l, n, t))
    {
    }
    assert Overlaid(idx, idx, bodies, l, n);
    OverlayOneMore(idx, idx, bodies, l, n);
    var r := WithTxs(idx, l[n], txs, |txs|);
    forall t, m
      ensures At(bodies, l, t, m) <==> Maps(r, t, m)
    {
      assert At(bodies, lo, t, m) <==> Maps(idx, t, m);
      assert m.number < n ==> (At(bodies, lo, t, m) <==> At(bodies, l, t, m));
    }
  }
}
