/** The block database as the node updates it in place: fork choice, reorganisation,
    head insertion and the transaction index. */
module ChainManager {
  import opened Lineage
  import opened Validator
  import opened Uncles
  import opened TxIndex
  import opened ChainSpec

  // ---- Walking two branches back to their fork ----

  /** `txs` are exactly the transactions of `l` above number `f`. */
  ghost predicate TxsAbove(txs: seq<Hash>, bodies: Bodies, l: seq<Header>, f: int) {
    forall t :: t in txs <==> Above(bodies, l, f, t)
  }

  /** `bs` are the blocks of `l` above number `f`, newest first. */
  ghost predicate BlocksAbove(bs: seq<Block>, bodies: Bodies, l: seq<Header>, f: int) {
    && |bs| == |l| - 1 - f
    && forall j | 0 <= j < |bs| :: BlockAt(bs[j], bodies, l, |l| - 1 - j)
  }

  ghost predicate BlockAt(b: Block, bodies: Bodies, l: seq<Header>, n: int) {
    0 <= n < |l| && b.header == l[n] && b.header.hash in bodies && b.body == bodies[b.header.hash]
  }

  lemma {:induction false} TxsOneMore(txs: seq<Hash>, bodies: Bodies, l: seq<Header>, n: nat, b: Block)
    requires TxsAbove(txs, bodies, l, n) && BlockAt(b, bodies, l, n)
    ensures TxsAbove(txs + b.body.txs, bodies, l, n - 1)
  {
    forall t
      ensures t in txs + b.body.txs <==> Above(bodies, l, n - 1, t)
    {
      AboveSplit(bodies, l, n, t);
    }
  }

  /** The store linked to `g` that holds chain `l`, seen from block number `n` down. */
  ghost predicate Walks(hs: Headers, bodies: Bodies, g: Header, l: seq<Header>) {
    && |l| > 0
    && l[0] == g
    && forall n | 0 < n < |l| :: Below(hs, bodies, l, n)
  }

  ghost predicate Below(hs: Headers, bodies: Bodies, l: seq<Header>, n: int)
    requires 0 < n < |l|
  {
    && l[n].number == n
    && l[n - 1].number == n - 1
    && l[n].parentHash == l[n - 1].hash
    && l[n - 1].hash in hs
    && l[n - 1].hash in bodies
    && hs[l[n - 1].hash] == l[n - 1]
  }

  lemma {:induction false} ParentBlock(hs: Headers, bodies: Bodies, bodies': Bodies, g: Header, l: seq<Header>, n: nat)
    requires Walks(hs, bodies, g, l) && 0 < n < |l|
    requires forall h | h in bodies :: h in bodies' && bodies'[h] == bodies[h]
    ensures GetBlock(hs, bodies, l[n].parentHash).Some?
    ensures BlockAt(GetBlock(hs, bodies, l[n].parentHash).value, bodies', l, n - 1)
    ensures l[n].number == n && l[n - 1].number == n - 1
  {
    assert Below(hs, bodies, l, n);
  }

  /** Walks the old head and the new block back to their common ancestor. The bodies
      `bodies'` extend the stored ones with the new block itself. */
  method FindFork(hs: Headers, bodies: Bodies, oldBlock: Block, newBlock: Block,
                  ghost g: Header, ghost bodies': Bodies, ghost lo: seq<Header>, ghost ln: seq<Header>)
    returns (ok: bool, newChain: seq<Block>, deletedTxs: seq<Hash>, ghost f: nat)
    requires Walks(hs, bodies, g, lo) && Walks(hs, bodies, g, ln)
    requires forall h | h in bodies :: h in bodies' && bodies'[h] == bodies[h]
    requires BlockAt(oldBlock, bodies', lo, |lo| - 1) && BlockAt(newBlock, bodies', ln, |ln| - 1)
    requires oldBlock.header.number == |lo| - 1 && newBlock.header.number == |ln| - 1
    ensures ok
    ensures f < |lo| && f < |ln| && lo[f].hash == ln[f].hash
    ensures f + 1 < |lo| && f + 1 < |ln| ==> lo[f + 1].hash != ln[f + 1].hash
    ensures BlocksAbove(newChain, bodies', ln, f)
    ensures TxsAbove(deletedTxs, bodies', lo, f)
  {
    newChain, deletedTxs := [], [];
    var old', new' := Some(oldBlock), Some(newBlock);
    ghost var i, j := |lo| - 1, |ln| - 1;
    if oldBlock.header.number > newBlock.header.number {
      while old'.Some? && old'.value.header.number != newBlock.header.number
        invariant |ln| - 1 <= i < |lo|
        invariant old'.Some? && BlockAt(old'.value, bodies', lo, i) && old'.value.header.number == i
        invariant TxsAbove(deletedTxs, bodies', lo, i)
        decreases i
      {
        TxsOneMore(deletedTxs, bodies', lo, i, old'.value);
        ParentBlock(hs, bodies, bodies', g, lo, i);
        deletedTxs := deletedTxs + old'.value.body.txs;
        old' := GetBlock(hs, bodies, old'.value.header.parentHash);
        i := i - 1;
      }
    } else {
      while new'.Some? && new'.value.header.number != oldBlock.header.number
        invariant |lo| - 1 <= j < |ln|
        invariant new'.Some? && BlockAt(new'.value, bodies', ln, j) && new'.value.header.number == j
        invariant BlocksAbove(newChain, bodies', ln, j)
        decreases j
      {
        ParentBlock(hs, bodies, bodies', g, ln, j);
        newChain := newChain + [new'.value];
        new' := GetBlock(hs, bodies, new'.value.header.parentHash);
        j := j - 1;
      }
    }
    assert i == j;
    while old'.Some? && new'.Some? && old'.value.header.hash != new'.value.header.hash
      invariant 0 <= i < |lo| && i < |ln|
      invariant old'.Some? && BlockAt(old'.value, bodies', lo, i)
      invariant new'.Some? && BlockAt(new'.value, bodies', ln, i)
      invariant BlocksAbove(newChain, bodies', ln, i)
      invariant TxsAbove(deletedTxs, bodies', lo, i)
      invariant i + 1 < |lo| && i + 1 < |ln| ==> lo[i + 1].hash != ln[i + 1].hash
      decreases i
    {
      TxsOneMore(deletedTxs, bodies', lo, i, old'.value);
      ParentBlock(hs, bodies, bodies', g, lo, i);
      ParentBlock(hs, bodies, bodies', g, ln, i);
      newChain := newChain + [new'.value];
      deletedTxs := deletedTxs + old'.value.body.txs;
      old', new' := GetBlock(hs, bodies, old'.value.header.parentHash),
        GetBlock(hs, bodies, new'.value.header.parentHash);
      i := i - 1;
    }
    ok, f := old'.Some? && new'.Some?, i;
  }

  lemma {:induction false} LineWalks(hs: Headers, bodies: Bodies, g: Header, h: Hash)
    requires Linked(hs, g) && bodies.Keys == hs.Keys && h in hs
    ensures Walks(hs, bodies, g, LineageOf(hs, h))
  {
    var l := LineageOf(hs, h);
    LineageShape(hs, g, h);
    forall n | 0 < n < |l|
      ensures Below(hs, bodies, l, n)
    {
      LineageParent(hs, g, h, n);
    }
  }

  lemma {:induction false} NewLineWalks(g: Header, c: Chain, b: Block)
    requires Linked(c.headers, g) && c.bodies.Keys == c.headers.Keys && Attachable(c.headers, b.header)
    ensures Walks(c.headers, c.bodies, g, NewLine(c, b))
  {
    var l, p := NewLine(c, b), LineageOf(c.headers, b.header.parentHash);
    NewLineShape(g, c, b);
    LineageShape(c.headers, g, b.header.parentHash);
    LineWalks(c.headers, c.bodies, g, b.header.parentHash);
    forall n | 0 < n < |l|
      ensures Below(c.headers, c.bodies, l, n)
    {
      assert n < |p| ==> Below(c.headers, c.bodies, p, n);
    }
  }

  lemma {:induction false} NewLineNumbers(g: Header, c: Chain, b: Block)
    requires Linked(c.headers, g) && Attachable(c.headers, b.header)
    ensures forall n | 0 <= n < |NewLine(c, b)| :: NewLine(c, b)[n].number == n
  {
    NewLineShape(g, c, b);
    LineageShape(c.headers, g, b.header.parentHash);
  }

  /** What the walk found is the fork of the two chains. */
  lemma {:induction false} MeetingIsFork(g: Header, c: Chain, b: Block, f: nat)
    requires Linked(c.headers, g) && c.head.hash in c.headers && Attachable(c.headers, b.header)
    requires var lo, ln := LineageOf(c.headers, c.head.hash), NewLine(c, b);
             && f < |lo| && f < |ln| && lo[f].hash == ln[f].hash
             && (f + 1 < |lo| && f + 1 < |ln| ==> lo[f + 1].hash != ln[f + 1].hash)
    ensures IsFork(LineageOf(c.headers, c.head.hash), NewLine(c, b), f)
  {
    var lo, ln := LineageOf(c.headers, c.head.hash), NewLine(c, b);
    var lp := LineageOf(c.headers, b.header.parentHash);
    NewLineShape(g, c, b);
    LineageShape(c.headers, g, c.head.hash);
    LineageShape(c.headers, g, b.header.parentHash);
    SharedPrefix(c.headers, g, c.head.hash, b.header.parentHash, f);
    assert ln[..f + 1] == lp[..f + 1];
  }

  /** The lowest block of a new branch is never what the number map already names,
      because a stored descendant of the head would be heavier than the head. */
  lemma {:induction false} BranchNotNumbered(s: Setting, c: Chain, b: Block, f: nat)
    requires Stored(s, c) && Weighed(c) && Heaviest(c) && Canonical(c) && Attachable(c.headers, b.header)
    requires IsFork(LineageOf(c.headers, c.head.hash), NewLine(c, b), f)
    ensures GetCanonicalHash(c.canon, f + 1) != NewLine(c, b)[f + 1].hash
  {
    var lo, ln := LineageOf(c.headers, c.head.hash), NewLine(c, b);
    var p := b.header.parentHash;
    NewLineShape(s.genesis, c, b);
    LineageShape(c.headers, s.genesis, c.head.hash);
    LineageShape(c.headers, s.genesis, p);
    assert lo[..f + 1][f] == ln[..f + 1][f];
    if f + 1 == |lo| && f + 1 < |ln| - 1 {
      HeadHasNoDescendant(s, c, p);
    }
  }

  /** Both branches can be walked down to the genesis. */
  lemma {:induction false} BranchesWalk(s: Setting, c: Chain, b: Block)
    requires Stored(s, c) && Attachable(c.headers, b.header)
    ensures var lo, ln := LineageOf(c.headers, c.head.hash), NewLine(c, b);
            && Walks(c.headers, c.bodies, s.genesis, lo) && Walks(c.headers, c.bodies, s.genesis, ln)
            && BlockAt(Block(c.head, c.bodies[c.head.hash]), AttachBodies(c, b), lo, |lo| - 1)
               && c.head.number == |lo| - 1
            && BlockAt(b, AttachBodies(c, b), ln, |ln| - 1) && b.header.number == |ln| - 1
  {
    LineWalks(c.headers, c.bodies, s.genesis, c.head.hash);
    NewLineWalks(s.genesis, c, b);
    NewLineShape(s.genesis, c, b);
    LineageShape(c.headers, s.genesis, c.head.hash);
  }

  lemma {:induction false} BranchFound(s: Setting, c: Chain, b: Block, f: nat)
    requires Inv(s, c) && Attachable(c.headers, b.header)
    requires var lo, ln := LineageOf(c.headers, c.head.hash), NewLine(c, b);
             && f < |lo| && f < |ln| && lo[f].hash == ln[f].hash
             && (f + 1 < |lo| && f + 1 < |ln| ==> lo[f + 1].hash != ln[f + 1].hash)
    ensures IsFork(LineageOf(c.headers, c.head.hash), NewLine(c, b), f)
    ensures GetCanonicalHash(c.canon, f + 1) != NewLine(c, b)[f + 1].hash
  {
    MeetingIsFork(s.genesis, c, b, f);
    BranchNotNumbered(s, c, b, f);
  }

  /** Exactness only looks at the bodies of the chain itself. */
  lemma {:induction false} AttachKeepsExact(g: Header, c: Chain, b: Block, idx: Index)
    requires Linked(c.headers, g) && b.header.hash !in c.headers && c.head.hash in c.headers
    requires Exact(idx, c.bodies, LineageOf(c.headers, c.head.hash))
    ensures Exact(idx, AttachBodies(c, b), LineageOf(c.headers, c.head.hash))
  {
    AttachKeepsAt(g, c, b, c.head.hash);
  }

  /** Below the fork the number map already agrees with the new chain. */
  lemma {:induction false} PrefixNumbered(c: Chain, lo: seq<Header>, ln: seq<Header>, f: nat, canon: map<nat, Hash>)
    requires IsFork(lo, ln, f) && Renumbered(c.canon, canon, ln, f)
    requires forall n | 0 <= n < |lo| :: GetCanonicalHash(c.canon, n) == lo[n].hash
    ensures Renumbered(c.canon, canon, ln, -1)
  {
    forall n: nat
      ensures GetCanonicalHash(canon, n) == if n < |ln| then ln[n].hash else GetCanonicalHash(c.canon, n)
    {
      if n <= f {
        assert lo[..f + 1][n] == ln[..f + 1][n];
      }
    }
  }

  /** After the reorganisation the number map names the new block, so inserting it
      once more moves no head, and indexing it once more changes nothing. */
  lemma {:induction false} ReorgedTop(s: Setting, c: Chain, b: Block, c': Chain)
    requires Linked(c.headers, s.genesis) && Attachable(c.headers, b.header)
    requires Once(AttachBodies(c, b), NewLine(c, b))
    requires Renumbered(c.canon, c'.canon, NewLine(c, b), -1)
    requires Exact(c'.txIndex, AttachBodies(c, b), NewLine(c, b))
    ensures GetCanonicalHash(c'.canon, b.header.number) == b.header.hash
    ensures Renumbered(c.canon, c'.canon[b.header.number := b.header.hash], NewLine(c, b), -1)
    ensures Exact(WithTxs(c'.txIndex, b.header, b.body.txs, |b.body.txs|), AttachBodies(c, b), NewLine(c, b))
  {
    NewLineShape(s.genesis, c, b);
    LineageShape(c.headers, s.genesis, b.header.parentHash);
    TopBlockExact(c'.txIndex, AttachBodies(c, b), NewLine(c, b), NewLine(c, b));
  }

  /** A block on top of the head extends the number map by itself and takes every
      head along. */
  lemma {:induction false} ExtendedNumbers(s: Setting, c: Chain, b: Block)
    requires Linked(c.headers, s.genesis) && Attachable(c.headers, b.header) && b.header.parentHash == c.head.hash
    requires Canonical(c)
    ensures GetCanonicalHash(c.canon, b.header.number) != b.header.hash
    ensures Renumbered(c.canon, c.canon[b.header.number := b.header.hash], NewLine(c, b), -1)
    ensures IsFork(LineageOf(c.headers, c.head.hash), NewLine(c, b), b.header.number - 1)
    ensures NewLine(c, b)[b.header.number] == b.header
  {
    var lo, ln := LineageOf(c.headers, c.head.hash), NewLine(c, b);
    NewLineShape(s.genesis, c, b);
    LineageShape(c.headers, s.genesis, c.head.hash);
    assert lo[..|lo|] == lo && ln[..|lo|] == lo;
  }

  lemma {:induction false} ExtendedIndex(s: Setting, c: Chain, b: Block)
    requires Linked(c.headers, s.genesis) && Attachable(c.headers, b.header) && b.header.parentHash == c.head.hash
    requires Once(AttachBodies(c, b), NewLine(c, b))
    requires Exact(c.txIndex, c.bodies, LineageOf(c.headers, c.head.hash))
    ensures Exact(WithTxs(c.txIndex, b.header, b.body.txs, |b.body.txs|), AttachBodies(c, b), NewLine(c, b))
  {
    var lo, ln := LineageOf(c.headers, c.head.hash), NewLine(c, b);
    NewLineShape(s.genesis, c, b);
    LineageShape(c.headers, s.genesis, c.head.hash);
    assert ln[..|ln| - 1] == lo;
    AttachKeepsExact(s.genesis, c, b, c.txIndex);
    TopBlockExact(c.txIndex, AttachBodies(c, b), ln, lo);
  }

  // ---- Applying the new branch ----

  lemma {:induction false} RenumberOneMore(before: map<nat, Hash>, canon: map<nat, Hash>, l: seq<Header>, n: nat)
    requires n < |l| && Renumbered(before, canon, l, n)
    ensures Renumbered(before, canon[n := l[n].hash], l, n - 1)
    ensures GetCanonicalHash(canon, n) == GetCanonicalHash(before, n)
  {
    forall m: nat
      ensures GetCanonicalHash(canon[n := l[n].hash], m) ==
              if n - 1 < m < |l| then l[m].hash else GetCanonicalHash(before, m)
    {
      assert m != n ==> GetCanonicalHash(canon[n := l[n].hash], m) == GetCanonicalHash(canon, m);
    }
  }

  /** The transactions of a branch that is no longer canonical. */
  method TxDifference(deletedTxs: seq<Hash>, addedTxs: seq<Hash>) returns (diff: seq<Hash>)
    ensures forall t :: t in diff <==> t in deletedTxs && t !in addedTxs
  {
    diff := [];
    for k := 0 to |deletedTxs|
      invariant forall t :: t in diff <==> t in deletedTxs[..k] && t !in addedTxs
    {
      assert deletedTxs[..k + 1] == deletedTxs[..k] + [deletedTxs[k]];
      if deletedTxs[k] !in addedTxs {
        diff := diff + [deletedTxs[k]];
      }
    }
    assert deletedTxs[..|deletedTxs|] == deletedTxs;
  }

  datatype ImportResult =
    | Written(status: Status)
    | AlreadyKnown
    | ParentUnknown
    | SealInvalid
    | HeaderRejected(header: HeaderVerdict)
    | UnclesRejected(uncles: UncleVerdict)
    | StateRejected

  class BlockChain {
    const genesis: Header
    const pow: Header -> bool
    ghost const world: iset<Header>

    var headers: Headers
    var bodies: Bodies
    var tds: map<Hash, int>
    var canon: map<nat, Hash>
    var txIndex: Index
    var currentBlock: Header
    var currentHeader: Header
    var currentFastBlock: Header

    ghost function State(): (c: Chain)
      reads this
    {
      Chain(headers, bodies, tds, canon, txIndex, currentBlock, currentHeader, currentFastBlock)
    }

    ghost function Around(): (s: Setting) {
      Setting(genesis, pow, world)
    }

    constructor (genesis: Header, pow: Header -> bool, ghost world: iset<Header>)
      requires Injective(world) && genesis in world
      requires genesis.number == 0 && genesis.parentHash == ZERO_HASH && genesis.hash != ZERO_HASH
      ensures Around() == Setting(genesis, pow, world)
      ensures State() == Genesis(Around()) && Inv(Around(), State())
    {
      this.genesis, this.pow, this.world := genesis, pow, world;
      headers, bodies := map[genesis.hash := genesis], map[genesis.hash := Body([], [])];
      tds, canon, txIndex := map[genesis.hash := genesis.difficulty], map[0 := genesis.hash], map[];
      currentBlock, currentHeader, currentFastBlock := genesis, genesis, genesis;
      new;
      GenesisInv(Around());
    }

    /** Makes `b` the head; the other heads follow only when the number map did not
        already name `b`. */
    method Insert(b: Header)
      modifies this
      ensures var c := old(State());
              var moved := GetCanonicalHash(c.canon, b.number) != b.hash;
              State() == c.(canon := c.canon[b.number := b.hash], head := b,
                            headHeader := if moved then b else c.headHeader,
                            headFast := if moved then b else c.headFast)
    {
      var updateHeads := GetCanonicalHash(canon, b.number) != b.hash;
      canon := canon[b.number := b.hash];
      currentBlock := b;
      if updateHeads {
        currentHeader := b;
        currentFastBlock := b;
      }
    }

    ghost predicate SameStore(c: Chain)
      reads this
    {
      headers == c.headers && bodies == c.bodies && tds == c.tds
    }

    /** Inserts one block of the new branch and indexes its transactions. */
    method InsertOne(block: Block)
      modifies this
      ensures SameStore(old(State()))
      ensures canon == old(canon)[block.header.number := block.header.hash]
      ensures txIndex == WithTxs(old(txIndex), block.header, block.body.txs, |block.body.txs|)
      ensures GetCanonicalHash(old(canon), block.header.number) != block.header.hash ==>
                currentHeader == currentFastBlock == block.header
    {
      Insert(block.header);
      txIndex := WriteTransactions(txIndex, block);
    }

    /** Inserts the blocks of the new branch, newest first, indexing their transactions. */
    method InsertBranch(newChain: seq<Block>, ghost bodies': Bodies, ghost ln: seq<Header>, ghost f: nat)
      returns (addedTxs: seq<Hash>)
      requires f < |ln| && forall n | 0 <= n < |ln| :: ln[n].number == n
      requires BlocksAbove(newChain, bodies', ln, f) && Once(bodies', ln)
      modifies this
      ensures SameStore(old(State()))
      ensures Renumbered(old(canon), canon, ln, f)
      ensures Overlaid(old(txIndex), txIndex, bodies', ln, f)
      ensures f + 1 < |ln| && GetCanonicalHash(old(canon), f + 1) != ln[f + 1].hash
              ==> currentHeader == currentFastBlock == ln[f + 1]
      ensures TxsAbove(addedTxs, bodies', ln, f)
    {
      ghost var c := State();
      addedTxs := [];
      ghost var n := |ln| - 1;
      for k := 0 to |newChain|
        invariant n == |ln| - 1 - k
        invariant SameStore(c)
        invariant Renumbered(c.canon, canon, ln, n)
        invariant Overlaid(c.txIndex, txIndex, bodies', ln, n)
        invariant TxsAbove(addedTxs, bodies', ln, n)
        invariant k > 0 && GetCanonicalHash(c.canon, n + 1) != ln[n + 1].hash
                  ==> currentHeader == currentFastBlock == ln[n + 1]
      {
        var block := newChain[k];
        assert BlockAt(block, bodies', ln, n);
        RenumberOneMore(c.canon, canon, ln, n);
        OverlayOneMore(c.txIndex, txIndex, bodies', ln, n);
        TxsOneMore(addedTxs, bodies', ln, n, block);
        InsertOne(block);
        addedTxs := addedTxs + block.body.txs;
        n := n - 1;
      }
    }

    method DeleteTransactions(txs: seq<Hash>)
      modifies this`txIndex
      ensures txIndex == old(txIndex) - (set t | t in txs)
    {
      for k := 0 to |txs|
        invariant txIndex == old(txIndex) - (set t | t in txs[..k])
      {
        assert txs[..k + 1] == txs[..k] + [txs[k]];
        txIndex := txIndex - {txs[k]};
      }
      assert txs[..|txs|] == txs;
    }

    /** Inserts the new branch and drops the transactions only the old branch held. */
    method ApplyBranch(newChain: seq<Block>, deletedTxs: seq<Hash>, ghost bodies': Bodies, ghost lo: seq<Header>,
                       ghost ln: seq<Header>, ghost f: nat)
      requires IsFork(lo, ln, f) && forall n | 0 <= n < |ln| :: ln[n].number == n
      requires BlocksAbove(newChain, bodies', ln, f) && TxsAbove(deletedTxs, bodies', lo, f)
      requires Once(bodies', ln) && Exact(txIndex, bodies', lo)
      requires GetCanonicalHash(canon, f + 1) != ln[f + 1].hash
      modifies this
      ensures SameStore(old(State()))
      ensures Renumbered(old(canon), canon, ln, f)
      ensures Exact(txIndex, bodies', ln)
      ensures currentHeader == currentFastBlock == ln[f + 1]
    {
      ghost var before := txIndex;
      var addedTxs := InsertBranch(newChain, bodies', ln, f);
      ghost var over := txIndex;
      var diff := TxDifference(deletedTxs, addedTxs);
      DeleteTransactions(diff);
      ReorgIndexExact(before, over, bodies', lo, ln, f, set t | t in diff);
    }

    /** The branch from the fork point up to `newBlock`, and what the old branch held. */
    method FindBranch(oldBlock: Block, newBlock: Block)
      returns (ok: bool, newChain: seq<Block>, deletedTxs: seq<Hash>, ghost f: nat)
      requires Inv(Around(), State()) && Attachable(headers, newBlock.header)
      requires oldBlock == Block(currentBlock, bodies[currentBlock.hash])
      ensures ok
      ensures var c := State();
              var lo, ln, bodies' := LineageOf(c.headers, c.head.hash), NewLine(c, newBlock), AttachBodies(c, newBlock);
              && IsFork(lo, ln, f)
              && BlocksAbove(newChain, bodies', ln, f)
              && TxsAbove(deletedTxs, bodies', lo, f)
              && GetCanonicalHash(canon, f + 1) != ln[f + 1].hash
    {
      ghost var c := State();
      ghost var lo, ln := LineageOf(c.headers, c.head.hash), NewLine(c, newBlock);
      BranchesWalk(Around(), c, newBlock);
      ok, newChain, deletedTxs,
        f := FindFork(headers, bodies, oldBlock, newBlock, genesis, AttachBodies(c, newBlock), lo, ln);
      BranchFound(Around(), c, newBlock, f);
    }

    /** Moves the number map and the transaction index from the old head's chain to
        the chain of `newBlock`. It always finds the common ancestor. */
    method Reorg(oldBlock: Block, newBlock: Block) returns (ok: bool)
      requires Inv(Around(), State()) && Attachable(headers, newBlock.header)
      requires oldBlock == Block(currentBlock, bodies[currentBlock.hash])
      requires Once(AttachBodies(State(), newBlock), NewLine(State(), newBlock))
      modifies this
      ensures ok
      ensures SameStore(old(State()))
      ensures Renumbered(old(canon), canon, NewLine(old(State()), newBlock), -1)
      ensures Exact(txIndex, AttachBodies(old(State()), newBlock), NewLine(old(State()), newBlock))
      ensures HeadersMoved(LineageOf(old(headers), old(currentBlock).hash), NewLine(old(State()), newBlock),
              currentHeader, currentFastBlock)
    {
      ghost var c := State();
      ghost var lo, ln := LineageOf(c.headers, c.head.hash), NewLine(c, newBlock);
      ghost var bodies' := AttachBodies(c, newBlock);
      var newChain, deletedTxs;
      ghost var f;
      ok, newChain, deletedTxs, f := FindBranch(oldBlock, newBlock);
      NewLineNumbers(genesis, c, newBlock);
      AttachKeepsExact(genesis, c, newBlock, txIndex);
      ApplyBranch(newChain, deletedTxs, bodies', lo, ln, f);
      PrefixNumbered(c, lo, ln, f, canon);
    }

    /** Makes `b` the head, reorganising first when its parent is not the head. */
    method BecomeHead(b: Block)
      requires Inv(Around(), State()) && Attachable(headers, b.header)
      requires Once(AttachBodies(State(), b), NewLine(State(), b))
      modifies this
      ensures SameStore(old(State())) && currentBlock == b.header
      ensures Renumbered(old(canon), canon, NewLine(old(State()), b), -1)
      ensures Exact(WithTxs(txIndex, b.header, b.body.txs, |b.body.txs|), AttachBodies(old(State()), b),
              NewLine(old(State()), b))
      ensures HeadersMoved(LineageOf(old(headers), old(currentBlock).hash), NewLine(old(State()), b), currentHeader,
              currentFastBlock)
    {
      ghost var c := State();
      if b.header.parentHash != currentBlock.hash {
        var ok := Reorg(Block(currentBlock, bodies[currentBlock.hash]), b);
        ReorgedTop(Around(), c, b, State());
      } else {
        ExtendedNumbers(Around(), c, b);
        ExtendedIndex(Around(), c, b);
      }
      Insert(b.header);
    }

    /** Writes the total difficulty, the body and then the header. */
    method Store(b: Block, td: int)
      requires td == Td(State(), b.header.parentHash) + b.header.difficulty
      modifies this`tds, this`bodies, this`headers
      ensures State() == WithBlock(old(State()), b)
      ensures headers == old(headers)[b.header.hash := b.header] && bodies == old(bodies)[b.header.hash := b.body]
      ensures tds == old(tds)[b.header.hash := td]
    {
      tds := tds[b.header.hash := td];
      bodies := bodies[b.header.hash := b.body];
      headers := headers[b.header.hash := b.header];
    }

    /** Makes `b` the head and stores it. */
    method WriteCanon(b: Block, td: int)
      requires Inv(Around(), State()) && Attachable(headers, b.header)
      requires Once(AttachBodies(State(), b), NewLine(State(), b))
      requires td == Td(State(), b.header.parentHash) + b.header.difficulty >= Td(State(), currentBlock.hash)
      modifies this
      ensures ImportedCanon(old(State()), b, State().(txIndex := WithTxs(txIndex, b.header, b.body.txs, |b.body.txs|)))
    {
      BecomeHead(b);
      Store(b, td);
    }

    /** Stores a validated block and decides whether it becomes the head; `coin` is the
        random draw that breaks ties. The caller still has to index the block itself. */
    method WriteBlock(b: Block, coin: bool) returns (status: Option<Status>)
      requires Inv(Around(), State())
      requires b.header.parentHash in tds
               ==> Attachable(headers, b.header) && Once(AttachBodies(State(), b), NewLine(State(), b))
      modifies this
      ensures status.None? <==> b.header.parentHash !in old(tds)
      ensures status.None? ==> State() == old(State())
      ensures status == Some(SideBlock) ==> ImportedSide(old(State()), b, State())
      ensures status == Some(CanonBlock) ==>
                ImportedCanon(old(State()), b,
                  State().(txIndex := WithTxs(txIndex, b.header, b.body.txs, |b.body.txs|)))
      ensures status.Some? ==> (status.value == CanonBlock <==> Wins(old(State()), b, coin))
    {
      if b.header.parentHash !in tds {
        return None;
      }
      var localTd := tds[currentBlock.hash];
      var externTd := tds[b.header.parentHash] + b.header.difficulty;
      if externTd > localTd || (externTd == localTd && coin) {
        WriteCanon(b, externTd);
        return Some(CanonBlock);
      }
      Store(b, externTd);
      return Some(SideBlock);
    }

    /** The validation stage of an import; changes nothing. */
    method Check(b: Block, now: nat, usedGas: Option<nat>) returns (r: Option<ImportResult>)
      requires Stored(Around(), State())
      ensures r.Some? ==> !r.value.Written?
      ensures r.None? <==> Importable(headers, bodies, b, now, usedGas)
      ensures r == Some(SealInvalid) <==> !pow(b.header)
      ensures r == Some(AlreadyKnown) <==> pow(b.header) && b.header.hash in headers
      ensures r == Some(ParentUnknown)
              <==> pow(b.header) && b.header.hash !in headers && b.header.parentHash !in headers
      ensures forall v ::
               r == Some(HeaderRejected(v))
               <==> v != HeaderOk && Judgeable(headers, b) && HeaderJudged(headers, b, now) == v
      ensures forall u :: r == Some(UnclesRejected(u)) <==>
                && u != UnclesOk && Judgeable(headers, b) && HeaderJudged(headers, b, now) == HeaderOk
                && IsVerdict(pow, AncestorBlocks(headers, bodies, b.header.parentHash, WINDOW), b, u)
      ensures r == Some(StateRejected)
              <==> usedGas != Some(b.header.gasUsed) && Importable(headers, bodies, b, now, Some(b.header.gasUsed))
    {
      if !pow(b.header) {
        return Some(SealInvalid);
      }
      if GetBlock(headers, bodies, b.header.hash).Some? {
        return Some(AlreadyKnown);
      }
      var parent := GetBlock(headers, bodies, b.header.parentHash);
      if parent.None? {
        return Some(ParentUnknown);
      }
      var v := ValidateHeader(pow, b.header, parent.value.header, now, false, false);
      if v != HeaderOk {
        return Some(HeaderRejected(v));
      }
      var u := VerifyUncles(pow, headers, bodies, b);
      VerdictDecides(pow, headers, bodies, genesis, b, u);
      forall v | IsVerdict(pow, AncestorBlocks(headers, bodies, b.header.parentHash, WINDOW), b, v)
        ensures v == u
      {
        VerdictUnique(pow, AncestorBlocks(headers, bodies, b.header.parentHash, WINDOW), b, u, v);
      }
      if u != UnclesOk {
        return Some(UnclesRejected(u));
      }
      r := if usedGas == Some(b.header.gasUsed) then None else Some(StateRejected);
    }

    /** Sealed, new, and with a known parent: the header gets validated. */
    ghost predicate Judgeable(hs: Headers, b: Block) {
      pow(b.header) && b.header.hash !in hs && b.header.parentHash in hs
    }

    ghost function HeaderJudged(hs: Headers, b: Block, now: nat): (v: HeaderVerdict) {
      if b.header.parentHash in hs then ValidateHeader(pow, b.header, hs[b.header.parentHash], now, false, false)
        else HeaderOk
    }

    /** What a block must satisfy to be stored. */
    ghost predicate Importable(hs: Headers, bs: Bodies, b: Block, now: nat, usedGas: Option<nat>) {
      && pow(b.header) && usedGas == Some(b.header.gasUsed)
      && b.header.hash !in hs && b.header.parentHash in hs
      && ValidateHeader(pow, b.header, hs[b.header.parentHash], now, false, false) == HeaderOk
      && Accepted(pow, hs, bs, b)
    }

    /** The storing stage of an import: writes the block and indexes it if it became the head. */
    method Commit(b: Block, coin: bool) returns (status: Status)
      requires Inv(Around(), State()) && Fits(Around(), State(), b)
      requires Once(AttachBodies(State(), b), NewLine(State(), b))
      modifies this
      ensures Inv(Around(), State()) && Imported(old(State()), b, status, State())
      ensures status == CanonBlock <==> Wins(old(State()), b, coin)
    {
      ghost var c := State();
      var written := WriteBlock(b, coin);
      status := if written.Some? then written.value else SideBlock;
      if status == CanonBlock {
        txIndex := WriteTransactions(txIndex, b);
      }
      ImportKeepsInv(Around(), c, b, status, State());
    }

    /** One block of a chain import: checks the seal, skips known blocks, validates the
        header and the uncles, stores the block and indexes it if it became the head.
        `usedGas` is the gas its transactions used, or nothing if one of them was refused or
        a root in the header does not match. */
    method ImportBlock(b: Block, now: nat, usedGas: Option<nat>, coin: bool) returns (r: ImportResult)
      requires Inv(Around(), State()) && now <= MAX_BIG
      requires Hashed(world, b) && b.header.hash != ZERO_HASH
      requires usedGas.Some? ==> usedGas.value <= b.header.gasLimit
      requires Attachable(headers, b.header) ==> Once(AttachBodies(State(), b), NewLine(State(), b))
      modifies this
      ensures Inv(Around(), State())
      ensures Step(Around(), old(State()), State())
      ensures r.Written? <==> Importable(old(headers), old(bodies), b, now, usedGas)
      ensures !r.Written? ==> State() == old(State())
      ensures r.Written? ==> Fits(Around(), old(State()), b) && Imported(old(State()), b, r.status, State())
      ensures r.Written? ==> (r.status == CanonBlock <==> Wins(old(State()), b, coin))
    {
      var refused := Check(b, now, usedGas);
      if refused.Some? {
        return refused.value;
      }
      ValidBlockIsValidUncle(pow, b.header, headers[b.header.parentHash], now);
      var status := Commit(b, coin);
      return Written(status);
    }
  }
}
