/** Assembling a block to mine: the work environment, uncle selection, and why the
    node's own validator accepts the result. */
module Miner {
  import opened Lineage
  import opened Validator
  import opened Uncles
  import opened TxIndex
  import opened ChainSpec
  import Ledger
  import Execution
  import Processor
  import Packing

  /** The sets `makeCurrent` prepares for choosing uncles. */
  class Work {
    var ancestors: set<Hash>
    var family: set<Hash>
    var uncles: set<Hash>

    ghost predicate For(win: seq<Block>)
      reads this
    {
      && (forall h :: h in ancestors <==> IsBlockOf(win, h))
      && (forall h :: h in family <==> IsBlockOf(win, h) || IsUncleOf(win, h))
    }

    constructor (win: seq<Block>)
      ensures For(win) && uncles == {}
    {
      var hashes, kin := {}, {};
      for k := 0 to |win|
        invariant forall h :: h in hashes <==> IsBlockOf(win[..k], h)
        invariant forall h :: h in kin <==> IsBlockOf(win[..k], h) || IsUncleOf(win[..k], h)
      {
        var us := win[k].body.uncles;
        ghost var before := kin;
        for j := 0 to |us|
          invariant forall h :: h in kin <==> h in before || exists i :: 0 <= i < j && us[i].hash == h
        {
          kin := kin + {us[j].hash};
        }
        kin := kin + {win[k].header.hash};
        hashes := hashes + {win[k].header.hash};
        assert win[..k + 1] == win[..k] + [win[k]];
        forall h
          ensures IsBlockOf(win[..k + 1], h) <==> IsBlockOf(win[..k], h) || win[k].header.hash == h
          ensures IsUncleOf(win[..k + 1], h) <==> IsUncleOf(win[..k], h) || exists i :: 0 <= i < |us| && us[i].hash == h
        {
          BlockOfSnoc(win[..k], win[k], h);
          UncleOfSnoc(win[..k], win[k], h);
        }
      }
      assert win[..|win|] == win;
      ancestors, family, uncles := hashes, kin, {};
    }

    /** Takes `uncle` in unless it is already taken, hangs off no ancestor, or is family. */
    method CommitUncle(uncle: Header) returns (ok: bool)
      modifies this`uncles
      ensures ok <==> uncle.hash !in old(uncles) && uncle.parentHash in ancestors && uncle.hash !in family
      ensures uncles == if ok then old(uncles) + {uncle.hash} else old(uncles)
    {
      if uncle.hash in uncles || uncle.parentHash !in ancestors || uncle.hash in family {
        return false;
      }
      uncles := uncles + {uncle.hash};
      return true;
    }
  }

  /** An uncle candidate that passed `commitUncle` against the window `win`. */
  ghost predicate Committed(win: seq<Block>, u: Header) {
    IsBlockOf(win, u.parentHash) && !IsBlockOf(win, u.hash) && !IsUncleOf(win, u.hash)
  }

  ghost predicate DistinctHashes(us: seq<Header>) {
    forall i, j | 0 <= i < j < |us| :: us[i].hash != us[j].hash
  }

  /** Of the side blocks not in `todo` the acceptable ones are in `us`, the others in `bad`. */
  ghost predicate Sorted(work: Work, possible: map<Hash, Header>, win: seq<Block>, us: seq<Header>, bad: set<Hash>,
                         todo: set<Hash>)
    reads work
  {
    && todo <= possible.Keys && bad <= possible.Keys && DistinctHashes(us)
    && (forall h | h in todo :: h !in work.uncles)
    && (forall i | 0 <= i < |us| :: us[i].hash in work.uncles)
    && (forall i | 0 <= i < |us| ::
         us[i].hash in possible && possible[us[i].hash] == us[i] && Committed(win, us[i]))
    && (forall h | h in possible && h !in todo :: Committed(win, possible[h]) <==> possible[h] in us)
    && (forall h | h in possible :: h in bad <==> h !in todo && !Committed(win, possible[h]))
  }

  method TryUncle(work: Work, possible: map<Hash, Header>, ghost win: seq<Block>, us: seq<Header>, bad: set<Hash>,
                  ghost todo: set<Hash>, h: Hash)
    returns (us': seq<Header>, bad': set<Hash>)
    requires work.For(win) && h in todo && Sorted(work, possible, win, us, bad, todo)
    requires forall g | g in possible :: possible[g].hash == g
    modifies work`uncles
    ensures |us'| <= |us| + 1 && work.For(win) && Sorted(work, possible, win, us', bad', todo - {h})
  {
    us', bad' := us, bad;
    var ok := work.CommitUncle(possible[h]);
    if ok {
      us' := us + [possible[h]];
      assert us'[|us|] == possible[h];
    } else {
      bad' := bad + {h};
    }
  }

  /** Goes through the side blocks in any order until two are committed as uncles: of those
      tried exactly the acceptable ones are committed and exactly the others forgotten, and
      with fewer than two uncles all were tried. */
  method CommitUncles(work: Work, possible: map<Hash, Header>, ghost win: seq<Block>)
    returns (us: seq<Header>, left: map<Hash, Header>, ghost tried: set<Hash>)
    requires work.For(win) && work.uncles == {}
    requires forall h | h in possible :: possible[h].hash == h
    modifies work`uncles
    ensures |us| <= MAX_UNCLES && DistinctHashes(us)
    ensures forall i | 0 <= i < |us| :: us[i].hash in possible && possible[us[i].hash] == us[i] && Committed(win, us[i])
    ensures tried <= possible.Keys && (|us| < MAX_UNCLES ==> tried == possible.Keys)
    ensures forall h | h in tried :: Committed(win, possible[h]) <==> possible[h] in us
    ensures forall h | h in possible :: h in left <==> !(h in tried && !Committed(win, possible[h]))
    ensures left.Keys <= possible.Keys && forall h | h in left :: left[h] == possible[h]
  {
    us := [];
    var todo := possible.Keys;
    var bad: set<Hash> := {};
    while todo != {} && |us| < MAX_UNCLES
      invariant |us| <= MAX_UNCLES && work.For(win) && Sorted(work, possible, win, us, bad, todo)
      decreases |todo|
    {
      var h :| h in todo;
      us, bad := TryUncle(work, possible, win, us, bad, todo, h);
      todo := todo - {h};
    }
    left := possible - bad;
    tried := possible.Keys - todo;
  }

  /** An uncle committed from stored side blocks is faultless to the validator. It is
      never a child of the head, because such a child would be heavier than the head. */
  lemma {:induction false} CommittedIsFaultless(s: Setting, c: Chain, win: seq<Block>, b: Block, i: nat)
    requires Stored(s, c) && Weighed(c) && Heaviest(c)
    requires win == TopBlocks(c.bodies, LineageOf(c.headers, c.head.hash), WINDOW)
    requires b.header.parentHash == c.head.hash && b.header.hash !in c.headers
    requires DistinctHashes(b.body.uncles) && i < |b.body.uncles|
    requires forall k | 0 <= k < |b.body.uncles| ::
             b.body.uncles[k].hash in c.headers && c.headers[b.body.uncles[k].hash] == b.body.uncles[k]
    requires Committed(win, b.body.uncles[i])
    ensures UncleFault(s.pow, win, b, i) == UnclesOk
  {
    var u := b.body.uncles[i];
    var l := LineageOf(c.headers, c.head.hash);
    LineageShape(c.headers, s.genesis, c.head.hash);
    WindowStored(c, s.genesis, win, u.parentHash);
    ZeroNotStored(c.headers, s.genesis);
    assert Placed(c.headers, s.genesis, u.hash);
    assert u != s.genesis;
    NotChildOfHead(s, c, u);
    assert Sound(s, c.headers, c.headers[u.hash]);
  }

  lemma {:induction false} WindowStored(c: Chain, g: Header, win: seq<Block>, h: Hash)
    requires Linked(c.headers, g) && c.head.hash in c.headers
    requires win == TopBlocks(c.bodies, LineageOf(c.headers, c.head.hash), WINDOW)
    requires IsBlockOf(win, h)
    ensures h in c.headers && LastWith(win, h) == c.headers[h]
  {
    var l := LineageOf(c.headers, c.head.hash);
    LineageShape(c.headers, g, c.head.hash);
    LastIsMember(win, h);
    var k :| 0 <= k < |win| && win[k].header == LastWith(win, h);
    TopBlockAt(c.bodies, l, WINDOW, k);
  }

  lemma {:induction false} TopBlockAt(bodies: Bodies, l: seq<Header>, n: nat, k: nat)
    requires k < |TopBlocks(bodies, l, n)|
    ensures k < |l| && TopBlocks(bodies, l, n)[k].header == l[|l| - 1 - k]
  {
  }

  lemma {:induction false} NotChildOfHead(s: Setting, c: Chain, u: Header)
    requires Stored(s, c) && Weighed(c) && Heaviest(c)
    requires u.hash in c.headers && c.headers[u.hash] == u && u != s.genesis
    ensures u.parentHash != c.head.hash
  {
    assert Placed(c.headers, s.genesis, u.hash);
    if u.number > c.head.number {
      HeadHasNoDescendant(s, c, u.hash);
      LineageShape(c.headers, s.genesis, u.hash);
      LineageParent(c.headers, s.genesis, u.hash, u.number);
    }
  }

  /** What the miner fills a block from: the environment, its own accounts, the asking price,
      the state of the head, the transactions offered, and the message of each transaction. */
  datatype Supply = Supply(env: Execution.Env, owned: set<Address>, gasPrice: nat, world: Execution.World,
                           offer: seq<Execution.Msg>, message: Hash -> Execution.Msg)

  /** A state to build on: the machine is lawful, nobody is in debt, no refund is open. */
  ghost predicate Ready(m: Supply) {
    Execution.VmLawful(m.env) && Ledger.NonNegative(m.world.balances) && m.world.refund == 0
  }

  ghost function PackedFor(m: Supply, gasLimit: nat): (k: Packing.Packed) {
    Packing.PackedUp(m.env, m.owned, m.gasPrice, m.world, gasLimit, m.offer)
  }

  function Messages(message: Hash -> Execution.Msg, txs: seq<Hash>): (msgs: seq<Execution.Msg>)
    ensures |msgs| == |txs|
  {
    seq(|txs|, i requires 0 <= i < |txs| => message(txs[i]))
  }

  /** The block holds the committed transactions, and its header the gas they used. */
  ghost predicate Filled(m: Supply, b: Block) {
    var k := PackedFor(m, b.header.gasLimit);
    && b.header.coinbase == m.env.coinbase
    && Messages(m.message, b.body.txs) == k.txs && b.header.gasUsed == k.progress.used
  }

  /** What any node gets from processing the block on the same state. */
  ghost function ProcessedBy(m: Supply, b: Block): (r: Processor.Step) {
    Processor.Processed(m.env, b.header.gasLimit, Messages(m.message, b.body.txs), b.header.number, b.body.uncles,
      m.world)
  }

  /** The state the miner seals: what packing left, with the rewards paid. */
  ghost function SealedState(m: Supply, b: Block): (p: Processor.Progress) {
    var p := PackedFor(m, b.header.gasLimit).progress;
    var paid := Processor.Rewarded(p.world.balances, b.header.number, b.header.coinbase, b.body.uncles);
    p.(world := p.world.(balances := paid))
  }

  /** A filled block, processed by any node, gives the miner's state and receipts and the
      gas in its header, which is within its limit. */
  lemma {:induction false} FilledReplays(m: Supply, b: Block)
    requires Ready(m) && Filled(m, b)
    ensures ProcessedBy(m, b) == Processor.Done(SealedState(m, b))
    ensures SealedState(m, b).used == b.header.gasUsed <= b.header.gasLimit
  {
    Packing.PackReplays(m.env, m.owned, m.gasPrice, m.world, b.header.gasLimit, m.offer);
  }

  /** The block `commitNewWork` builds on the head. */
  ghost predicate Mined(s: Setting, c: Chain, b: Block, now: nat, m: Supply) {
    var win := TopBlocks(c.bodies, LineageOf(c.headers, c.head.hash), WINDOW);
    && Filled(m, b)
    && |b.header.extra| <= MAXIMUM_EXTRA_DATA_SIZE
    && (Roomy(c.head) ==>
          b.header.(gasUsed := 0) == NewWorkHeader(c.head, now, b.header.coinbase, b.header.extra, b.header.hash))
    && |b.body.uncles| <= MAX_UNCLES && DistinctHashes(b.body.uncles)
    && forall i | 0 <= i < |b.body.uncles| ::
         && b.body.uncles[i].hash in c.headers
         && c.headers[b.body.uncles[i].hash] == b.body.uncles[i]
         && Committed(win, b.body.uncles[i])
  }

  /** A sealed block the miner built passes every check of an import: the header and uncle
      checks, and processing it on the head's state uses exactly the gas in its header. */
  lemma {:induction false} MinedBlockFits(s: Setting, c: Chain, b: Block, now: nat, m: Supply)
    requires Stored(s, c) && Weighed(c) && Heaviest(c) && Mined(s, c, b, now, m) && Ready(m) && Roomy(s.genesis)
    requires b.header.hash !in c.headers && b.header.hash != ZERO_HASH
    requires Hashed(s.world, b) && s.pow(b.header) && b.header.time <= MAX_BIG
    ensures Fits(s, c, b)
    ensures ValidateHeader(s.pow, b.header, c.head, b.header.time, false, false) == HeaderOk
    ensures ProcessedBy(m, b) == Processor.Done(SealedState(m, b)) && SealedState(m, b).used == b.header.gasUsed
    ensures b.header.parentHash == c.head.hash && b.header.difficulty > 0
  {
    FilledReplays(m, b);
    StoredIsRoomy(s, c, c.head.hash);
    assert Placed(c.headers, s.genesis, c.head.hash);
    MinerGasLimitOk(c.head.gasUsed, c.head.gasLimit);
    ValidBlockIsValidUncle(s.pow, b.header, c.head, b.header.time);
    var win := TopBlocks(c.bodies, LineageOf(c.headers, c.head.hash), WINDOW);
    forall i | 0 <= i < |b.body.uncles|
      ensures UncleFault(s.pow, win, b, i) == UnclesOk
    {
      CommittedIsFaultless(s, c, win, b, i);
    }
  }

  /** A child of the head that fits becomes the head. */
  lemma {:induction false} ChildBecomesHead(s: Setting, c: Chain, b: Block, status: Status, c': Chain)
    requires Inv(s, c) && Fits(s, c, b) && b.header.parentHash == c.head.hash && b.header.difficulty > 0
    requires Once(AttachBodies(c, b), NewLine(c, b)) && Imported(c, b, status, c')
    ensures status == CanonBlock && c'.head == b.header && c'.headHeader == b.header
    ensures Inv(s, c')
  {
    ImportKeepsInv(s, c, b, status, c');
    LineageShape(c.headers, s.genesis, c.head.hash);
    assert ParentCanonical(c, b);
    HeadersFollowIff(s, c, b, c');
  }

  /** Importing the mined block, whatever the tie-breaking draw, makes it the head and
      takes the header head along. */
  lemma {:induction false} MinedBlockBecomesHead(s: Setting, c: Chain, b: Block, now: nat, m: Supply,
                                                 status: Status, c': Chain)
    requires Inv(s, c) && Mined(s, c, b, now, m) && Ready(m) && Roomy(s.genesis)
    requires b.header.hash !in c.headers && b.header.hash != ZERO_HASH
    requires Hashed(s.world, b) && s.pow(b.header) && b.header.time <= MAX_BIG
    requires Once(AttachBodies(c, b), NewLine(c, b)) && Imported(c, b, status, c')
    ensures status == CanonBlock && c'.head == b.header && c'.headHeader == b.header
    ensures Inv(s, c')
  {
    MinedBlockFits(s, c, b, now, m);
    ChildBecomesHead(s, c, b, status, c');
  }
}
