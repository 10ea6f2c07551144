/** The whole import of a block, processing included, and what it makes of a mined block. */
module Importing {
  import opened Lineage
  import opened Validator
  import opened Uncles
  import opened TxIndex
  import opened ChainSpec
  import opened ChainManager
  import Miner
  import Processor

  /** What the import compares with the header: the gas used, unless processing failed or a
      root differs. */
  ghost function Outcome(r: Processor.Step, rootsMatch: bool): (used: Option<nat>) {
    if r.Done? && rootsMatch then Some(r.progress.used) else None
  }

  /** Processes the block on its parent's state and imports it. Of `m` only the environment,
      the state and the messages matter; `rootsMatch` says whether the roots in the header are
      those of the processed state. */
  method InsertBlock(bc: BlockChain, b: Block, now: nat, m: Miner.Supply, rootsMatch: bool, coin: bool)
    returns (r: ImportResult)
    requires Inv(bc.Around(), bc.State()) && Miner.Ready(m) && m.env.coinbase == b.header.coinbase && now <= MAX_BIG
    requires Hashed(bc.world, b) && b.header.hash != ZERO_HASH
    requires Attachable(bc.headers, b.header) ==> Once(AttachBodies(bc.State(), b), NewLine(bc.State(), b))
    modifies bc
    ensures Inv(bc.Around(), bc.State()) && Step(bc.Around(), old(bc.State()), bc.State())
    ensures r.Written? <==>
            bc.Importable(old(bc.headers), old(bc.bodies), b, now, Outcome(Miner.ProcessedBy(m, b), rootsMatch))
    ensures r.Written? ==>
              rootsMatch && Miner.ProcessedBy(m, b).Done? && Miner.ProcessedBy(m, b).progress.used == b.header.gasUsed
    ensures !r.Written? ==> bc.State() == old(bc.State())
    ensures r.Written? ==> Imported(old(bc.State()), b, r.status, bc.State())
  {
    var msgs := Miner.Messages(m.message, b.body.txs);
    var s := Processor.Process(m.env, b.header.gasLimit, msgs, b.header.number, b.body.uncles, m.world);
    Processor.ProcessedSound(m.env, b.header.gasLimit, msgs, b.header.number, b.body.uncles, m.world);
    var used := if s.Done? && rootsMatch then Some(s.progress.used) else None;
    r := bc.ImportBlock(b, now, used, coin);
  }

  /** A block mined on the head of any node, once sealed and with its time come, is written by
      that node and becomes its head, whatever the draw. */
  method InsertMined(bc: BlockChain, b: Block, minedAt: nat, now: nat, m: Miner.Supply, coin: bool)
    returns (r: ImportResult)
    requires Inv(bc.Around(), bc.State()) && Miner.Ready(m) && Roomy(bc.genesis) && now <= MAX_BIG
    requires Miner.Mined(bc.Around(), bc.State(), b, minedAt, m)
    requires bc.pow(b.header) && b.header.time <= now && b.header.hash !in bc.headers && b.header.hash != ZERO_HASH
    requires Hashed(bc.world, b) && Once(AttachBodies(bc.State(), b), NewLine(bc.State(), b))
    modifies bc
    ensures r == Written(CanonBlock) && bc.currentBlock == bc.currentHeader == b.header
    ensures Inv(bc.Around(), bc.State())
  {
    ghost var c := bc.State();
    Miner.MinedBlockFits(bc.Around(), c, b, minedAt, m);
    r := InsertBlock(bc, b, now, m, true, coin);
    Miner.ChildBecomesHead(bc.Around(), c, b, r.status, bc.State());
  }
}
