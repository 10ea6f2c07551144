/** What a verified chain mints: per block, and from the genesis up to any block. */
module Issuance {
  import opened Lineage
  import opened Uncles
  import opened Ledger
  import opened Execution
  import opened Processor

  /** What the block rewards of a chain add up to, the genesis excluded. */
  ghost function Issued(bodies: Bodies, l: seq<Header>): (r: int) {
    if |l| <= 1 then 0
    else
      var top := l[|l| - 1];
      Issued(bodies, l[..|l| - 1]) + Minted(top.number, BodyOf(bodies, top.hash).uncles)
  }

  /** Every block on a verified chain mints between one and 45/16 block rewards. */
  lemma {:induction false} BlockMints(world: iset<Header>, pow: Header -> bool, hs: Headers, bodies: Bodies, g: Header,
                                      h: Hash)
    requires Verified(world, pow, hs, bodies, g) && h in hs && hs[h] != g
    ensures 16 * BLOCK_REWARD <= 16 * Minted(hs[h].number, bodies[h].uncles) <= 45 * BLOCK_REWARD
  {
    LineageShape(hs, g, h);
    var l, n, uncles := LineageOf(hs, h), hs[h].number, bodies[h].uncles;
    assert Judged(world, pow, hs, bodies, g, h);
    forall i | 0 <= i < |uncles|
      ensures 1 <= n - uncles[i].number <= 6
    {
      assert UnclePos(bodies, l, n, i);
      UncleLiesNearby(world, pow, hs, bodies, g, h, n, i);
    }
    MintedBounds(n, uncles);
  }

  /** Up to block `h` a verified chain has minted between one and 45/16 rewards per block. */
  lemma {:induction false} ChainIssues(world: iset<Header>, pow: Header -> bool, hs: Headers, bodies: Bodies,
                                       g: Header, h: Hash)
    requires Verified(world, pow, hs, bodies, g) && h in hs
    ensures var n := hs[h].number;
            16 * (n * BLOCK_REWARD) <= 16 * Issued(bodies, LineageOf(hs, h)) <= 45 * (n * BLOCK_REWARD)
    decreases hs[h].number
  {
    LineageShape(hs, g, h);
    assert Placed(hs, g, h);
    if hs[h].number > 0 {
      ChainIssues(world, pow, hs, bodies, g, hs[h].parentHash);
      LineageShape(hs, g, hs[h].parentHash);
      var l := LineageOf(hs, h);
      assert l[..|l| - 1] == LineageOf(hs, hs[h].parentHash);
      BlockMints(world, pow, hs, bodies, g, h);
    }
  }

  // ---- The state along a chain ----

  lemma {:induction false} RewardedNonNegative(b: Balances, number: nat, coinbase: Address, uncles: seq<Header>)
    requires NonNegative(b) && forall i | 0 <= i < |uncles| :: 1 <= number - uncles[i].number <= 6
    ensures NonNegative(UnclesPaid(b, number, uncles)) && NonNegative(Rewarded(b, number, coinbase, uncles))
  {
    if uncles != [] {
      RewardedNonNegative(b, number, coinbase, uncles[..|uncles| - 1]);
      UncleRewardExact(number, uncles[|uncles| - 1]);
    }
  }

  /** Block `n` of the chain takes the state of block `n - 1` to that of block `n`: its
      transactions `msgs[n]` run in `envs[n]`, then the rewards for it and its uncles are paid. */
  ghost predicate Replayed(bodies: Bodies, l: seq<Header>, envs: seq<Env>, msgs: seq<seq<Msg>>, steps: seq<Progress>,
                           n: nat) {
    && 0 < n < |l| == |envs| == |msgs| == |steps|
    && VmLawful(envs[n]) && envs[n].coinbase == l[n].coinbase
    && Processed(envs[n], l[n].gasLimit, msgs[n], l[n].number, BodyOf(bodies, l[n].hash).uncles, steps[n - 1].world)
       == Done(steps[n])
  }

  /** All blocks above the genesis, from a genesis state without debt. */
  ghost predicate AllReplayed(bodies: Bodies, l: seq<Header>, envs: seq<Env>, msgs: seq<seq<Msg>>,
                              steps: seq<Progress>) {
    && 0 < |l| == |envs| == |msgs| == |steps|
    && NonNegative(steps[0].world.balances) && steps[0].world.refund == 0
    && forall k {:trigger Replayed(bodies, l, envs, msgs, steps, k)} | 0 < k < |l| ::
       Replayed(bodies, l, envs, msgs, steps, k)
  }

  /** What the transactions of blocks 1 to `n` have burned. */
  ghost function BurnedUpTo(steps: seq<Progress>, n: nat): (r: int)
    requires n < |steps|
  {
    if n == 0 then 0 else BurnedUpTo(steps, n - 1) + steps[n].burned
  }

  /** Processing a whole verified chain: at every block the state holds the genesis total
      plus everything issued since, minus everything burned. */
  lemma {:induction false} ChainConserves(world: iset<Header>, pow: Header -> bool, hs: Headers, bodies: Bodies,
                                          g: Header, h: Hash, envs: seq<Env>, msgs: seq<seq<Msg>>,
                                          steps: seq<Progress>, n: nat)
    requires Verified(world, pow, hs, bodies, g) && h in hs
    requires AllReplayed(bodies, LineageOf(hs, h), envs, msgs, steps) && n < |LineageOf(hs, h)|
    ensures var l := LineageOf(hs, h);
            && Total(steps[n].world.balances) + BurnedUpTo(steps, n)
               == Total(steps[0].world.balances) + Issued(bodies, l[..n + 1])
            && BurnedUpTo(steps, n) >= 0
            && NonNegative(steps[n].world.balances) && steps[n].world.refund == 0
    decreases n
  {
    if n > 0 {
      ChainConserves(world, pow, hs, bodies, g, h, envs, msgs, steps, n - 1);
      assert Replayed(bodies, LineageOf(hs, h), envs, msgs, steps, n);
      BlockConserves(world, pow, hs, bodies, g, h, envs, msgs, steps, n);
      var more := LineageOf(hs, h)[..n + 1];
      assert more[..|more| - 1] == LineageOf(hs, h)[..n];
    }
  }

  lemma {:induction false} BlockConserves(world: iset<Header>, pow: Header -> bool, hs: Headers, bodies: Bodies,
                                          g: Header, h: Hash, envs: seq<Env>, msgs: seq<seq<Msg>>,
                                          steps: seq<Progress>, n: nat)
    requires Verified(world, pow, hs, bodies, g) && h in hs
    requires var l := LineageOf(hs, h);
             && Replayed(bodies, l, envs, msgs, steps, n)
             && NonNegative(steps[n - 1].world.balances) && steps[n - 1].world.refund == 0
    ensures var top := LineageOf(hs, h)[n];
            && Total(steps[n].world.balances) + steps[n].burned
               == Total(steps[n - 1].world.balances) + Minted(top.number, BodyOf(bodies, top.hash).uncles)
            && steps[n].burned >= 0
            && NonNegative(steps[n].world.balances) && steps[n].world.refund == 0
  {
    var l := LineageOf(hs, h);
    LineageShape(hs, g, h);
    var top := l[n];
    var w, uncles := steps[n - 1].world, BodyOf(bodies, top.hash).uncles;
    ProcessedSound(envs[n], top.gasLimit, msgs[n], top.number, uncles, w);
    ExecutedSound(envs[n], msgs[n], w, top.gasLimit);
    forall i | 0 <= i < |uncles|
      ensures 1 <= top.number - uncles[i].number <= 6
    {
      assert UnclePos(bodies, l, n, i);
      UncleLiesNearby(world, pow, hs, bodies, g, h, n, i);
    }
    RewardedNonNegative(Executed(envs[n], msgs[n], w, top.gasLimit).progress.world.balances, top.number, top.coinbase,
      uncles);
  }
}
