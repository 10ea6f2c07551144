/** Whole blocks: running the transactions, the block and uncle rewards, the receipts,
    and the same accounting on the mining side. */
module Processor {
  import opened Lineage
  import opened Ledger
  import opened Execution

  const BLOCK_REWARD := 8_000_000_000_000_000_000

  /** The consensus part of a receipt, and the gas the transaction itself used. */
  datatype Receipt = Receipt(cumulative: nat, gasUsed: nat)

  // ---- Between two transactions ----

  /** The world between two transactions: the refund counter is reset, and the accounts that
      self-destructed are deleted with all they hold by then. */
  function Sealed(w: World): (w': World) {
    World(w.balances - w.doomed, w.nonces - w.doomed, 0, {})
  }

  /** What the deleted accounts held. */
  ghost function Lost(w: World): (v: int) {
    Total(Held(w.balances, w.doomed))
  }

  /** Sealing takes away exactly what the doomed accounts hold; nothing is lost exactly when
      none of them was paid after its destruction. */
  lemma {:induction false} SealedLoses(w: World)
    requires NonNegative(w.balances)
    ensures Total(Sealed(w).balances) + Lost(w) == Total(w.balances) && Lost(w) >= 0
    ensures NonNegative(Sealed(w).balances)
    ensures forall a ::
              && BalanceOf(Sealed(w).balances, a) == (if a in w.doomed then 0 else BalanceOf(w.balances, a))
              && NonceOf(Sealed(w), a) == if a in w.doomed then 0 else NonceOf(w, a)
    ensures Sealed(w).refund == 0 && Sealed(w).doomed == {}
    ensures Total(Sealed(w).balances) == Total(w.balances)
            <==> forall a | a in w.doomed :: BalanceOf(w.balances, a) == 0
  {
    var held := Held(w.balances, w.doomed);
    TotalDelete(w.balances, w.doomed);
    TotalNonNegative(held);
    TotalZeroIff(held);
    assert forall a | a in w.doomed && a in w.balances :: held[a] == w.balances[a];
  }

  /** Deletes the doomed accounts one by one, in any order. */
  method IntermediateRoot(w: World) returns (w': World, lost: int)
    ensures w' == Sealed(w) && lost == Lost(w)
  {
    var balances, nonces, todo := w.balances, w.nonces, w.doomed;
    lost := 0;
    while todo != {}
      invariant todo <= w.doomed
      invariant balances == w.balances - (w.doomed - todo) && nonces == w.nonces - (w.doomed - todo)
      invariant lost + Total(balances) == Total(w.balances)
      decreases |todo|
    {
      var a :| a in todo;
      DropOne(balances, a);
      lost := lost + BalanceOf(balances, a);
      balances, nonces, todo := balances - {a}, nonces - {a}, todo - {a};
    }
    TotalDelete(w.balances, w.doomed);
    assert w.doomed - {} == w.doomed;
    w' := World(balances, nonces, 0, {});
  }

  lemma {:induction false} DropOne(b: Balances, a: Address)
    ensures Total(b - {a}) + BalanceOf(b, a) == Total(b)
  {
    if a in b {
      TotalSplit(b, a);
    } else {
      assert b - {a} == b;
    }
  }

  // ---- Receipts ----

  /** Each receipt's running total is the previous one plus its own gas. */
  ghost predicate Running(rs: seq<Receipt>, total: nat) {
    if rs == [] then total == 0
    else
      var last := rs[|rs| - 1];
      last.cumulative == total && last.gasUsed <= total && Running(rs[..|rs| - 1], total - last.gasUsed)
  }

  lemma {:induction false} RunningAt(rs: seq<Receipt>, total: nat, j: nat)
    requires Running(rs, total) && j < |rs|
    ensures rs[j].gasUsed == rs[j].cumulative - (if j == 0 then 0 else rs[j - 1].cumulative)
    ensures rs[j].cumulative <= total
  {
    var n := |rs| - 1;
    var init := rs[..n];
    if j < n {
      RunningAt(init, total - rs[n].gasUsed, j);
    } else if j > 0 {
      RunningAt(init, total - rs[n].gasUsed, n - 1);
      assert init[|init| - 1].cumulative == total - rs[n].gasUsed;
    }
  }

  /** The used gas rebuilt from the cumulative totals, as for downloaded receipts. */
  method DeriveGasUsed(rs: seq<Receipt>, ghost total: nat) returns (gasUsed: seq<int>)
    requires Running(rs, total)
    ensures |gasUsed| == |rs| && forall j | 0 <= j < |rs| :: gasUsed[j] == rs[j].gasUsed
  {
    gasUsed := [];
    for j := 0 to |rs|
      invariant |gasUsed| == j
      invariant forall i | 0 <= i < j :: gasUsed[i] == rs[i].gasUsed
    {
      RunningAt(rs, total, j);
      if j == 0 {
        gasUsed := gasUsed + [rs[j].cumulative];
      } else {
        gasUsed := gasUsed + [rs[j].cumulative - rs[j - 1].cumulative];
      }
    }
  }

  // ---- Transactions of a block ----

  /** A partly processed block, and the balance burned so far: by its transactions, and by
      deleting the accounts that self-destructed in them. */
  datatype Progress = Progress(world: World, receipts: seq<Receipt>, used: nat, burned: int)

  datatype Step = Done(progress: Progress) | Failed(error: TxError)

  /** One more transaction, with `poolGas` left in the pool. */
  ghost function Extended(env: Env, p: Progress, tx: Msg, poolGas: nat): (s: Step) {
    match Transact(env, tx, p.world, poolGas)
    case Refused(e) => Failed(e)
    case Applied(w, used, _, _, burned) =>
      Done(Progress(Sealed(w), p.receipts + [Receipt(p.used + used, used)], p.used + used,
                    p.burned + burned + Lost(w)))
  }

  /** Runs the transactions in order from `w`; fails with the first that is refused. */
  ghost function Executed(env: Env, txs: seq<Msg>, w: World, gasLimit: nat): (s: Step)
    decreases |txs|
  {
    if txs == [] then Done(Progress(w, [], 0, 0))
    else
      var before := Executed(env, txs[..|txs| - 1], w, gasLimit);
      if before.Failed? then before
        else Extended(env, before.progress, txs[|txs| - 1], Less(gasLimit, before.progress.used))
  }

  /** What holds of every processed prefix of a block. */
  ghost predicate Sound(p: Progress, w: World) {
    && Total(p.world.balances) + p.burned == Total(w.balances) && p.burned >= 0
    && NonNegative(p.world.balances) && p.world.refund == 0
    && Running(p.receipts, p.used)
  }

  lemma {:induction false} ExtendedSound(env: Env, p: Progress, tx: Msg, w: World, poolGas: nat)
    requires VmLawful(env) && Sound(p, w)
    ensures var s := Extended(env, p, tx, poolGas);
            s.Done? ==> Sound(s.progress, w) && p.used <= s.progress.used <= p.used + poolGas
                        && |s.progress.receipts| == |p.receipts| + 1
  {
    TransactConserves(env, tx, p.world, poolGas);
    var r := Transact(env, tx, p.world, poolGas);
    if r.Applied? {
      SealedLoses(r.world);
      var rs := p.receipts + [Receipt(p.used + r.used, r.used)];
      assert rs[..|rs| - 1] == p.receipts;
    }
  }

  /** A processed block preserves the total balance but for what was burned, never exceeds its gas limit, and
      its receipts carry correct running totals. */
  lemma {:induction false} ExecutedSound(env: Env, txs: seq<Msg>, w: World, gasLimit: nat)
    requires VmLawful(env) && NonNegative(w.balances) && w.refund == 0
    ensures var s := Executed(env, txs, w, gasLimit);
            s.Done? ==> Sound(s.progress, w) && s.progress.used <= gasLimit && |s.progress.receipts| == |txs|
    decreases |txs|
  {
    if txs != [] {
      var init, last := txs[..|txs| - 1], txs[|txs| - 1];
      ExecutedSound(env, init, w, gasLimit);
      var before := Executed(env, init, w, gasLimit);
      if before.Done? {
        ExtendedSound(env, before.progress, last, w, Less(gasLimit, before.progress.used));
      }
    }
  }

  /** Every call destroys the account it calls, and the miner is account 9. */
  ghost function Destructive(): (env: Env) {
    Env(9, false, (a: Address, n: nat) => 0,
        (w: World, m: Msg, to: Address, g: nat) => VmRun(w.(doomed := w.doomed + {to}), g, false, 0, 0))
  }

  lemma {:induction false} DoomedMinerIsPaid(tx: Msg, w: World)
    requires tx == Msg(7, Some(9), 0, TX_GAS, 1, 0, []) && w == World(map[7 := TX_GAS], map[], 0, {})
    ensures var r := Transact(Destructive(), tx, w, TX_GAS);
            && r.Applied? && r.used == TX_GAS && r.burned == 0
            && r.world.balances == map[7 := 0, 9 := TX_GAS] && r.world.doomed == {9}
  {
    assert Intrinsic(tx.data, false, false) == TX_GAS;
  }

  lemma {:induction false} DoomedMinerIsDeleted(w: World)
    requires w.balances == map[7 := 0, 9 := TX_GAS] && w.doomed == {9}
    ensures Sealed(w).balances == map[7 := 0] && Lost(w) == TX_GAS
  {
    TotalOne(9, TX_GAS);
    assert Held(w.balances, {9}) == map[9 := TX_GAS];
  }

  lemma {:induction false} DestructiveLawful()
    ensures VmLawful(Destructive())
  {
  }

  lemma {:induction false} DoomedMinerStep(tx: Msg, w: World) returns (p: Progress)
    requires tx == Msg(7, Some(9), 0, TX_GAS, 1, 0, []) && w == World(map[7 := TX_GAS], map[], 0, {})
    ensures Extended(Destructive(), Progress(w, [], 0, 0), tx, TX_GAS) == Done(p)
    ensures p.used == p.burned == TX_GAS && p.world.balances == map[7 := 0]
  {
    DoomedMinerIsPaid(tx, w);
    var r := Transact(Destructive(), tx, w, TX_GAS);
    DoomedMinerIsDeleted(r.world);
    p := Extended(Destructive(), Progress(w, [], 0, 0), tx, TX_GAS).progress;
  }

  /** The miner is a contract that destroys itself in the transaction it is paid for: the fee
      is credited to it afterwards and deleted with it. */
  lemma {:induction false} DoomedMinerLosesFee() returns (tx: Msg, w: World, p: Progress)
    ensures VmLawful(Destructive()) && NonNegative(w.balances) && w.doomed == {}
    ensures Executed(Destructive(), [tx], w, TX_GAS) == Done(p)
    ensures p.used * tx.gasPrice == TX_GAS && Total(w.balances) == TX_GAS && p.burned == TX_GAS
    ensures p.world.balances == map[tx.from := 0]
  {
    tx := Msg(7, Some(9), 0, TX_GAS, 1, 0, []);
    w := World(map[7 := TX_GAS], map[], 0, {});
    DestructiveLawful();
    TotalOne(7, TX_GAS);
    p := DoomedMinerStep(tx, w);
    ExecutedFirst(Destructive(), tx, w, TX_GAS);
  }

  lemma {:induction false} ExecutedFirst(env: Env, tx: Msg, w: World, gasLimit: nat)
    ensures Executed(env, [tx], w, gasLimit) == Extended(env, Progress(w, [], 0, 0), tx, gasLimit)
  {
    ExecutedSnoc(env, [], tx, w, gasLimit, Progress(w, [], 0, 0), gasLimit);
    assert [] + [tx] == [tx];
  }

  lemma {:induction false} TotalOne(a: Address, v: int)
    ensures Total(map[a := v]) == v
  {
    TotalSplit(map[a := v], a);
    assert map[a := v] - {a} == map[];
  }

  // ---- Rewards ----

  function UncleReward(number: nat, uncle: Header): (r: int) {
    (uncle.number + 8 - number) * BLOCK_REWARD / 8
  }

  ghost function Minted(number: nat, uncles: seq<Header>): (r: int) {
    if uncles == [] then BLOCK_REWARD
    else Minted(number, uncles[..|uncles| - 1]) + UncleReward(number, uncles[|uncles| - 1]) + BLOCK_REWARD / 32
  }

  /** What `a` earns as the miner of some of the uncles. */
  ghost function UncleIncome(a: Address, number: nat, uncles: seq<Header>): (r: int) {
    if uncles == [] then 0
    else
      var last := uncles[|uncles| - 1];
      UncleIncome(a, number, uncles[..|uncles| - 1]) + if last.coinbase == a then UncleReward(number, last) else 0
  }

  /** What a block's rewards bring `a`. */
  ghost function Earned(a: Address, number: nat, coinbase: Address, uncles: seq<Header>): (r: int) {
    UncleIncome(a, number, uncles) + if a == coinbase then BLOCK_REWARD + |uncles| * (BLOCK_REWARD / 32) else 0
  }

  /** The balances with the first rewards credited: every uncle's miner with its own. */
  ghost function UnclesPaid(b: Balances, number: nat, uncles: seq<Header>): (b': Balances) {
    if uncles == [] then b
    else
      var last := uncles[|uncles| - 1];
      Credit(UnclesPaid(b, number, uncles[..|uncles| - 1]), last.coinbase, UncleReward(number, last))
  }

  ghost function Rewarded(b: Balances, number: nat, coinbase: Address, uncles: seq<Header>): (b': Balances) {
    Credit(UnclesPaid(b, number, uncles), coinbase, BLOCK_REWARD + |uncles| * (BLOCK_REWARD / 32))
  }

  /** What the uncles' miners get together. */
  ghost function UncleRewards(number: nat, uncles: seq<Header>): (r: int) {
    if uncles == [] then 0
    else UncleRewards(number, uncles[..|uncles| - 1]) + UncleReward(number, uncles[|uncles| - 1])
  }

  lemma {:induction false} UnclesPaidTotal(b: Balances, number: nat, uncles: seq<Header>)
    ensures Total(UnclesPaid(b, number, uncles)) == Total(b) + UncleRewards(number, uncles)
  {
    if uncles != [] {
      var init, last := uncles[..|uncles| - 1], uncles[|uncles| - 1];
      UnclesPaidTotal(b, number, init);
      TotalCredit(UnclesPaid(b, number, init), last.coinbase, UncleReward(number, last));
    }
  }

  lemma {:induction false} MintedSum(number: nat, uncles: seq<Header>)
    ensures Minted(number, uncles) == BLOCK_REWARD + UncleRewards(number, uncles) + |uncles| * (BLOCK_REWARD / 32)
  {
    if uncles != [] {
      MintedSum(number, uncles[..|uncles| - 1]);
    }
  }

  lemma {:induction false} UnclesPaidTo(b: Balances, number: nat, uncles: seq<Header>, a: Address)
    ensures BalanceOf(UnclesPaid(b, number, uncles), a) == BalanceOf(b, a) + UncleIncome(a, number, uncles)
  {
    if uncles != [] {
      UnclesPaidTo(b, number, uncles[..|uncles| - 1], a);
    }
  }

  /** The rewards add exactly what is minted, and bring every account exactly what it earned. */
  lemma {:induction false} RewardsExact(b: Balances, number: nat, coinbase: Address, uncles: seq<Header>)
    ensures Total(Rewarded(b, number, coinbase, uncles)) == Total(b) + Minted(number, uncles)
    ensures forall a ::
             BalanceOf(Rewarded(b, number, coinbase, uncles), a)
             == BalanceOf(b, a) + Earned(a, number, coinbase, uncles)
  {
    UnclesPaidTotal(b, number, uncles);
    MintedSum(number, uncles);
    forall a
      ensures BalanceOf(Rewarded(b, number, coinbase, uncles), a)
              == BalanceOf(b, a) + Earned(a, number, coinbase, uncles)
    {
      UnclesPaidTo(b, number, uncles, a);
    }
    TotalCredit(UnclesPaid(b, number, uncles), coinbase, BLOCK_REWARD + |uncles| * (BLOCK_REWARD / 32));
  }

  /** Credits every uncle's miner with its reward, and the block's miner with the block
      reward and a thirty-second of it per uncle. */
  method AccumulateRewards(b: Balances, number: nat, coinbase: Address, uncles: seq<Header>) returns (b': Balances)
    ensures b' == Rewarded(b, number, coinbase, uncles)
    ensures Total(b') == Total(b) + Minted(number, uncles)
    ensures forall a :: BalanceOf(b', a) == BalanceOf(b, a) + Earned(a, number, coinbase, uncles)
  {
    b' := b;
    var reward := BLOCK_REWARD;
    for i := 0 to |uncles|
      invariant reward == BLOCK_REWARD + i * (BLOCK_REWARD / 32)
      invariant b' == UnclesPaid(b, number, uncles[..i])
    {
      assert uncles[..i + 1][..i] == uncles[..i];
      b' := Credit(b', uncles[i].coinbase, UncleReward(number, uncles[i]));
      reward := reward + BLOCK_REWARD / 32;
    }
    assert uncles[..|uncles|] == uncles;
    b' := Credit(b', coinbase, reward);
    RewardsExact(b, number, coinbase, uncles);
  }

  /** With an uncle one to six blocks back its reward is exact and lies between a
      quarter and seven eighths of the block reward. */
  lemma {:induction false} UncleRewardExact(number: nat, uncle: Header)
    requires 1 <= number - uncle.number <= 6
    ensures 8 * UncleReward(number, uncle) == (uncle.number + 8 - number) * BLOCK_REWARD
    ensures BLOCK_REWARD / 4 <= UncleReward(number, uncle) <= 7 * (BLOCK_REWARD / 8)
  {
    var k := uncle.number + 8 - number;
    assert k * BLOCK_REWARD == 8 * (k * (BLOCK_REWARD / 8));
  }

  lemma {:induction false} MintedPerUncle(number: nat, uncles: seq<Header>)
    requires forall i | 0 <= i < |uncles| :: 1 <= number - uncles[i].number <= 6
    ensures BLOCK_REWARD <= Minted(number, uncles)
    ensures 32 * Minted(number, uncles) <= (32 + 29 * |uncles|) * BLOCK_REWARD
  {
    if uncles != [] {
      MintedPerUncle(number, uncles[..|uncles| - 1]);
      UncleRewardExact(number, uncles[|uncles| - 1]);
    }
  }

  /** How much nearer than eight blocks the uncles are, together. */
  ghost function Nearness(number: nat, uncles: seq<Header>): (n: int) {
    if uncles == [] then 0
    else Nearness(number, uncles[..|uncles| - 1]) + (8 - (number - uncles[|uncles| - 1].number))
  }

  /** A block mints eight ether, a 32nd of it per uncle, and an eighth of it for every block an
      uncle is nearer than eight. */
  lemma {:induction false} MintedExact(number: nat, uncles: seq<Header>)
    ensures Minted(number, uncles)
            == 8_000_000_000_000_000_000 + 250_000_000_000_000_000 * |uncles|
               + 1_000_000_000_000_000_000 * Nearness(number, uncles)
  {
    if uncles != [] {
      var k := uncles[|uncles| - 1].number + 8 - number;
      MintedExact(number, uncles[..|uncles| - 1]);
      assert k * BLOCK_REWARD / 8 == 1_000_000_000_000_000_000 * k;
    }
  }

  /** What each account earns in the same units: the miner for the block and per uncle, the
      miner of an uncle for its nearness. */
  lemma {:induction false} EarnedExact(a: Address, number: nat, coinbase: Address, uncles: seq<Header>)
    ensures var own := OwnUncles(a, uncles);
            Earned(a, number, coinbase, uncles)
            == (if a == coinbase then 8_000_000_000_000_000_000 + 250_000_000_000_000_000 * |uncles| else 0)
               + 1_000_000_000_000_000_000 * Nearness(number, own)
  {
    UncleIncomeExact(a, number, uncles);
  }

  /** The uncles mined by `a`. */
  ghost function OwnUncles(a: Address, uncles: seq<Header>): (us: seq<Header>) {
    if uncles == [] then []
    else OwnUncles(a, uncles[..|uncles| - 1])
         + if uncles[|uncles| - 1].coinbase == a then [uncles[|uncles| - 1]] else []
  }

  lemma {:induction false} UncleIncomeExact(a: Address, number: nat, uncles: seq<Header>)
    ensures UncleIncome(a, number, uncles) == 1_000_000_000_000_000_000 * Nearness(number, OwnUncles(a, uncles))
  {
    if uncles != [] {
      var init, last := uncles[..|uncles| - 1], uncles[|uncles| - 1];
      UncleIncomeExact(a, number, init);
      if last.coinbase == a {
        var own := OwnUncles(a, init);
        assert (own + [last])[..|own|] == own;
        var k := last.number + 8 - number;
        assert k * BLOCK_REWARD / 8 == 1_000_000_000_000_000_000 * k;
      } else {
        assert OwnUncles(a, init) + [] == OwnUncles(a, init);
      }
    }
  }

  /** A block with its at most two uncles mints at most 45/16 of the block reward. */
  lemma {:induction false} MintedBounds(number: nat, uncles: seq<Header>)
    requires |uncles| <= 2
    requires forall i | 0 <= i < |uncles| :: 1 <= number - uncles[i].number <= 6
    ensures 16 * BLOCK_REWARD <= 16 * Minted(number, uncles) <= 45 * BLOCK_REWARD
  {
    MintedPerUncle(number, uncles);
  }

  // ---- Processing ----

  /** Applies one transaction, adding its gas to the running total and its receipt. */
  method ApplyTransaction(env: Env, pool: GasPool, p: Progress, tx: Msg) returns (s: Step)
    requires VmLawful(env) && NonNegative(p.world.balances)
    modifies pool
    ensures s == Extended(env, p, tx, old(pool.gas))
    ensures s.Done? ==> pool.gas + s.progress.used == old(pool.gas) + p.used
    ensures s.Failed? ==> pool.gas == PoolAfter(tx, old(pool.gas), Refused(s.error))
  {
    var t := new Transition(env, tx, pool, p.world);
    var r := t.TransitionDb();
    if r.Refused? {
      return Failed(r.error);
    }
    var used := p.used + r.used;
    var sealed, lost := IntermediateRoot(r.world);
    return Done(Progress(sealed, p.receipts + [Receipt(used, r.used)], used, p.burned + r.burned + lost));
  }

  lemma {:induction false} SnocInit(txs: seq<Msg>, tx: Msg)
    ensures var more := txs + [tx]; more[..|more| - 1] == txs && more[|more| - 1] == tx
  {
  }

  lemma {:induction false} ExecutedSnoc(env: Env, txs: seq<Msg>, tx: Msg, w: World, gasLimit: nat, p: Progress,
                                        poolGas: nat)
    requires Executed(env, txs, w, gasLimit) == Done(p) && poolGas + p.used == gasLimit
    ensures Executed(env, txs + [tx], w, gasLimit) == Extended(env, p, tx, poolGas)
  {
    assert Less(gasLimit, p.used) == poolGas;
    SnocInit(txs, tx);
    ExecutedLast(env, txs + [tx], w, gasLimit);
  }

  lemma {:induction false} ExecutedLast(env: Env, txs: seq<Msg>, w: World, gasLimit: nat)
    requires txs != []
    ensures var before := Executed(env, txs[..|txs| - 1], w, gasLimit);
            before.Done? ==>
              Executed(env, txs, w, gasLimit)
                == Extended(env, before.progress, txs[|txs| - 1], Less(gasLimit, before.progress.used))
  {
  }

  lemma {:induction false} PrefixFailed(env: Env, txs: seq<Msg>, w: World, gasLimit: nat, n: nat)
    requires n <= |txs| && Executed(env, txs[..n], w, gasLimit).Failed?
    ensures Executed(env, txs, w, gasLimit) == Executed(env, txs[..n], w, gasLimit)
    decreases |txs| - n
  {
    if n < |txs| {
      assert txs[..n + 1][..n] == txs[..n];
      PrefixFailed(env, txs, w, gasLimit, n + 1);
    } else {
      assert txs[..n] == txs;
    }
  }

  lemma {:induction false} TakeSnoc(txs: seq<Msg>, i: nat)
    requires i < |txs|
    ensures txs[..i + 1] == txs[..i] + [txs[i]]
  {
  }

  lemma {:induction false} TakeAll(txs: seq<Msg>)
    ensures txs[..|txs|] == txs
  {
  }

  lemma {:induction false} ExecutedNext(env: Env, txs: seq<Msg>, w: World, gasLimit: nat, i: nat, p: Progress,
                                        poolGas: nat)
    requires i < |txs| && Executed(env, txs[..i], w, gasLimit) == Done(p) && poolGas + p.used == gasLimit
    ensures var s := Extended(env, p, txs[i], poolGas);
            && Executed(env, txs[..i + 1], w, gasLimit) == s
            && (s.Failed? ==> Executed(env, txs, w, gasLimit) == s)
  {
    ExecutedSnoc(env, txs[..i], txs[i], w, gasLimit, p, poolGas);
    TakeSnoc(txs, i);
    if Executed(env, txs[..i + 1], w, gasLimit).Failed? {
      PrefixFailed(env, txs, w, gasLimit, i + 1);
    }
  }

  method NextTransaction(env: Env, pool: GasPool, p: Progress, txs: seq<Msg>, i: nat, ghost w: World,
                         ghost gasLimit: nat)
    returns (s: Step)
    requires i < |txs| && VmLawful(env) && NonNegative(w.balances) && w.refund == 0
    requires Executed(env, txs[..i], w, gasLimit) == Done(p) && pool.gas + p.used == gasLimit
    modifies pool
    ensures s == Executed(env, txs[..i + 1], w, gasLimit) && (s.Failed? ==> s == Executed(env, txs, w, gasLimit))
    ensures s.Done? ==> pool.gas + s.progress.used == gasLimit
  {
    ExecutedSound(env, txs[..i], w, gasLimit);
    ExecutedNext(env, txs, w, gasLimit, i, p, pool.gas);
    s := ApplyTransaction(env, pool, p, txs[i]);
  }

  /** Runs a block's transactions against a fresh pool; the gas left in the pool and
      the gas used add up to the limit. */
  method ProcessTransactions(env: Env, gasLimit: nat, txs: seq<Msg>, world: World) returns (s: Step, pool: GasPool)
    requires VmLawful(env) && NonNegative(world.balances) && world.refund == 0
    ensures s == Executed(env, txs, world, gasLimit)
    ensures fresh(pool) && (s.Done? ==> pool.gas + s.progress.used == gasLimit)
  {
    pool := new GasPool(gasLimit);
    var p := Progress(world, [], 0, 0);
    for i := 0 to |txs|
      invariant Executed(env, txs[..i], world, gasLimit) == Done(p)
      invariant fresh(pool) && pool.gas + p.used == gasLimit
    {
      s := NextTransaction(env, pool, p, txs, i, world, gasLimit);
      if s.Failed? {
        return;
      }
      p := s.progress;
    }
    TakeAll(txs);
    s := Done(p);
  }

  /** A whole block: transactions, then rewards. */
  ghost function Processed(env: Env, gasLimit: nat, txs: seq<Msg>, number: nat, uncles: seq<Header>,
                           w: World): (s: Step) {
    match Executed(env, txs, w, gasLimit)
    case Failed(e) => Failed(e)
    case Done(p) => Done(p.(world := p.world.(balances := Rewarded(p.world.balances, number, env.coinbase, uncles))))
  }

  /** A processed block adds exactly the minted rewards to the total balance and takes away
      exactly what was burned; its gas stays within the limit and its receipts add up. */
  lemma {:induction false} ProcessedSound(env: Env, gasLimit: nat, txs: seq<Msg>, number: nat, uncles: seq<Header>,
                                          w: World)
    requires VmLawful(env) && NonNegative(w.balances) && w.refund == 0
    ensures var s := Processed(env, gasLimit, txs, number, uncles, w);
            s.Done? ==>
              && Total(s.progress.world.balances) + s.progress.burned == Total(w.balances) + Minted(number, uncles)
              && s.progress.burned >= 0
              && s.progress.world.refund == 0
              && |s.progress.receipts| == |txs| && s.progress.used <= gasLimit
                 && Running(s.progress.receipts, s.progress.used)
  {
    ExecutedSound(env, txs, w, gasLimit);
    var t := Executed(env, txs, w, gasLimit);
    if t.Done? {
      RewardsExact(t.progress.world.balances, number, env.coinbase, uncles);
    }
  }

  /** Processing a block: transactions, then rewards. */
  method Process(env: Env, gasLimit: nat, txs: seq<Msg>, number: nat, uncles: seq<Header>, world: World)
    returns (s: Step)
    requires VmLawful(env) && NonNegative(world.balances) && world.refund == 0
    ensures s == Processed(env, gasLimit, txs, number, uncles, world)
  {
    var pool;
    s, pool := ProcessTransactions(env, gasLimit, txs, world);
    if s.Failed? {
      return;
    }
    var b := AccumulateRewards(s.progress.world.balances, number, env.coinbase, uncles);
    return Done(s.progress.(world := s.progress.world.(balances := b)));
  }
}
